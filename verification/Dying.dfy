/** How long, and over how many polls, a feed that only fails can stay BROKEN. */
module Dying {
  import opened Common
  import opened Models
  import opened Policy
  import opened FeedState
  import opened Fetch
  import opened Lifecycle

  predicate IsPlainFailure(e: Event) {
    IsFailure(e) && e.outcome.code != Http410
  }

  /** When the row allows the next claim; a feed without a history is not claimed before its reference. */
  ghost function Due(s: Settings, row: FeedRow, h: History): Time
    requires s.Defined()
  {
    if h == [] then Reference(row) else Run(s, row, h).nextFetchAt
  }

  /** A feed that only fails, as its row sees it: leases, each taken when the claim gate allows it, and
      polls that fail without a 410, each at the instant of the lease it follows.  A lease that no poll
      follows was lost. */
  ghost predicate Streak(s: Settings, row: FeedRow, h: History)
    requires s.Defined()
  {
    h == [] ||
    var n := |h| - 1;
    && Streak(s, row, h[..n])
    && match h[n]
       case Leased(at, until) =>
         at <= until && (Run(s, row, h[..n]).status != Dead ==> at >= Due(s, row, h[..n]))
       case Polled(at, _, _, _) =>
         IsPlainFailure(h[n]) && n > 0 && h[n - 1].Leased? && h[n - 1].at == at
       case Reactivated(_) => false
  }

  /** The polls of the history that left the feed BROKEN. */
  ghost function BrokenPolls(s: Settings, row: FeedRow, h: History): nat
    requires s.Defined()
  {
    if h == [] then 0
    else
      var n := |h| - 1;
      BrokenPolls(s, row, h[..n]) + if h[n].Polled? && Run(s, row, h).status == Broken then 1 else 0
  }

  // ---- Leases can be erased ----

  function Polls(h: History): History {
    if h == [] then [] else Polls(h[..|h| - 1]) + if h[|h| - 1].Polled? then [h[|h| - 1]] else []
  }

  /** The same without leases: each poll no earlier than the one it follows allowed it. */
  ghost predicate PollStreak(s: Settings, row: FeedRow, h: History)
    requires s.Defined()
  {
    h == [] ||
    var n := |h| - 1;
    && PollStreak(s, row, h[..n])
    && IsPlainFailure(h[n])
    && (Run(s, row, h[..n]).status != Dead ==> h[n].at >= Due(s, row, h[..n]))
  }

  /** The rows agree but for what a lease writes. */
  predicate AgreeButLease(a: FeedRow, b: FeedRow) {
    a == b.(nextFetchAt := a.nextFetchAt, lastAttempt := a.lastAttempt)
  }

  /** A poll leaves nothing of a lease. */
  lemma {:induction false} PollForgetsLease(s: Settings, a: FeedRow, b: FeedRow, e: Event)
    requires s.Defined() && e.Polled? && AgreeButLease(a, b)
    ensures Apply(s, a, e) == Apply(s, b, e)
  {
  }

  /** The polls alone account for the row and for the gate. */
  ghost predicate Erased(s: Settings, row: FeedRow, h: History)
    requires s.Defined()
  {
    var polls := Polls(h);
    && PollStreak(s, row, polls)
    && AgreeButLease(Run(s, row, h), Run(s, row, polls))
    && BrokenPolls(s, row, h) == BrokenPolls(s, row, polls)
    && (h != [] && h[|h| - 1].Polled? ==> polls != [] && Run(s, row, h) == Run(s, row, polls))
    && (h != [] && h[|h| - 1].Leased? && Run(s, row, h).status != Dead ==>
          Due(s, row, polls) <= h[|h| - 1].at <= Run(s, row, h).nextFetchAt)
  }

  lemma {:induction false} LeaseErased(s: Settings, row: FeedRow, h: History)
    requires s.Defined() && h != [] && Streak(s, row, h) && h[|h| - 1].Leased? && Erased(s, row, h[..|h| - 1])
    ensures Erased(s, row, h)
  {
    if Run(s, row, h[..|h| - 1]).status != Dead {
      LeaseGate(s, row, h);
    }
    var before := h[..|h| - 1];
    assert Polls(h) == Polls(before);
    assert Run(s, row, h) == Leasing(Run(s, row, before), h[|h| - 1].at, h[|h| - 1].until);
  }

  /** A lease waits for the last poll, through any leases lost in between. */
  lemma {:induction false} LeaseGate(s: Settings, row: FeedRow, h: History)
    requires s.Defined() && h != [] && Streak(s, row, h) && h[|h| - 1].Leased? && Erased(s, row, h[..|h| - 1])
    requires Run(s, row, h[..|h| - 1]).status != Dead
    ensures Due(s, row, Polls(h[..|h| - 1])) <= h[|h| - 1].at
  {
    var before := h[..|h| - 1];
    if before != [] && before[|before| - 1].Polled? {
      assert Due(s, row, before) == Due(s, row, Polls(before));
    }
  }

  lemma {:induction false} PollErased(s: Settings, row: FeedRow, h: History)
    requires s.Defined() && h != [] && Streak(s, row, h) && h[|h| - 1].Polled? && Erased(s, row, h[..|h| - 1])
    ensures Erased(s, row, h)
  {
    var n := |h| - 1;
    var before, polls := Polls(h[..n]), Polls(h);
    assert polls[..|before|] == before && polls[|before|] == h[n];
    PollForgetsLease(s, Run(s, row, h[..n]), Run(s, row, before), h[n]);
  }

  /** Erasing the leases of a streak keeps the row, up to the last lease, and keeps the gate. */
  lemma {:induction false} LeasesCanBeErased(s: Settings, row: FeedRow, h: History)
    requires s.Defined() && Streak(s, row, h)
    ensures Erased(s, row, h)
  {
    if h != [] {
      LeasesCanBeErased(s, row, h[..|h| - 1]);
      if h[|h| - 1].Leased? {
        LeaseErased(s, row, h);
      } else {
        PollErased(s, row, h);
      }
    }
  }

  // ---- How long the polls take ----

  /** The shortest gap between two polls at the capped delay. */
  function MinGap(s: Settings): real {
    (1.0 - s.jitterRatio) * s.maxBackoff
  }

  /** The time that `n` BROKEN polls must at least have taken, when the cap is met after `k`. */
  function AtLeast(s: Settings, n: nat, k: nat): real {
    if n <= k + 1 then 0.0 else AtLeast(s, n - 1, k) + MinGap(s)
  }

  lemma {:induction false} AtLeastIsProduct(s: Settings, n: nat, k: nat)
    requires n > k
    ensures AtLeast(s, n, k) == (n - 1 - k) as real * MinGap(s)
  {
    if n == k + 1 {
      assert (n - 1 - k) as real == 0.0;
    } else {
      AtLeastIsProduct(s, n - 1, k);
      assert (n - 1 - k) as real * MinGap(s) == (n - 2 - k) as real * MinGap(s) + MinGap(s);
    }
  }

  /** What holds after `n` BROKEN polls, the last poll of all at `last`. */
  ghost predicate OnCourse(s: Settings, reference: Time, now: FeedRow, n: nat, k: nat, last: Option<Time>) {
    && Lifecycle.Consistent(s, now)
    && Reference(now) == reference
    && (n >= 1 ==> AtLeast(s, n, k) < s.deadDuration)
    && (now.status == Active || last.None? ==> n == 0)
    && (now.status == Broken ==> now.failures + 1 >= s.brokenThreshold + n)
    && (last.Some? && now.status != Dead ==> last.value >= reference)
    && (last.Some? && now.status == Broken ==> AtLeast(s, n, k) <= last.value - reference < s.deadDuration)
  }

  function Last(h: History): Option<Time> {
    if h == [] then None else Some(h[|h| - 1].at)
  }

  /** What a streak guarantees at every point. */
  ghost predicate Progress(s: Settings, row: FeedRow, h: History, k: nat)
    requires s.Defined()
  {
    OnCourse(s, Reference(row), Run(s, row, h), BrokenPolls(s, row, h), k, Last(h))
  }

  /** A poll that leaves the feed BROKEN reschedules inside the jitter band of its new count. */
  lemma {:induction false} BrokenPollBand(s: Settings, row: FeedRow, e: Event)
    requires s.Positive() && IsPlainFailure(e) && Apply(s, row, e).status == Broken
    ensures
      var after := Apply(s, row, e);
      var d := BackoffDelay(s, after.failures);
      e.at + (1.0 - s.jitterRatio) * d <= after.nextFetchAt <= e.at + (1.0 + s.jitterRatio) * d
  {
    JitterBand(s, row.failures + 1, e.at, None, e.weekly, e.u);
  }

  /** After the `n`-th BROKEN poll, the next one waits out the gap that the count calls for. */
  lemma {:induction false} GapHolds(s: Settings, row: FeedRow, e: Event, n: nat, k: nat)
    requires s.Positive() && IsCapStep(s, k) && IsPlainFailure(e)
    requires Apply(s, row, e).status == Broken
    requires Apply(s, row, e).failures >= s.brokenThreshold
    requires Apply(s, row, e).failures + 1 >= s.brokenThreshold + n
    ensures AtLeast(s, n + 1, k) - AtLeast(s, n, k) <= Apply(s, row, e).nextFetchAt - e.at
  {
    PollReschedulesLater(s, row, e.at, e.weekly, e.outcome, e.u);
    if n > k {
      var f := Apply(s, row, e).failures;
      DoubledGrows(s.baseInterval, k, f - s.brokenThreshold);
      assert BackoffDelay(s, f) == s.maxBackoff;
      BrokenPollBand(s, row, e);
      assert AtLeast(s, n + 1, k) == AtLeast(s, n, k) + MinGap(s);
    }
  }

  lemma {:induction false} StreakStep(s: Settings, row: FeedRow, h: History, k: nat)
    requires s.Positive() && s.brokenThreshold >= 1 && IsCapStep(s, k)
    requires h != [] && PollStreak(s, row, h) && Progress(s, row, h[..|h| - 1], k)
    ensures Progress(s, row, h, k)
  {
    var before, e := h[..|h| - 1], h[|h| - 1];
    var was, n := Run(s, row, before), BrokenPolls(s, row, before);
    StreakLast(s, row, h);
    GapAfter(s, row, before, k);
    FailureOnCourse(s, Reference(row), was, n, k, Last(before), e);
  }

  /** The next poll falls due after the last one, and by the gap that the count calls for. */
  ghost predicate GapDue(s: Settings, was: FeedRow, n: nat, k: nat, last: Option<Time>) {
    last.Some? ==>
      && was.nextFetchAt > last.value
      && (was.status == Broken ==> AtLeast(s, n + 1, k) - AtLeast(s, n, k) <= was.nextFetchAt - last.value)
  }

  lemma {:induction false} GapAfter(s: Settings, row: FeedRow, h: History, k: nat)
    requires s.Positive() && s.brokenThreshold >= 1 && IsCapStep(s, k)
    requires PollStreak(s, row, h) && Progress(s, row, h, k)
    ensures GapDue(s, Run(s, row, h), BrokenPolls(s, row, h), k, Last(h))
  {
    if h != [] {
      LastGap(s, row, h, BrokenPolls(s, row, h), k);
    }
  }

  /** One more plain failure, made once the last poll's gap is over, stays on course. */
  lemma {:induction false} FailureOnCourse(s: Settings, reference: Time, was: FeedRow, n: nat, k: nat,
                                           last: Option<Time>, e: Event)
    requires s.Positive() && s.brokenThreshold >= 1 && IsPlainFailure(e)
    requires OnCourse(s, reference, was, n, k, last)
    requires was.status != Dead ==> e.at >= if last.None? then reference else was.nextFetchAt
    requires GapDue(s, was, n, k, last)
    ensures
      var after := Apply(s, was, e);
      OnCourse(s, reference, after, n + if after.status == Broken then 1 else 0, k, Some(e.at))
  {
    EventKeepsConsistent(s, was, e);
    FailureEffect(s, was, e);
  }

  lemma {:induction false} StreakLast(s: Settings, row: FeedRow, h: History)
    requires s.Defined() && h != [] && PollStreak(s, row, h)
    ensures
      var before, e := h[..|h| - 1], h[|h| - 1];
      && PollStreak(s, row, before) && IsPlainFailure(e)
      && (Run(s, row, before).status != Dead ==>
            e.at >= if Last(before).None? then Reference(row) else Run(s, row, before).nextFetchAt)
  {
  }

  lemma {:induction false} LastGap(s: Settings, row: FeedRow, h: History, n: nat, k: nat)
    requires s.Positive() && IsCapStep(s, k) && h != [] && IsPlainFailure(h[|h| - 1])
    requires Lifecycle.Consistent(s, Run(s, row, h))
    ensures Run(s, row, h).nextFetchAt > h[|h| - 1].at
    ensures Run(s, row, h).status == Broken && Run(s, row, h).failures + 1 >= s.brokenThreshold + n ==>
              AtLeast(s, n + 1, k) - AtLeast(s, n, k) <= Run(s, row, h).nextFetchAt - h[|h| - 1].at
  {
    var m := |h| - 1;
    var prev := Run(s, row, h[..m]);
    PollReschedulesLater(s, prev, h[m].at, h[m].weekly, h[m].outcome, h[m].u);
    if Run(s, row, h).status == Broken && Run(s, row, h).failures + 1 >= s.brokenThreshold + n {
      GapHolds(s, prev, h[m], n, k);
    }
  }

  /** What a plain failure does to the fields a streak watches. */
  lemma {:induction false} FailureEffect(s: Settings, row: FeedRow, e: Event)
    requires s.Defined() && IsPlainFailure(e) && Lifecycle.Consistent(s, row)
    ensures
      var after := Apply(s, row, e);
      && after.failures == row.failures + 1
      && Reference(after) == Reference(row)
      && (row.status == Dead ==> after.status == Dead)
      && (row.status == Broken ==> after.status != Active)
      && (after.status == Broken ==> e.at - Reference(row) < s.deadDuration)
      && (after.status == Broken ==> after.failures >= s.brokenThreshold)
  {
  }

  lemma {:induction false} StreakProgress(s: Settings, row: FeedRow, h: History, k: nat)
    requires s.Positive() && s.brokenThreshold >= 1 && IsCapStep(s, k)
    requires Lifecycle.Consistent(s, row) && PollStreak(s, row, h)
    ensures Progress(s, row, h, k)
  {
    if h != [] {
      var n := |h| - 1;
      StreakProgress(s, row, h[..n], k);
      StreakStep(s, row, h, k);
    }
  }

  lemma {:induction false} BrokenTime(s: Settings, row: FeedRow, h: History, k: nat)
    requires s.Positive() && s.brokenThreshold >= 1 && IsCapStep(s, k)
    requires Lifecycle.Consistent(s, row) && Streak(s, row, h)
    ensures BrokenPolls(s, row, h) >= 1 ==> AtLeast(s, BrokenPolls(s, row, h), k) < s.deadDuration
  {
    LeasesCanBeErased(s, row, h);
    StreakProgress(s, row, Polls(h), k);
  }

  /** All of `n` polls but the first `k + 1` can wait out a capped gap within the dead duration. */
  predicate GapsFit(s: Settings, n: nat, k: nat) {
    n > k + 1 ==> (n - 1 - k) as real * MinGap(s) < s.deadDuration
  }

  lemma {:induction false} CountedGapsFit(s: Settings, n: nat, k: nat)
    requires n >= 1 ==> AtLeast(s, n, k) < s.deadDuration
    ensures GapsFit(s, n, k)
  {
    if n > k + 1 {
      AtLeastIsProduct(s, n, k);
    }
  }

  /** Bounded dying, in polls: with the cap met after `k` doublings, all BROKEN polls beyond the
      first `k + 1` together wait out at least a capped gap each, and fit into the dead duration. */
  lemma {:induction false} BrokenPollsAreBounded(s: Settings, row: FeedRow, h: History, k: nat)
    requires s.Positive() && s.brokenThreshold >= 1 && IsCapStep(s, k)
    requires Lifecycle.Consistent(s, row) && Streak(s, row, h)
    ensures GapsFit(s, BrokenPolls(s, row, h), k)
  {
    BrokenTime(s, row, h, k);
    CountedGapsFit(s, BrokenPolls(s, row, h), k);
  }

  /** The longest jittered delay. */
  function MaxGap(s: Settings): real {
    (1.0 + s.jitterRatio) * s.maxBackoff
  }

  lemma {:induction false} BrokenPollCap(s: Settings, row: FeedRow, e: Event)
    requires s.Positive() && IsPlainFailure(e) && Apply(s, row, e).status == Broken
    ensures Apply(s, row, e).nextFetchAt <= e.at + MaxGap(s)
  {
    var d := BackoffDelay(s, Apply(s, row, e).failures);
    BackoffPositive(s, Apply(s, row, e).failures);
    Scale(1.0 + s.jitterRatio, d, s.maxBackoff);
    BrokenPollBand(s, row, e);
  }

  lemma {:induction false} LastBrokenPoll(s: Settings, row: FeedRow, h: History)
    requires s.Positive() && s.brokenThreshold >= 1
    requires Lifecycle.Consistent(s, row) && h != [] && PollStreak(s, row, h)
    ensures Lifecycle.Consistent(s, Run(s, row, h))
    ensures Run(s, row, h).status == Broken ==> h[|h| - 1].at - Reference(row) < s.deadDuration
  {
    var k := BackoffReachesCap(s);
    StreakProgress(s, row, h, k);
  }

  lemma {:induction false} PolledToDeath(s: Settings, row: FeedRow, h: History, latency: Time, now: Time)
    requires s.Positive() && s.brokenThreshold >= 1
    requires Lifecycle.Consistent(s, row) && h != [] && PollStreak(s, row, h)
    requires Run(s, row, h).failures >= s.brokenThreshold
    requires now <= Run(s, row, h).nextFetchAt + latency
    requires now >= Reference(row) + s.deadDuration + MaxGap(s) + latency
    ensures Run(s, row, h).status == Dead
  {
    LastBrokenPoll(s, row, h);
    if Run(s, row, h).status == Broken {
      var m := |h| - 1;
      BrokenPollCap(s, Run(s, row, h[..m]), h[m]);
    }
  }

  /** Bounded dying, in time: once the threshold is met, a feed whose polls are never more than
      `latency` overdue is DEAD by the reference plus the dead duration, one longest jittered delay
      and the latency.  A poll is due at the instant that the one before it wrote. */
  lemma {:induction false} DeadInTime(s: Settings, row: FeedRow, h: History, latency: Time, now: Time)
    requires s.Positive() && s.brokenThreshold >= 1
    requires Lifecycle.Consistent(s, row) && Streak(s, row, h) && Polls(h) != []
    requires Run(s, row, h).failures >= s.brokenThreshold
    requires Run(s, row, h).status != Dead ==> now <= Due(s, row, Polls(h)) + latency
    requires now >= Reference(row) + s.deadDuration + MaxGap(s) + latency
    ensures Run(s, row, h).status == Dead
  {
    LeasesCanBeErased(s, row, h);
    if Run(s, row, h).status != Dead {
      PolledToDeath(s, row, Polls(h), latency, now);
    }
  }
}
