/** When a feed is fetched next: entry frequency, or exponential backoff with jitter. */
module Policy {
  import opened Common
  import opened Models

  /** A jitter draw, as a fraction of the span: `random.uniform(-span, span)` is `u * span`. */
  type Draw = u: real | -1.0 <= u <= 1.0

  const WEEK: Time := 604800.0

  /** `base * 2 ** k`, by doubling. */
  function Doubled(base: real, k: nat): real {
    if k == 0 then base else 2.0 * Doubled(base, k - 1)
  }

  /** The unjittered delay of a BROKEN feed. */
  function BackoffDelay(s: Settings, failures: nat): real {
    var excess: nat := if failures > s.brokenThreshold then failures - s.brokenThreshold else 0;
    Min(Doubled(s.baseInterval, excess), s.maxBackoff)
  }

  function FrequencyInterval(s: Settings, weekly: nat): real
    requires s.Defined()
  {
    if weekly > 0 then
      assert weekly * s.frequencyFactor > 0;
      Max(s.frequencyMin, Min(WEEK / (weekly * s.frequencyFactor) as real, s.frequencyMax))
    else
      s.baseInterval
  }

  function NextFetchAt(s: Settings, status: FeedStatus, failures: nat, now: Time,
                       hint: Option<nat>, weekly: nat, u: Draw): Time
    requires s.Defined()
  {
    if status != Broken then
      now + Max(FrequencyInterval(s, weekly), hint.GetOr(0) as real)
    else
      now + Jittered(BackoffDelay(s, failures), s.jitterRatio, u)
  }

  function Jittered(delay: real, ratio: real, u: Draw): real {
    delay + u * (ratio * delay)
  }

  lemma {:induction false} JitteredBand(delay: real, ratio: real, u: Draw)
    requires delay > 0.0 && 0.0 <= ratio < 1.0
    ensures 0.0 < (1.0 - ratio) * delay <= Jittered(delay, ratio, u) <= (1.0 + ratio) * delay
  {
    Scale(ratio * delay, -1.0, u);
    Scale(ratio * delay, u, 1.0);
  }

  lemma {:induction false} JitteredPositive(delay: real, ratio: real, u: Draw)
    requires delay > 0.0 && 0.0 <= ratio < 1.0
    ensures Jittered(delay, ratio, u) > 0.0
  {
    JitteredBand(delay, ratio, u);
  }

  lemma {:induction false} Scale(a: real, x: real, y: real)
    requires a >= 0.0 && x <= y
    ensures a * x <= a * y
  {
  }

  lemma {:induction false} DoubledGrows(base: real, j: nat, k: nat)
    requires base > 0.0 && j <= k
    ensures 0.0 < base <= Doubled(base, j) <= Doubled(base, k)
    decreases k
  {
    if k > 0 {
      DoubledGrows(base, if j < k then j else k - 1, k - 1);
    }
  }

  lemma {:induction false} BackoffPositive(s: Settings, failures: nat)
    requires s.Positive()
    ensures 0.0 < BackoffDelay(s, failures) <= s.maxBackoff
  {
    if failures > s.brokenThreshold {
      DoubledGrows(s.baseInterval, 0, failures - s.brokenThreshold);
    }
  }

  /** The BROKEN branch stays inside the jitter band around the capped delay. */
  lemma {:induction false} JitterBand(s: Settings, failures: nat, now: Time, hint: Option<nat>, weekly: nat, u: Draw)
    requires s.Positive()
    ensures
      var d := BackoffDelay(s, failures);
      now < now + (1.0 - s.jitterRatio) * d
        <= NextFetchAt(s, Broken, failures, now, hint, weekly, u)
        <= now + (1.0 + s.jitterRatio) * d
  {
    BackoffPositive(s, failures);
    JitteredBand(BackoffDelay(s, failures), s.jitterRatio, u);
  }

  /** Whatever the status, history, hint and jitter, the next fetch lies strictly after `now`. */
  lemma {:induction false} NextFetchIsLater(s: Settings, status: FeedStatus, failures: nat, now: Time,
                         hint: Option<nat>, weekly: nat, u: Draw)
    requires s.Positive()
    ensures NextFetchAt(s, status, failures, now, hint, weekly, u) > now
  {
    if status == Broken {
      BackoffPositive(s, failures);
      JitteredPositive(BackoffDelay(s, failures), s.jitterRatio, u);
    } else {
      OtherIsLater(s, status, failures, now, hint, weekly, u);
    }
  }

  lemma {:induction false} OtherIsLater(s: Settings, status: FeedStatus, failures: nat, now: Time,
                     hint: Option<nat>, weekly: nat, u: Draw)
    requires s.Positive() && status != Broken
    ensures NextFetchAt(s, status, failures, now, hint, weekly, u) > now
  {
    assert FrequencyInterval(s, weekly) > 0.0;
  }

  lemma {:induction false} DivideByMore(a: real, x: real, y: real)
    requires a >= 0.0 && 0.0 < x <= y
    ensures a / y <= a / x
  {
    var p, q := a / x, a / y;
    assert p >= 0.0 && p * x == a && q * y == a;
    assert p * y >= p * x;
  }

  /** Posting more often never lengthens the interval, which stays between its two limits. */
  lemma {:induction false} FrequencyClamped(s: Settings, fewer: nat, more: nat)
    requires s.Defined() && 0 < fewer <= more
    ensures FrequencyInterval(s, more) <= FrequencyInterval(s, fewer)
    ensures s.frequencyMin <= FrequencyInterval(s, more)
    ensures FrequencyInterval(s, fewer) <= Max(s.frequencyMin, s.frequencyMax)
  {
    Grow(1, fewer, s.frequencyFactor);
    Grow(fewer, more, s.frequencyFactor);
    DivideByMore(WEEK, (fewer * s.frequencyFactor) as real, (more * s.frequencyFactor) as real);
  }

  /** Unless the feed is BROKEN, it is due at the later of the server's hint and the instant without one;
      a hint at or above every interval of the settings is the answer itself. */
  lemma {:induction false} HintIsHonoured(s: Settings, status: FeedStatus, failures: nat, now: Time,
                                          hint: nat, weekly: nat, u: Draw)
    requires s.Defined() && status != Broken
    ensures NextFetchAt(s, status, failures, now, Some(hint), weekly, u) >= now + hint as real
    ensures NextFetchAt(s, status, failures, now, Some(hint), weekly, u)
         >= NextFetchAt(s, status, failures, now, None, weekly, u)
    ensures NextFetchAt(s, status, failures, now, Some(hint), weekly, u)
            in {now + hint as real, NextFetchAt(s, status, failures, now, None, weekly, u)}
    ensures
      var h := hint as real;
      && (h >= s.baseInterval && h >= s.frequencyMin && h >= s.frequencyMax ==>
            NextFetchAt(s, status, failures, now, Some(hint), weekly, u) == now + h)
      && (now + h <= NextFetchAt(s, status, failures, now, None, weekly, u) ==>
            NextFetchAt(s, status, failures, now, Some(hint), weekly, u)
              == NextFetchAt(s, status, failures, now, None, weekly, u))
  {
    HintFloor(FrequencyInterval(s, weekly), hint as real);
    if weekly > 0 {
      var raw := WEEK / Posts(s, weekly);
      assert FrequencyInterval(s, weekly) == Max(s.frequencyMin, Min(raw, s.frequencyMax));
    }
  }

  lemma {:induction false} HintFloor(interval: real, hint: real)
    requires hint >= 0.0
    ensures Max(interval, hint) >= hint && Max(interval, hint) >= Max(interval, 0.0)
  {
  }

  /** Entries in the week, times the factor: the number of fetches the week is divided into. */
  function Posts(s: Settings, weekly: nat): (posts: real)
    requires s.Defined() && weekly > 0
    ensures posts > 0.0
  {
    Grow(1, weekly, s.frequencyFactor);
    (weekly * s.frequencyFactor) as real
  }

  /** Without a hint: the base interval for a week without entries; otherwise the `interval` that as many
      times as there are posts fills the 604800 seconds of a week, kept within the two limits. */
  lemma {:induction false} IntervalIsExact(s: Settings, status: FeedStatus, failures: nat, now: Time,
                                           weekly: nat, interval: real, u: Draw)
    requires s.Defined() && status != Broken && s.baseInterval >= 0.0 && s.frequencyMin >= 0.0
    requires weekly > 0 ==> interval * (weekly * s.frequencyFactor) as real == 604800.0
    ensures
      var next := NextFetchAt(s, status, failures, now, None, weekly, u);
      && (weekly == 0 ==> next == now + s.baseInterval)
      && (weekly > 0 && interval < s.frequencyMin ==> next == now + s.frequencyMin)
      && (weekly > 0 && s.frequencyMin <= interval <= s.frequencyMax ==> next == now + interval)
      && (weekly > 0 && s.frequencyMin <= s.frequencyMax < interval ==> next == now + s.frequencyMax)
  {
    if weekly > 0 {
      var posts := Posts(s, weekly);
      Quotient(WEEK, posts, interval);
      assert FrequencyInterval(s, weekly) == Max(s.frequencyMin, Min(interval, s.frequencyMax));
    }
  }

  lemma {:induction false} Quotient(a: real, x: real, q: real)
    requires x > 0.0 && q * x == a
    ensures a / x == q
  {
    var p := a / x;
    assert p * x == a;
    assert (p - q) * x == 0.0;
  }

  /** A BROKEN feed takes no hint, and the draw moves it evenly from one edge of its band to the other. */
  lemma {:induction false} DrawSpansBand(s: Settings, failures: nat, now: Time, hint: Option<nat>, weekly: nat, u: Draw)
    requires s.Defined()
    ensures
      var d := BackoffDelay(s, failures);
      && NextFetchAt(s, Broken, failures, now, hint, weekly, -1.0) == now + (1.0 - s.jitterRatio) * d
      && NextFetchAt(s, Broken, failures, now, hint, weekly, 0.0) == now + d
      && NextFetchAt(s, Broken, failures, now, hint, weekly, 1.0) == now + (1.0 + s.jitterRatio) * d
      && NextFetchAt(s, Broken, failures, now, hint, weekly, u) - (now + d)
         == u * (NextFetchAt(s, Broken, failures, now, hint, weekly, 1.0) - (now + d))
  {
    var d := BackoffDelay(s, failures);
    assert (1.0 - s.jitterRatio) * d == d - s.jitterRatio * d;
    assert (1.0 + s.jitterRatio) * d == d + s.jitterRatio * d;
  }

  /** The first delay is the base interval, unless the cap is below it. */
  lemma {:induction false} FirstDelay(s: Settings, failures: nat)
    requires failures <= s.brokenThreshold
    ensures s.baseInterval <= s.maxBackoff ==> BackoffDelay(s, failures) == s.baseInterval
    ensures s.baseInterval >= s.maxBackoff ==> BackoffDelay(s, failures) == s.maxBackoff
  {
  }

  /** Along a failing streak the delay doubles until it meets the cap, and never shrinks. */
  lemma {:induction false} BackoffDoubles(s: Settings, failures: nat)
    requires s.Positive() && failures >= s.brokenThreshold
    ensures BackoffDelay(s, failures + 1) == Min(2.0 * BackoffDelay(s, failures), s.maxBackoff)
    ensures BackoffDelay(s, failures) <= BackoffDelay(s, failures + 1)
  {
    BackoffPositive(s, failures);
    assert Doubled(s.baseInterval, failures + 1 - s.brokenThreshold)
        == 2.0 * Doubled(s.baseInterval, failures - s.brokenThreshold);
  }

  /** `k` is the least exponent at which the raw delay meets the cap. */
  ghost predicate IsCapStep(s: Settings, k: nat) {
    && Doubled(s.baseInterval, k) >= s.maxBackoff
    && forall j: nat :: j < k ==> Doubled(s.baseInterval, j) < s.maxBackoff
  }

  lemma {:induction false} DoublingReaches(base: real, cap: real, k: nat)
    requires base > 0.0
    ensures Doubled(base, k) >= k as real * base
  {
    if k > 0 {
      DoublingReaches(base, cap, k - 1);
      DoubledGrows(base, 0, k - 1);
      assert k as real * base == (k - 1) as real * base + base;
    }
  }

  lemma {:induction false} SomeCapStep(base: real, cap: real) returns (k: nat)
    requires base > 0.0 && cap > 0.0
    ensures Doubled(base, k) >= cap
  {
    var q := cap / base;
    assert base * q == cap;
    k := q.Floor + 1;
    DoublingReaches(base, cap, k);
    Scale(base, q, k as real);
  }

  /** The cap is met after finitely many failures, and from then on the delay is the cap. */
  lemma {:induction false} BackoffReachesCap(s: Settings) returns (k: nat)
    requires s.Positive()
    ensures IsCapStep(s, k)
    ensures forall failures: nat ::
              failures >= s.brokenThreshold ==>
                (BackoffDelay(s, failures) == s.maxBackoff <==> failures >= s.brokenThreshold + k)
  {
    k := SomeCapStep(s.baseInterval, s.maxBackoff);
    while k > 0 && Doubled(s.baseInterval, k - 1) >= s.maxBackoff
      invariant Doubled(s.baseInterval, k) >= s.maxBackoff
    {
      k := k - 1;
    }
    forall j: nat
      ensures j < k ==> Doubled(s.baseInterval, j) < s.maxBackoff
      ensures j >= k ==> Doubled(s.baseInterval, j) >= s.maxBackoff
    {
      if j < k {
        DoubledGrows(s.baseInterval, j, k - 1);
      } else {
        DoubledGrows(s.baseInterval, k, j);
      }
    }
  }
}
