/** Whole lives of one feed: what every history of events leaves behind. */
module Lifecycle {
  import opened Common
  import opened Models
  import opened Policy
  import opened FeedState
  import opened Fetch

  /** Everything that writes a feed's row after it is registered. */
  datatype Event =
    | Leased(at: Time, until: Time)
    | Polled(at: Time, weekly: nat, outcome: Outcome, u: Draw)
    | Reactivated(at: Time)

  type History = seq<Event>

  function Leasing(row: FeedRow, at: Time, until: Time): FeedRow {
    row.(nextFetchAt := until, lastAttempt := Some(at))
  }

  /** `POST /v1/feeds/{id}/reactivate`: every counter cleared, due at once, success clock kept. */
  function Reactivation(row: FeedRow, at: Time): FeedRow {
    row.(status := Active, failures := 0, errorCode := None, nextFetchAt := at)
  }

  function Apply(s: Settings, row: FeedRow, e: Event): FeedRow
    requires s.Defined()
  {
    match e
    case Leased(at, until) => Leasing(row, at, until)
    case Polled(at, weekly, outcome, u) => AfterPoll(s, row, at, weekly, outcome, u)
    case Reactivated(at) => Reactivation(row, at)
  }

  function Run(s: Settings, row: FeedRow, h: History): FeedRow
    requires s.Defined()
  {
    if h == [] then row else Apply(s, Run(s, row, h[..|h| - 1]), h[|h| - 1])
  }

  // ---- The invariant of every reachable row ----

  predicate Consistent(s: Settings, row: FeedRow) {
    && (row.status == Active ==> row.failures < s.brokenThreshold)
    && (row.status == Broken ==> row.failures >= s.brokenThreshold)
    && (row.status == Dead ==> row.failures >= 1)
    && (row.failures == 0 ==> row.errorCode == None || row.errorCode == Some(RateLimited))
    && (row.errorCode == None ==> row.status == Active && row.failures == 0)
  }

  lemma {:induction false} EventKeepsConsistent(s: Settings, row: FeedRow, e: Event)
    requires s.Defined() && s.brokenThreshold >= 1 && Consistent(s, row)
    ensures Consistent(s, Apply(s, row, e))
  {
  }

  /** Holds after every history of a registered feed. */
  lemma {:induction false} LifecycleInvariant(s: Settings, url: string, created: Time, h: History)
    requires s.Defined() && s.brokenThreshold >= 1
    ensures Consistent(s, Run(s, Registered(url, created), h))
  {
    if h != [] {
      var n := |h| - 1;
      LifecycleInvariant(s, url, created, h[..n]);
      EventKeepsConsistent(s, Run(s, Registered(url, created), h[..n]), h[n]);
    }
  }

  // ---- Reading the state off the history ----

  predicate IsFailure(e: Event) {
    e.Polled? && e.outcome.Failed?
  }

  /** A 200 or a manual reactivation. */
  predicate Revives(e: Event) {
    e.Reactivated? || (e.Polled? && e.outcome.Fetched?)
  }

  predicate Answers(e: Event) {
    e.Polled? && (e.outcome.Fetched? || e.outcome.NotModified?)
  }

  /** Event `i` clears the failure count: a revival, or a 304 while BROKEN.  `broken[i]` says
      whether the feed was BROKEN just before event `i`. */
  predicate Resets(h: History, broken: seq<bool>, i: nat)
    requires i < |h| == |broken|
  {
    Revives(h[i]) || (h[i].Polled? && h[i].outcome.NotModified? && broken[i])
  }

  /** Event `i` is a failure that no later event has cleared. */
  ghost predicate Stands(h: History, broken: seq<bool>, i: nat)
    requires i < |h| == |broken|
  {
    IsFailure(h[i]) && forall j: nat :: i < j < |h| ==> !Resets(h, broken, j)
  }

  ghost function Uncleared(h: History, broken: seq<bool>): set<nat>
    requires |h| == |broken|
  {
    set i: nat | i < |h| && Stands(h, broken, i)
  }

  /** The dead timer's reference: the last 200 or 304, or else the registration. */
  ghost predicate ReadsReference(created: Time, h: History, reference: Time) {
    || (reference == created && forall i :: 0 <= i < |h| ==> !Answers(h[i]))
    || (exists i :: 0 <= i < |h| && Answers(h[i]) && h[i].at == reference
                    && forall j :: i < j < |h| ==> !Answers(h[j]))
  }

  /** Failure `i` kills: a 410, or the threshold met while the reference is old enough. */
  ghost predicate Kills(s: Settings, created: Time, h: History, broken: seq<bool>, i: nat)
    requires i < |h| == |broken|
  {
    && IsFailure(h[i])
    && (|| h[i].outcome.code == Http410
        || (&& |Uncleared(h[..i], broken[..i])| + 1 >= s.brokenThreshold
            && exists reference :: ReadsReference(created, h[..i], reference)
                                   && h[i].at - reference >= s.deadDuration))
  }

  /** Some failure since the last revival killed the feed. */
  ghost predicate ReadsDead(s: Settings, created: Time, h: History, broken: seq<bool>)
    requires |h| == |broken|
  {
    exists i: nat :: i < |h| && Kills(s, created, h, broken, i) && forall j: nat :: i < j < |h| ==> !Revives(h[j])
  }

  ghost predicate ReadsBroken(s: Settings, created: Time, h: History, broken: seq<bool>)
    requires |h| == |broken|
  {
    !ReadsDead(s, created, h, broken) && |Uncleared(h, broken)| >= s.brokenThreshold
  }

  /** Whether each prefix of the history reads as BROKEN. */
  ghost function BrokenBefore(s: Settings, created: Time, h: History): (broken: seq<bool>)
    ensures |broken| == |h|
  {
    if h == [] then []
    else
      var n := |h| - 1;
      var broken := BrokenBefore(s, created, h[..n]);
      broken + [ReadsBroken(s, created, h[..n], broken)]
  }

  lemma {:induction false} UnclearedSnoc(h: History, broken: seq<bool>, e: Event, b: bool)
    requires |h| == |broken|
    ensures
      var clears := Revives(e) || (e.Polled? && e.outcome.NotModified? && b);
      |Uncleared(h + [e], broken + [b])|
        == if clears then 0 else |Uncleared(h, broken)| + if IsFailure(e) then 1 else 0
  {
    var h', broken', n := h + [e], broken + [b], |h|;
    forall i: nat | i <= n
      ensures Stands(h', broken', i) <==>
                if i == n then IsFailure(e) else Stands(h, broken, i) && !Resets(h', broken', n)
    {
      StandsSnoc(h, broken, e, b, i);
    }
    var before, after := Uncleared(h, broken), Uncleared(h', broken');
    assert Resets(h', broken', n) ==> !IsFailure(e);
    if Resets(h', broken', n) {
      assert after == {};
    } else if IsFailure(e) {
      assert after == before + {n};
    } else {
      assert after == before;
    }
  }

  lemma {:induction false} StandsSnoc(h: History, broken: seq<bool>, e: Event, b: bool, i: nat)
    requires |h| == |broken| && i <= |h|
    ensures Stands(h + [e], broken + [b], i) <==>
              if i == |h| then IsFailure(e)
              else Stands(h, broken, i) && !Resets(h + [e], broken + [b], |h|)
  {
    var h', broken', n := h + [e], broken + [b], |h|;
    assert h'[n] == e && broken'[n] == b;
    forall j: nat | j < n
      ensures h'[j] == h[j] && (Resets(h', broken', j) <==> Resets(h, broken, j))
    {
    }
    if i < n && Stands(h, broken, i) && !Resets(h', broken', n) {
      assert forall j: nat :: i < j < |h'| ==> j == n || !Resets(h, broken, j);
    }
  }

  lemma {:induction false} DeadSnoc(s: Settings, created: Time, h: History, broken: seq<bool>, e: Event, b: bool)
    requires |h| == |broken|
    ensures ReadsDead(s, created, h + [e], broken + [b])
       <==> Kills(s, created, h + [e], broken + [b], |h|)
            || (ReadsDead(s, created, h, broken) && !Revives(e))
  {
    var h', broken' := h + [e], broken + [b];
    assert h'[|h|] == e;
    forall j: nat | j < |h|
      ensures Kills(s, created, h', broken', j) <==> Kills(s, created, h, broken, j)
      ensures h'[j] == h[j]
    {
      assert h'[..j] == h[..j] && broken'[..j] == broken[..j];
    }
    if ReadsDead(s, created, h, broken) && !Revives(e) {
      var i: nat :| i < |h| && Kills(s, created, h, broken, i) && forall j: nat :: i < j < |h| ==> !Revives(h[j]);
      assert Kills(s, created, h', broken', i);
    }
  }

  lemma {:induction false} ReferenceSnoc(created: Time, h: History, e: Event, reference: Time)
    ensures ReadsReference(created, h + [e], reference)
       <==> if Answers(e) then reference == e.at else ReadsReference(created, h, reference)
  {
    var h' := h + [e];
    assert h'[|h|] == e;
    assert forall j :: 0 <= j < |h| ==> h'[j] == h[j];
    if !Answers(e) && ReadsReference(created, h, reference) && exists i :: 0 <= i < |h| && Answers(h[i]) {
      var i :| 0 <= i < |h| && Answers(h[i]) && h[i].at == reference
               && forall j :: i < j < |h| ==> !Answers(h[j]);
      assert Answers(h'[i]);
    }
  }

  /** The row says exactly what the history says. */
  ghost predicate ReadsAs(s: Settings, created: Time, h: History, row: FeedRow) {
    var broken := BrokenBefore(s, created, h);
    && row.failures == |Uncleared(h, broken)|
    && (row.status == Dead <==> ReadsDead(s, created, h, broken))
    && (row.status == Broken <==> ReadsBroken(s, created, h, broken))
    && (forall reference :: ReadsReference(created, h, reference) <==> reference == Reference(row))
    && row.createdAt == created
  }

  lemma {:induction false} ReadingStep(s: Settings, created: Time, h: History, row: FeedRow, e: Event)
    requires s.Defined() && s.brokenThreshold >= 1
    requires Consistent(s, row) && ReadsAs(s, created, h, row)
    ensures ReadsAs(s, created, h + [e], Apply(s, row, e))
  {
    var broken := BrokenBefore(s, created, h);
    var b := ReadsBroken(s, created, h, broken);
    var h' := h + [e];
    assert h'[..|h|] == h && h'[|h|] == e;
    assert BrokenBefore(s, created, h') == broken + [b];
    assert (broken + [b])[..|h|] == broken;
    UnclearedSnoc(h, broken, e, b);
    DeadSnoc(s, created, h, broken, e, b);
    forall reference {
      ReferenceSnoc(created, h, e, reference);
    }
    assert ReadsReference(created, h, Reference(row));
    EventKeepsConsistent(s, row, e);
  }

  /** History characterisation: the counter counts the uncleared failures, the feed is DEAD exactly
      when some failure since the last revival killed it, and BROKEN exactly when it is not DEAD and
      the count has met the threshold. */
  lemma {:induction false} HistoryCharacterisation(s: Settings, url: string, created: Time, h: History)
    requires s.Defined() && s.brokenThreshold >= 1
    ensures ReadsAs(s, created, h, Run(s, Registered(url, created), h))
  {
    if h != [] {
      var n := |h| - 1;
      HistoryCharacterisation(s, url, created, h[..n]);
      LifecycleInvariant(s, url, created, h[..n]);
      ReadingStep(s, created, h[..n], Run(s, Registered(url, created), h[..n]), h[n]);
      assert h[..n] + [h[n]] == h;
    }
  }
}
