/** `asyncio.gather` over jobs that share a FIFO semaphore: who runs when. */
module Semaphore {
  import opened Common

  /** The stay of one job inside the semaphore. */
  datatype Span = Span(slot: nat, start: Time, finish: Time)

  /** The slot that frees up first. */
  function Earliest(free: seq<Time>): (i: nat)
    requires free != []
    ensures i < |free| && forall j :: 0 <= j < |free| ==> free[i] <= free[j]
  {
    if |free| == 1 then 0
    else
      var n := |free| - 1;
      var i := Earliest(free[..n]);
      assert forall j :: 0 <= j < n ==> free[..n][j] == free[j];
      if free[n] < free[i] then n else i
  }

  /** The next job takes the earliest slot as soon as it is free. */
  function FirstSpan(free: seq<Time>, d: Time): Span
    requires free != []
  {
    var i := Earliest(free);
    Span(i, free[i], free[i] + d)
  }

  /** The free times once the next job has taken its slot. */
  function Taken(free: seq<Time>, d: Time): (free': seq<Time>)
    requires free != []
    ensures |free'| == |free|
  {
    var i := Earliest(free);
    free[i := free[i] + d]
  }

  /** Jobs enter in order, each as soon as a slot is free. */
  function Schedule(free: seq<Time>, durations: seq<Time>): (spans: seq<Span>)
    requires free != []
    ensures |spans| == |durations|
    decreases |durations|
  {
    if durations == [] then []
    else
      [FirstSpan(free, durations[0])] + Schedule(Taken(free, durations[0]), durations[1..])
  }

  function AllFree(slots: nat, at: Time): seq<Time> {
    seq(slots, i => at)
  }

  predicate NonNegative(durations: seq<Time>) {
    forall i :: 0 <= i < |durations| ==> durations[i] >= 0.0
  }

  // ---- It is a semaphore ----

  /** The span lies in a slot, after that slot came free. */
  predicate Fits(free: seq<Time>, span: Span) {
    span.slot < |free| && free[span.slot] <= span.start <= span.finish
  }

  predicate InTurn(a: Span, b: Span) {
    a.start <= b.start && (a.slot == b.slot ==> a.finish <= b.start)
  }

  lemma {:induction false} SpansFit(free: seq<Time>, durations: seq<Time>, k: nat)
    requires free != [] && NonNegative(durations) && k < |durations|
    ensures Fits(free, Schedule(free, durations)[k])
    decreases |durations|
  {
    if k > 0 {
      SpansFit(Taken(free, durations[0]), durations[1..], k - 1);
    }
  }

  lemma {:induction false} SpansInTurn(free: seq<Time>, durations: seq<Time>, i: nat, j: nat)
    requires free != [] && NonNegative(durations) && i < j < |durations|
    ensures InTurn(Schedule(free, durations)[i], Schedule(free, durations)[j])
    decreases |durations|
  {
    if i > 0 {
      SpansInTurn(Taken(free, durations[0]), durations[1..], i - 1, j - 1);
    } else {
      SpansFit(Taken(free, durations[0]), durations[1..], j - 1);
    }
  }

  ghost function RunningAt(spans: seq<Span>, t: Time): set<nat> {
    set i: nat | i < |spans| && spans[i].start <= t < spans[i].finish
  }

  /** At no instant do more jobs run than there are slots; jobs start in list order and take turns in
      a slot. */
  lemma {:induction false} NeverTooMany(free: seq<Time>, durations: seq<Time>, t: Time)
    requires free != [] && NonNegative(durations)
    ensures |RunningAt(Schedule(free, durations), t)| <= |free|
    ensures
      var spans := Schedule(free, durations);
      forall i, j :: 0 <= i < j < |spans| ==> InTurn(spans[i], spans[j])
  {
    var spans := Schedule(free, durations);
    forall i | 0 <= i < |spans|
      ensures Fits(free, spans[i])
    {
      SpansFit(free, durations, i);
    }
    forall i, j | 0 <= i < j < |spans|
      ensures InTurn(spans[i], spans[j])
    {
      SpansInTurn(free, durations, i, j);
    }
    Pigeonhole(RunningAt(spans, t), spans, |free|);
  }

  lemma {:induction false} Pigeonhole(jobs: set<nat>, spans: seq<Span>, slots: nat)
    requires forall i :: i in jobs ==> i < |spans| && spans[i].slot < slots
    requires forall i, j :: i in jobs && j in jobs && spans[i].slot == spans[j].slot ==> i == j
    ensures |jobs| <= slots
  {
    if slots == 0 {
      assert jobs == {};
    } else if i :| i in jobs && spans[i].slot == slots - 1 {
      Pigeonhole(jobs - {i}, spans, slots - 1);
    } else {
      Pigeonhole(jobs, spans, slots - 1);
    }
  }

  // ---- How long it takes ----

  function Times(n: nat, bound: Time): Time {
    if n == 0 then 0.0 else Times(n - 1, bound) + bound
  }

  lemma {:induction false} TimesIsProduct(n: nat, bound: Time)
    ensures Times(n, bound) == n as real * bound
  {
    if n > 0 {
      TimesIsProduct(n - 1, bound);
      assert n as real * bound == (n - 1) as real * bound + bound;
    }
  }

  lemma {:induction false} TimesGrows(m: nat, n: nat, bound: Time)
    requires m <= n && bound >= 0.0
    ensures Times(m, bound) <= Times(n, bound)
  {
    if m < n {
      TimesGrows(m, n - 1, bound);
    }
  }

  ghost function FreeBy(free: seq<Time>, level: Time): set<nat> {
    set i: nat | i < |free| && free[i] <= level
  }

  lemma {:induction false} AllFreeBy(free: seq<Time>, level: Time)
    requires forall i :: 0 <= i < |free| ==> free[i] <= level
    ensures |FreeBy(free, level)| == |free|
  {
    if free != [] {
      var n := |free| - 1;
      AllFreeBy(free[..n], level);
      assert FreeBy(free, level) == FreeBy(free[..n], level) + {n};
    }
  }

  /** Taking the earliest slot costs at most one of the slots free by `level`. */
  lemma {:induction false} TakeSlot(free: seq<Time>, d: Time, level: Time)
    requires free != [] && |FreeBy(free, level)| >= 1
    ensures
      var i := Earliest(free);
      && free[i] <= level
      && |FreeBy(Taken(free, d), level)| >= |FreeBy(free, level)| - 1
  {
    var i := Earliest(free);
    var had, has := FreeBy(free, level), FreeBy(Taken(free, d), level);
    var j :| j in had;
    assert free[i] <= free[j];
    assert has == (had - {i}) + (has - (had - {i}));
  }

  /** `(r + k) / c`, counted: how many rounds of `c` lie before job `k` when `r` have been let in. */
  function Rounds(r: nat, k: nat, c: nat): nat
    requires r < c
    decreases k
  {
    if k == 0 then 0 else if r + 1 < c then Rounds(r + 1, k - 1, c) else 1 + Rounds(0, k - 1, c)
  }

  lemma {:induction false} RoundsIsDiv(r: nat, k: nat, c: nat)
    requires r < c
    ensures Rounds(r, k, c) == (r + k) / c
    decreases k
  {
    if k == 0 {
      DivUnique(r, c, 0, r);
    } else if r + 1 < c {
      RoundsIsDiv(r + 1, k - 1, c);
    } else {
      RoundsIsDiv(0, k - 1, c);
      var q := (k - 1) / c;
      assert (q + 1) * c == q * c + c;
      DivUnique(r + k, c, q + 1, (k - 1) % c);
    }
  }

  /** With every job at most `bound` long: when `r` of the slots may be busy past `level` and none
      past `level + bound`, job `k` from here starts within that many rounds of `level`. */
  lemma {:induction false} StartsBy(free: seq<Time>, durations: seq<Time>, bound: Time, level: Time, r: nat, k: nat)
    requires forall i :: 0 <= i < |durations| ==> 0.0 <= durations[i] <= bound
    requires k < |durations| && r < |free|
    requires |FreeBy(free, level)| >= |free| - r
    requires forall i :: 0 <= i < |free| ==> free[i] <= level + bound
    ensures Schedule(free, durations)[k].start <= level + Times(Rounds(r, k, |free|), bound)
    ensures Schedule(free, durations)[k].finish <= level + Times(Rounds(r, k, |free|), bound) + bound
    decreases |durations|
  {
    TakeSlot(free, durations[0], level);
    var free', rest := Taken(free, durations[0]), durations[1..];
    if k > 0 {
      assert Schedule(free, durations)[k] == Schedule(free', rest)[k - 1];
      if r + 1 < |free| {
        StartsBy(free', rest, bound, level, r + 1, k - 1);
      } else {
        AllFreeBy(free', level + bound);
        StartsBy(free', rest, bound, level + bound, 0, k - 1);
      }
    }
  }

  /** Makespan: from an idle semaphore of `slots`, job `i` starts by `floor(i / slots) * bound`, and
      a batch of `n` is over by `ceil(n / slots) * bound`. */
  lemma {:induction false} Makespan(slots: nat, at: Time, durations: seq<Time>, bound: Time)
    requires slots >= 1 && bound >= 0.0
    requires forall i :: 0 <= i < |durations| ==> 0.0 <= durations[i] <= bound
    ensures
      var spans := Schedule(AllFree(slots, at), durations);
      forall i :: 0 <= i < |spans| ==>
        && spans[i].start <= at + Times(i / slots, bound)
        && spans[i].finish <= at + Times(CeilDiv(|durations|, slots), bound)
  {
    var free := AllFree(slots, at);
    AllFreeBy(free, at);
    forall i | 0 <= i < |durations|
      ensures Schedule(free, durations)[i].start <= at + Times(i / slots, bound)
      ensures Schedule(free, durations)[i].finish <= at + Times(CeilDiv(|durations|, slots), bound)
    {
      StartsBy(free, durations, bound, at, 0, i);
      RoundsIsDiv(0, i, slots);
      RoundsEnough(i, |durations|, slots);
      TimesGrows(i / slots + 1, CeilDiv(|durations|, slots), bound);
    }
  }

  lemma {:induction false} RoundsEnough(i: nat, n: nat, slots: nat)
    requires slots >= 1 && i < n
    ensures i / slots + 1 <= CeilDiv(n, slots)
  {
    CeilDivLeast(n, slots, i / slots);
    assert i == i / slots * slots + i % slots;
  }
}
