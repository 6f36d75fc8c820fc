/** The statements that workers and the API run against the `feeds` table. */
module FeedTables {
  import opened Common
  import opened Models
  import opened Policy
  import opened FeedState
  import opened EntryStore
  import opened Fetch
  import opened Lifecycle
  import opened Semaphore
  import opened Scheduler
  import opened Fleet
  import opened Batches

  class FeedTable {
    var rows: FeedRows
    var nextId: FeedId

    /** Fresh keys and `UNIQUE (url)`. */
    ghost predicate Valid()
      reads this
    {
      && (forall f :: f in rows ==> f < nextId)
      && (forall f, g :: f in rows && g in rows && rows[f].url == rows[g].url ==> f == g)
    }

    /** Claims a batch: the earliest due rows that are not locked, leased in the same statement. */
    method ClaimDueFeeds(s: Settings, now: Time, locked: set<FeedId>) returns (ids: seq<FeedId>)
      requires Valid()
      modifies this`rows
      ensures Valid()
      ensures IsClaim(s, old(rows), now, locked, ids)
      ensures rows == LeaseAll(old(rows), ids, now, now + s.claimTtl)
      ensures forall f :: f in rows <==> f in old(rows)
      ensures forall f :: f in rows && f !in ids ==> rows[f] == old(rows)[f]
      ensures forall f :: f in rows && f in ids ==>
                rows[f] == old(rows)[f].(nextFetchAt := now + s.claimTtl, lastAttempt := Some(now))
    {
      ids := SelectDue(s, rows, now, locked);
      rows := LeaseAll(rows, ids, now, now + s.claimTtl);
    }

    /** The SELECT of a job's session, without a lock. */
    method LoadFeed(id: FeedId) returns (sight: Sight)
      ensures sight == if id in rows then Seen(rows[id]) else Absent
    {
      sight := if id in rows then Seen(rows[id]) else Absent;
    }

    /** The rest of a job, whatever has happened to the row since it was loaded: the attempt works on the
        object as loaded, and the commit writes the columns it changed.  A row deleted in the meantime, or
        an attempt that raises (`outcome` is None), rolls everything back. */
    method CommitFeed(s: Settings, id: FeedId, sight: Sight, entries: EntryTable, now: Time, dbNow: Time,
                      outcome: Option<Outcome>, u: Draw) returns (ok: bool)
      requires Valid() && s.Defined() && EntryStore.Valid(entries.Contents()) && !sight.Unseen?
      modifies this`rows, entries
      ensures Valid() && EntryStore.Valid(entries.Contents())
      ensures rows == if outcome.None? then old(rows)
                      else Committed(s, old(rows), id, sight, now, WeeklyCount(old(entries.Contents()), id, now),
                                     outcome.value, u)
      ensures entries.Contents() ==
                if outcome.Some? && sight.Seen? && id in old(rows)
                then EntriesAfter(s, old(entries.Contents()), id, outcome.value, now, dbNow)
                else old(entries.Contents())
      ensures ok ==
                (|| sight.Absent?
                 || (&& outcome.Some?
                     && (|| id in old(rows)
                         || WritesNothing(s, id, sight.row, old(entries.Contents()), now, outcome.value, u))))
    {
      if sight.Absent? {
        return true;
      }
      if outcome.None? {
        return false;
      }
      if id !in rows {
        return WritesNothing(s, id, sight.row, entries.Contents(), now, outcome.value, u);
      }
      var feed := new Feed(sight.row);
      FetchOne(s, feed, id, entries, now, dbNow, outcome.value, u);
      rows := rows[id := Flushed(rows[id], sight.row, feed.Row())];
      return true;
    }

    /** A job that nobody disturbs: load and commit. */
    method ProcessFeed(s: Settings, id: FeedId, entries: EntryTable, now: Time, dbNow: Time,
                       outcome: Option<Outcome>, u: Draw) returns (ok: bool)
      requires Valid() && s.Defined() && EntryStore.Valid(entries.Contents())
      modifies this`rows, entries
      ensures Valid() && EntryStore.Valid(entries.Contents())
      ensures ok == (id !in old(rows) || outcome.Some?)
      ensures id in old(rows) && outcome.Some? ==>
                && rows == old(rows)[id := AfterPoll(s, old(rows)[id], now,
                                                     WeeklyCount(old(entries.Contents()), id, now), outcome.value, u)]
                && entries.Contents() == EntriesAfter(s, old(entries.Contents()), id, outcome.value, now, dbNow)
      ensures id !in old(rows) || outcome.None? ==>
                rows == old(rows) && entries.Contents() == old(entries.Contents())
    {
      var sight := LoadFeed(id);
      ok := CommitFeed(s, id, sight, entries, now, dbNow, outcome, u);
    }

    /** One scheduler iteration: claim a batch, then process every claimed feed, in the order in which
        the shared semaphore lets the fetches end.  Each claimed feed is served by its own answer, as if it
        had been fetched alone, or left leased if its attempt raised; no other feed is touched.  And it is
        a run of the protocol from any world with this table and no jobs: `end` is where that run leads,
        within the batch time. */
    method TickOnce(s: Settings, entries: EntryTable, locked: set<FeedId>, durations: seq<Time>, got: Got,
                    ghost w: World)
      returns (claimed: nat, processed: nat, fatal: nat, ghost ids: seq<FeedId>, ghost end: World)
      requires Valid() && Runnable(s) && s.fetchBound >= 0.0 && EntryStore.Valid(entries.Contents())
      requires |durations| == s.claimBatch && ForJobs(got, s.claimBatch)
      requires forall i :: 0 <= i < |durations| ==> 0.0 <= durations[i] <= s.fetchBound
      requires w.rows == rows && w.clock == got.now && w.jobs == map[]
      modifies this`rows, entries
      ensures Valid() && EntryStore.Valid(entries.Contents())
      ensures IsClaim(s, old(rows), got.now, locked, ids)
      ensures Served(s, old(rows), old(entries.Contents()), rows, entries.Contents(), ids, got, {})
      ensures claimed == |ids| && processed == |set i: nat | i < |ids| && got.outcomes[i].Some?|
      ensures fatal == claimed - processed
      ensures Reaches(s, w, end) && end.rows == rows && end.jobs == map[]
      ensures got.now <= end.clock <= got.now + BatchTime(s)
    {
      ghost var rows0, t0 := rows, entries.Contents();
      var chosen := ClaimDueFeeds(s, got.now, locked);
      ids, claimed := chosen, |chosen|;
      var lasting := durations[..|chosen|];
      ghost var begun := BatchBegins(s, w, t0, locked, ids, lasting, got);
      processed, fatal, end := ProcessBatch(s, entries, chosen, lasting, got, w, begun, rows0, t0);
    }

    /** The loop of an iteration: ends every job of the batch. */
    method ProcessBatch(s: Settings, entries: EntryTable, ids: seq<FeedId>, durations: seq<Time>, got: Got,
                        ghost w: World, ghost was: World, ghost rows0: FeedRows, ghost t0: Table)
      returns (processed: nat, fatal: nat, ghost end: World)
      requires Valid() && Runnable(s) && EntryStore.Valid(entries.Contents()) && EntryStore.Valid(t0)
      requires ForJobs(got, |ids|) && Distinct(ids) && |durations| == |ids| && w.clock == got.now
      requires Tracks(s, w, was, ids, Schedule(AllFree(s.concurrency, got.now), durations), Below(|ids|))
      requires was.rows == rows && Served(s, rows0, t0, rows, entries.Contents(), ids, got, Below(|ids|))
      modifies this`rows, entries
      ensures Valid() && EntryStore.Valid(entries.Contents())
      ensures Served(s, rows0, t0, rows, entries.Contents(), ids, got, {})
      ensures processed == |set i: nat | i < |ids| && got.outcomes[i].Some?| && processed + fatal == |ids|
      ensures Reaches(s, w, end) && end.rows == rows && end.jobs == map[]
      ensures w.clock <= end.clock <= w.clock + BatchTime(s)
    {
      var spans := Schedule(AllFree(s.concurrency, got.now), durations);
      var rest: set<nat> := Below(|ids|);
      processed, fatal, end := 0, 0, was;
      while rest != {}
        invariant Valid() && EntryStore.Valid(entries.Contents())
        invariant (forall i :: i in rest ==> i < |ids|) && processed + fatal + |rest| == |ids|
        invariant processed + |WithAnswer(got, rest)| == |WithAnswer(got, Below(|ids|))|
        invariant Tracks(s, w, end, ids, spans, rest) && end.rows == rows
        invariant Served(s, rows0, t0, rows, entries.Contents(), ids, got, rest)
        decreases |rest|
      {
        var i := EndsFirst(spans, rest);
        var ok;
        ok, end := EndJob(s, entries, ids, spans, rest, i, got, w, end, rows0, t0);
        OneLessAnswer(got, rest, i);
        if ok {
          processed := processed + 1;
        } else {
          fatal := fatal + 1;
        }
        rest := rest - {i};
      }
      NobodyLeft(s, w, end, ids, spans);
      AllAnswers(got, |ids|);
    }

    /** Processes the job that ends first, as a step of the protocol that serves its feed. */
    method EndJob(s: Settings, entries: EntryTable, ids: seq<FeedId>, spans: seq<Span>, rest: set<nat>, i: nat,
                  got: Got, ghost w: World, ghost was: World, ghost rows0: FeedRows, ghost t0: Table)
      returns (ok: bool, ghost end: World)
      requires Valid() && Runnable(s) && EntryStore.Valid(entries.Contents()) && EntryStore.Valid(t0)
      requires ForJobs(got, |ids|) && Distinct(ids)
      requires Tracks(s, w, was, ids, spans, rest) && was.rows == rows && w.clock == got.now
      requires i in rest && i < |ids| && forall j :: j in rest ==> j < |ids| && spans[i].finish <= spans[j].finish
      requires Served(s, rows0, t0, rows, entries.Contents(), ids, got, rest)
      modifies this`rows, entries
      ensures Valid() && EntryStore.Valid(entries.Contents())
      ensures Tracks(s, w, end, ids, spans, rest - {i}) && end.rows == rows
      ensures Served(s, rows0, t0, rows, entries.Contents(), ids, got, rest - {i})
      ensures ok == got.outcomes[i].Some?
    {
      ghost var t := entries.Contents();
      assert ids[i] in rows;
      if got.outcomes[i].Some? {
        OneServed(s, rows0, t0, rows, t, ids, got, rest, i);
      } else {
        OneRaised(s, rows0, t0, rows, t, ids, got, rest, i);
      }
      end := JobEnds(s, w, was, ids, spans, rest, i, WeeklyCount(t, ids[i], got.now), got.outcomes[i], got.draws[i]);
      ok := ProcessFeed(s, ids[i], entries, got.now, got.stamps[i], got.outcomes[i], got.draws[i]);
    }

    /** `INSERT ... ON CONFLICT (url) DO NOTHING`, then the row with that URL. */
    method CreateFeed(url: string, now: Time) returns (id: FeedId, created: bool)
      requires Valid()
      modifies this
      ensures Valid()
      ensures id in rows && rows[id].url == url
      ensures created <==> !UrlTaken(old(rows), url)
      ensures created ==> id == old(nextId) && rows == old(rows)[id := Registered(url, now)]
      ensures created ==>
                rows[id] == FeedRow(url, url, None, Active, None, None, None, now, now, 0, None, None)
      ensures !created ==> rows == old(rows)
    {
      if f :| f in rows && rows[f].url == url {
        nextId := nextId + 1;
        return f, false;
      }
      id, created := nextId, true;
      rows := rows[id := Registered(url, now)];
      nextId := nextId + 1;
    }

    /** Deletes the row if there is one, and by cascade its entries; nothing else. */
    method DeleteFeed(id: FeedId, entries: EntryTable)
      requires Valid() && EntryStore.Valid(entries.Contents())
      modifies this`rows, entries`rows
      ensures Valid() && EntryStore.Valid(entries.Contents())
      ensures rows == old(rows) - {id}
      ensures forall e :: e in entries.rows <==>
                e in old(entries.rows) && (id in old(rows) ==> old(entries.rows)[e].feedId != id)
      ensures forall e :: e in entries.rows ==> entries.rows[e] == old(entries.rows)[e]
    {
      if id in rows {
        rows := rows - {id};
        entries.rows := map e | e in entries.rows && entries.rows[e].feedId != id :: entries.rows[e];
      }
    }

    /** False is the 404. */
    method ReactivateFeed(id: FeedId, now: Time) returns (found: bool)
      requires Valid()
      modifies this`rows
      ensures Valid()
      ensures found == (id in old(rows))
      ensures rows == if found then old(rows)[id := Reactivation(old(rows)[id], now)] else old(rows)
      ensures found ==>
                rows[id] == old(rows)[id].(status := Active, failures := 0, errorCode := None, nextFetchAt := now)
    {
      if id !in rows {
        return false;
      }
      var feed := new Feed(rows[id]);
      feed.status := Active;
      feed.failures := 0;
      feed.errorCode := None;
      feed.nextFetchAt := now;
      rows := rows[id := feed.Row()];
      return true;
    }
  }

  /** Due now, or dead with no attempt within the probe interval. */
  predicate IsDue(s: Settings, row: FeedRow, now: Time) {
    || (row.status in {Active, Broken} && now >= row.nextFetchAt)
    || (row.status == Dead && (row.lastAttempt.Some? ==> now - row.lastAttempt.value > s.probeInterval))
  }

  lemma {:induction false} DueIsEligible(s: Settings, row: FeedRow, now: Time)
    ensures Eligible(s, row, now) <==> IsDue(s, row, now)
  {
  }

  /** The sub-select of the claim: earliest due first, up to the batch size. */
  method SelectDue(s: Settings, rows: FeedRows, now: Time, locked: set<FeedId>) returns (ids: seq<FeedId>)
    ensures IsClaim(s, rows, now, locked, ids)
    ensures forall f :: f in ids ==> f in rows && f !in locked && IsDue(s, rows[f], now)
    ensures |ids| < s.claimBatch ==> forall f :: f in rows && f !in locked && IsDue(s, rows[f], now) ==> f in ids
  {
    forall f | f in rows {
      DueIsEligible(s, rows[f], now);
    }
    var rest := set f | f in rows && Claimable(s, rows, now, locked, f);
    ids := [];
    while rest != {} && |ids| < s.claimBatch
      invariant Distinct(ids) && |ids| <= s.claimBatch
      invariant forall f :: f in ids ==> f !in rest && Claimable(s, rows, now, locked, f)
      invariant forall f :: Claimable(s, rows, now, locked, f) ==> f in ids || f in rest
      invariant forall f :: f in rest ==> Claimable(s, rows, now, locked, f)
      invariant forall f, g :: f in ids && g in rest ==> rows[f].nextFetchAt <= rows[g].nextFetchAt
      decreases |rest|
    {
      var due := map f | f in rest :: rows[f].nextFetchAt;
      assert due.Keys == rest;
      var f := Least(due);
      assert forall g :: g in rest ==> due[f] <= due[g];
      ids, rest := ids + [f], rest - {f};
    }
  }

  function Below(n: nat): (indices: set<nat>)
    ensures |indices| == n && forall i: nat :: i in indices <==> i < n
  {
    if n == 0 then {} else Below(n - 1) + {n - 1}
  }

  lemma {:induction false} OneLessAnswer(got: Got, rest: set<nat>, i: nat)
    requires i in rest && i < |got.outcomes|
    ensures |WithAnswer(got, rest)| == |WithAnswer(got, rest - {i})| + if got.outcomes[i].Some? then 1 else 0
  {
    if got.outcomes[i].Some? {
      assert WithAnswer(got, rest) == WithAnswer(got, rest - {i}) + {i};
    } else {
      assert WithAnswer(got, rest) == WithAnswer(got, rest - {i});
    }
  }

  lemma {:induction false} AllAnswers(got: Got, n: nat)
    requires ForJobs(got, n)
    ensures WithAnswer(got, Below(n)) == set i: nat | i < n && got.outcomes[i].Some?
    ensures WithAnswer(got, {}) == {}
  {
  }

  /** The world reached from `w` by claiming `ids` and ending all jobs but those of `rest`, each when
      its span is over. */
  ghost predicate Tracks(s: Settings, w: World, end: World, ids: seq<FeedId>, spans: seq<Span>, rest: set<nat>)
    requires Runnable(s)
  {
    && Reaches(s, w, end)
    && |spans| == |ids|
    && w.clock <= end.clock <= w.clock + BatchTime(s)
    && (forall j: nat :: j in end.jobs <==> w.nextJob <= j < w.nextJob + |ids| && j - w.nextJob in rest)
    && (forall j :: j in end.jobs ==> JobOf(w, ids, spans, j, end.jobs[j]))
    && (forall j :: j in end.jobs ==> end.clock <= end.jobs[j].deadline <= w.clock + BatchTime(s))
  }

  predicate JobOf(w: World, ids: seq<FeedId>, spans: seq<Span>, j: nat, job: Job) {
    && w.nextJob <= j < w.nextJob + |ids| && |spans| == |ids|
    && job == NewJob(0, ids[j - w.nextJob], w.clock, spans[j - w.nextJob])
    && job.opens <= job.deadline
  }

  lemma {:induction false} ClaimRun(s: Settings, w: World, locked: set<FeedId>, ids: seq<FeedId>, durations: seq<Time>)
    returns (end: World)
    requires Runnable(s) && s.fetchBound >= 0.0 && w.jobs == map[]
    requires IsClaim(s, w.rows, w.clock, locked, ids) && |durations| == |ids|
    requires forall i :: 0 <= i < |durations| ==> 0.0 <= durations[i] <= s.fetchBound
    ensures Tracks(s, w, end, ids, Schedule(AllFree(s.concurrency, w.clock), durations), Below(|ids|))
    ensures end.rows == LeaseAll(w.rows, ids, w.clock, w.clock + s.claimTtl)
  {
    var step := Claim(0, locked, ids, durations);
    FirstStep(s, w, step);
    end := Next(s, w, step);
    ClaimedJobs(s, w, ids, durations);
    TimesGrows(0, CeilDiv(s.claimBatch, s.concurrency), s.fetchBound);
  }

  /** A batch that has just been claimed: all jobs are left, and nobody is served. */
  lemma {:induction false} BatchBegins(s: Settings, w: World, t0: Table, locked: set<FeedId>, ids: seq<FeedId>,
                                       durations: seq<Time>, got: Got) returns (begun: World)
    requires Runnable(s) && s.fetchBound >= 0.0 && w.jobs == map[] && w.clock == got.now && ForJobs(got, |ids|)
    requires IsClaim(s, w.rows, w.clock, locked, ids) && |durations| == |ids|
    requires forall i :: 0 <= i < |durations| ==> 0.0 <= durations[i] <= s.fetchBound
    ensures Distinct(ids) && begun.rows == LeaseAll(w.rows, ids, got.now, got.now + s.claimTtl)
    ensures Tracks(s, w, begun, ids, Schedule(AllFree(s.concurrency, got.now), durations), Below(|ids|))
    ensures Served(s, w.rows, t0, begun.rows, t0, ids, got, Below(|ids|))
  {
    begun := ClaimRun(s, w, locked, ids, durations);
    assert forall f :: f in ids ==> Claimable(s, w.rows, w.clock, locked, f);
    NobodyServed(s, w.rows, t0, ids, got, Below(|ids|));
  }

  lemma {:induction false} ClaimedJobs(s: Settings, w: World, ids: seq<FeedId>, durations: seq<Time>)
    requires Runnable(s) && s.fetchBound >= 0.0 && |durations| == |ids| <= s.claimBatch
    requires forall i :: 0 <= i < |durations| ==> 0.0 <= durations[i] <= s.fetchBound
    ensures
      var jobs := NewJobs(s, w, 0, ids, durations);
      var spans := Schedule(AllFree(s.concurrency, w.clock), durations);
      && (forall j: nat :: j in jobs <==> w.nextJob <= j < w.nextJob + |ids|)
      && (forall j :: j in jobs ==> JobOf(w, ids, spans, j, jobs[j]))
      && (forall j :: j in jobs ==> w.clock <= jobs[j].deadline <= w.clock + BatchTime(s))
  {
    var jobs := NewJobs(s, w, 0, ids, durations);
    forall j | j in jobs
      ensures w.clock <= jobs[j].deadline <= w.clock + BatchTime(s)
    {
      ClaimDeadlines(s, w, durations, j - w.nextJob);
    }
    forall i | 0 <= i < |ids|
      ensures
        var span := Schedule(AllFree(s.concurrency, w.clock), durations)[i];
        span.start <= span.finish
    {
      SpansFit(AllFree(s.concurrency, w.clock), durations, i);
    }
  }

  lemma {:induction false} NobodyLeft(s: Settings, w: World, end: World, ids: seq<FeedId>, spans: seq<Span>)
    requires Runnable(s) && Tracks(s, w, end, ids, spans, {})
    ensures end.jobs == map[]
  {
  }

  /** The attempt leaves the object as loaded and inserts no entry. */
  predicate WritesNothing(s: Settings, id: FeedId, row: FeedRow, t: Table, now: Time, outcome: Outcome, u: Draw)
    requires s.Defined()
  {
    && AfterPoll(s, row, now, WeeklyCount(t, id, now), outcome, u) == row
    && (outcome.Fetched? ==> Capped(s, t, id, outcome.entries) == [])
  }

  /** The job that ends first ends: time passes up to its deadline, and it loads its feed and commits, or
      rolls back. */
  lemma {:induction false} JobEnds(s: Settings, w: World, was: World, ids: seq<FeedId>, spans: seq<Span>,
                                   rest: set<nat>, i: nat, weekly: nat, outcome: Option<Outcome>, u: Draw)
    returns (end: World)
    requires Runnable(s) && Tracks(s, w, was, ids, spans, rest)
    requires i in rest && i < |ids| && forall j :: j in rest ==> j < |ids| && spans[i].finish <= spans[j].finish
    ensures Tracks(s, w, end, ids, spans, rest - {i})
    ensures end.rows ==
              if ids[i] in was.rows && outcome.Some?
              then was.rows[ids[i] := AfterPoll(s, was.rows[ids[i]], w.clock, weekly, outcome.value, u)]
              else was.rows
  {
    var job := w.nextJob + i;
    assert job in was.jobs && JobOf(w, ids, spans, job, was.jobs[job]);
    forall j | j in was.jobs
      ensures spans[i].finish <= was.jobs[j].deadline
    {
      assert JobOf(w, ids, spans, j, was.jobs[j]);
    }
    var over := was.(clock := spans[i].finish);
    WaitUntil(s, w, was, spans[i].finish);
    end := JobStep(s, w, over, job, weekly, outcome, u);
  }

  method EndsFirst(spans: seq<Span>, rest: set<nat>) returns (i: nat)
    requires rest != {} && forall i :: i in rest ==> i < |spans|
    ensures i in rest && forall j :: j in rest ==> spans[i].finish <= spans[j].finish
  {
    var ends := map i | i in rest :: spans[i].finish;
    assert ends.Keys == rest;
    i := Least(ends);
    assert forall j :: j in rest ==> ends[i] <= ends[j];
  }

  /** A key whose value is least. */
  method Least(key: map<nat, Time>) returns (i: nat)
    requires key != map[]
    ensures i in key && forall j :: j in key ==> key[i] <= key[j]
  {
    SomeLeast(key, key.Keys);
    i :| i in key.Keys && forall j :: j in key.Keys ==> key[i] <= key[j];
  }

  lemma {:induction false} SomeLeast(key: map<nat, Time>, ids: set<nat>)
    requires ids != {} && ids <= key.Keys
    ensures exists i :: i in ids && forall j :: j in ids ==> key[i] <= key[j]
  {
    var i :| i in ids;
    var others := ids - {i};
    if others == {} {
      assert ids == {i};
    } else {
      SomeLeast(key, others);
      var e :| e in others && forall j :: j in others ==> key[e] <= key[j];
      var least := if key[i] <= key[e] then i else e;
      forall j | j in ids
        ensures key[least] <= key[j]
      {
        assert j == i || j in others;
      }
    }
  }
}
