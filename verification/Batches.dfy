/** What a whole batch of jobs leaves of each of its feeds. */
module Batches {
  import opened Common
  import opened Models
  import opened Policy
  import opened EntryStore
  import opened Fetch
  import opened Scheduler

  /** The entries of one feed. */
  function EntriesOf(t: Table, feed: FeedId): map<EntryId, EntryRow> {
    map id | id in t.rows && t.rows[id].feedId == feed :: t.rows[id]
  }

  // ---- A fetch sees and touches the entries of its own feed only ----

  lemma {:induction false} OthersKept(s: Settings, t: Table, feed: FeedId, o: Outcome, now: Time, dbNow: Time,
                                      other: FeedId)
    requires Valid(t) && other != feed
    ensures EntriesOf(EntriesAfter(s, t, feed, o, now, dbNow), other) == EntriesOf(t, other)
  {
    if o.Fetched? {
      UpsertKeepsOthers(t, feed, Capped(s, t, feed, o.entries), now, dbNow, other);
    }
  }

  lemma {:induction false} UpsertKeepsOthers(t: Table, feed: FeedId, es: seq<ParsedEntry>, now: Time, dbNow: Time,
                                             other: FeedId)
    requires Valid(t) && other != feed
    ensures EntriesOf(UpsertAll(t, feed, es, now, dbNow), other) == EntriesOf(t, other)
  {
    UpsertFold(t, feed, es, now, dbNow);
    FoldedKeepsOthers(t, UpsertAll(t, feed, es, now, dbNow), feed, es, now, dbNow, other);
  }

  lemma {:induction false} FoldedKeepsOthers(t: Table, t': Table, feed: FeedId, es: seq<ParsedEntry>, now: Time,
                                             dbNow: Time, other: FeedId)
    requires Folded(t, t', feed, es, now, dbNow) && other != feed
    ensures EntriesOf(t', other) == EntriesOf(t, other)
  {
  }

  lemma {:induction false} SameCount(a: Table, b: Table, feed: FeedId, now: Time)
    requires EntriesOf(a, feed) == EntriesOf(b, feed)
    ensures WeeklyCount(a, feed, now) == WeeklyCount(b, feed, now)
  {
    forall id
      ensures id in Recent(a, feed, now) <==> id in Recent(b, feed, now)
    {
      assert id in EntriesOf(a, feed) <==> id in EntriesOf(b, feed);
    }
    assert Recent(a, feed, now) == Recent(b, feed, now);
  }

  lemma {:induction false} SameGuids(a: Table, b: Table, feed: FeedId, guid: string)
    requires EntriesOf(a, feed) == EntriesOf(b, feed)
    ensures Has(a, feed, guid) ==> Has(b, feed, guid)
    ensures HasAny(a, feed) ==> HasAny(b, feed)
  {
    assert forall id :: id in EntriesOf(a, feed) <==> id in EntriesOf(b, feed);
    if Has(a, feed, guid) {
      var id := IdOf(a, feed, guid);
      assert id in EntriesOf(a, feed) && EntriesOf(a, feed)[id] == EntriesOf(b, feed)[id];
      assert Holds(b, id, feed, guid);
    }
    if HasAny(a, feed) {
      var id :| id in a.rows && a.rows[id].feedId == feed;
      assert id in EntriesOf(a, feed);
    }
  }

  /** Equal entries of the feed before make equal entries after, but for the keys of new ones. */
  lemma {:induction false} SameAfter(s: Settings, a: Table, b: Table, feed: FeedId, o: Outcome, now: Time, dbNow: Time)
    requires Valid(a) && Valid(b) && EntriesOf(a, feed) == EntriesOf(b, feed)
    ensures EntriesOf(EntriesAfter(s, a, feed, o, now, dbNow), feed).Values
         == EntriesOf(EntriesAfter(s, b, feed, o, now, dbNow), feed).Values
  {
    if o.Fetched? {
      SameGuids(a, b, feed, "");
      SameGuids(b, a, feed, "");
      var es := Capped(s, a, feed, o.entries);
      SubAfter(a, b, feed, es, now, dbNow);
      SubAfter(b, a, feed, es, now, dbNow);
    }
  }

  lemma {:induction false} SubAfter(a: Table, b: Table, feed: FeedId, es: seq<ParsedEntry>, now: Time, dbNow: Time)
    requires Valid(a) && Valid(b) && EntriesOf(a, feed) == EntriesOf(b, feed)
    ensures EntriesOf(UpsertAll(a, feed, es, now, dbNow), feed).Values
         <= EntriesOf(UpsertAll(b, feed, es, now, dbNow), feed).Values
  {
    var a', b' := UpsertAll(a, feed, es, now, dbNow), UpsertAll(b, feed, es, now, dbNow);
    UpsertFold(a, feed, es, now, dbNow);
    UpsertFold(b, feed, es, now, dbNow);
    forall id | id in EntriesOf(a', feed)
      ensures a'.rows[id] in EntriesOf(b', feed).Values
    {
      var there := Counterpart(a, b, a', b', feed, es, now, dbNow, id);
      assert EntriesOf(b', feed)[there] == a'.rows[id];
    }
  }

  lemma {:induction false} Counterpart(a: Table, b: Table, a': Table, b': Table, feed: FeedId, es: seq<ParsedEntry>,
                                       now: Time, dbNow: Time, id: EntryId) returns (there: EntryId)
    requires EntriesOf(a, feed) == EntriesOf(b, feed)
    requires Folded(a, a', feed, es, now, dbNow) && Folded(b, b', feed, es, now, dbNow)
    requires id in a'.rows && a'.rows[id].feedId == feed
    ensures there in b'.rows && b'.rows[there] == a'.rows[id]
  {
    if id in a.rows {
      assert a'.rows[id] == Settled(a.rows[id], feed, es, dbNow);
      assert id in EntriesOf(a, feed) && EntriesOf(a, feed)[id] == EntriesOf(b, feed)[id];
      there := id;
    } else {
      there := NewCounterpart(a, b, b', feed, es, now, dbNow, a'.rows[id]);
    }
  }

  lemma {:induction false} NewCounterpart(a: Table, b: Table, b': Table, feed: FeedId, es: seq<ParsedEntry>,
                                          now: Time, dbNow: Time, row: EntryRow) returns (there: EntryId)
    requires EntriesOf(a, feed) == EntriesOf(b, feed) && Folded(b, b', feed, es, now, dbNow)
    requires Inserted(row, feed, es, now, dbNow) && !Has(a, feed, row.guid)
    ensures there in b'.rows && b'.rows[there] == row
  {
    SameGuids(b, a, feed, row.guid);
    var k :| 0 <= k < |es| && es[k].guid == row.guid;
    assert Has(b', feed, es[k].guid);
    there := IdOf(b', feed, row.guid);
    assert Holds(b', there, feed, row.guid);
    if there in b.rows {
      assert b'.rows[there] == Settled(b.rows[there], feed, es, dbNow);
      assert Holds(b, there, feed, row.guid);
    }
  }

  // ---- A batch, feed by feed ----

  /** What a batch got: per job, the answer (None if the attempt raised), the draw and the database clock. */
  datatype Got = Got(now: Time, outcomes: seq<Option<Outcome>>, draws: seq<Draw>, stamps: seq<Time>)

  predicate ForJobs(got: Got, n: nat) {
    n <= |got.outcomes| && |got.outcomes| == |got.draws| == |got.stamps|
  }

  /** Job `i` has ended with an answer. */
  predicate Answered(got: Got, rest: set<nat>, i: nat)
    requires i < |got.outcomes|
  {
    i !in rest && got.outcomes[i].Some?
  }

  /** The row of the feed of job `i`: leased, and then as its own answer calls for. */
  ghost predicate RowServed(s: Settings, was: FeedRow, row: FeedRow, t: Table, f: FeedId, got: Got, rest: set<nat>,
                            i: nat)
    requires s.Defined() && i < |got.outcomes| && ForJobs(got, i)
  {
    var leased := was.(nextFetchAt := got.now + s.claimTtl, lastAttempt := Some(got.now));
    row == if Answered(got, rest, i)
           then AfterPoll(s, leased, got.now, WeeklyCount(t, f, got.now), got.outcomes[i].value, got.draws[i])
           else leased
  }

  /** The entries of the feed of job `i`: those of its own answer, as if it had been fetched alone. */
  ghost predicate EntriesServed(s: Settings, was: Table, t: Table, f: FeedId, got: Got, rest: set<nat>, i: nat)
    requires i < |got.outcomes| && ForJobs(got, i)
  {
    if Answered(got, rest, i)
    then EntriesOf(t, f).Values
         == EntriesOf(EntriesAfter(s, was, f, got.outcomes[i].value, got.now, got.stamps[i]), f).Values
    else EntriesOf(t, f) == EntriesOf(was, f)
  }

  /** The batch `ids`, claimed from the tables `rows0` and `t0`, has ended but for the jobs in `rest`. */
  ghost predicate Served(s: Settings, rows0: FeedRows, t0: Table, rows: FeedRows, t: Table, ids: seq<FeedId>,
                         got: Got, rest: set<nat>)
    requires s.Defined() && ForJobs(got, |ids|)
  {
    && rows.Keys == rows0.Keys
    && (forall f :: f in rows0 && f !in ids ==> rows[f] == rows0[f])
    && (forall f :: f !in ids ==> EntriesOf(t, f) == EntriesOf(t0, f))
    && (forall i: nat :: i < |ids| ==>
          ids[i] in rows0 && RowServed(s, rows0[ids[i]], rows[ids[i]], t0, ids[i], got, rest, i))
    && (forall i: nat :: i < |ids| ==> EntriesServed(s, t0, t, ids[i], got, rest, i))
  }

  /** When no job is left: every feed of the batch has its own answer, or is leased; every other feed has
      what it had. */
  lemma {:induction false} BatchServed(s: Settings, rows0: FeedRows, t0: Table, rows: FeedRows, t: Table,
                                       ids: seq<FeedId>, got: Got, i: nat)
    requires s.Defined() && ForJobs(got, |ids|) && Served(s, rows0, t0, rows, t, ids, got, {}) && i < |ids|
    ensures ids[i] in rows0 && ids[i] in rows
    ensures
      var leased := rows0[ids[i]].(nextFetchAt := got.now + s.claimTtl, lastAttempt := Some(got.now));
      var weekly := WeeklyCount(t0, ids[i], got.now);
      match got.outcomes[i]
      case None => rows[ids[i]] == leased && EntriesOf(t, ids[i]) == EntriesOf(t0, ids[i])
      case Some(o) =>
        && rows[ids[i]] == AfterPoll(s, leased, got.now, weekly, o, got.draws[i])
        && EntriesOf(t, ids[i]).Values
           == EntriesOf(EntriesAfter(s, t0, ids[i], o, got.now, got.stamps[i]), ids[i]).Values
  {
    assert RowServed(s, rows0[ids[i]], rows[ids[i]], t0, ids[i], got, {}, i);
    assert EntriesServed(s, t0, t, ids[i], got, {}, i);
  }

  /** The jobs of `todo` that get an answer. */
  function WithAnswer(got: Got, todo: set<nat>): set<nat> {
    set i | i in todo && i < |got.outcomes| && got.outcomes[i].Some?
  }

  lemma {:induction false} NobodyServed(s: Settings, rows0: FeedRows, t0: Table, ids: seq<FeedId>, got: Got,
                                        rest: set<nat>)
    requires s.Defined() && ForJobs(got, |ids|)
    requires (forall f :: f in ids ==> f in rows0) && forall i: nat :: i < |ids| ==> i in rest
    ensures Served(s, rows0, t0, LeaseAll(rows0, ids, got.now, got.now + s.claimTtl), t0, ids, got, rest)
  {
    var rows := LeaseAll(rows0, ids, got.now, got.now + s.claimTtl);
    forall i: nat | i < |ids|
      ensures ids[i] in rows0 && RowServed(s, rows0[ids[i]], rows[ids[i]], t0, ids[i], got, rest, i)
    {
      assert ids[i] in ids;
    }
  }

  /** An answer to job `i` serves job `i` and no other. */
  lemma {:induction false} OneServed(s: Settings, rows0: FeedRows, t0: Table, rows: FeedRows, t: Table,
                                     ids: seq<FeedId>,
                                     got: Got, rest: set<nat>, i: nat)
    requires s.Defined() && ForJobs(got, |ids|) && Valid(t0) && Valid(t) && Distinct(ids)
    requires Served(s, rows0, t0, rows, t, ids, got, rest) && i in rest && i < |ids| && got.outcomes[i].Some?
    ensures
      var f, o := ids[i], got.outcomes[i].value;
      var rows' := rows[f := AfterPoll(s, rows[f], got.now, WeeklyCount(t, f, got.now), o, got.draws[i])];
      Served(s, rows0, t0, rows', EntriesAfter(s, t, f, o, got.now, got.stamps[i]), ids, got, rest - {i})
  {
    var f, o := ids[i], got.outcomes[i].value;
    assert EntriesServed(s, t0, t, f, got, rest, i);
    SameCount(t, t0, f, got.now);
    EntriesStillServed(s, t0, t, ids, got, rest, i);
    RowsServed(s, rows0, t0, rows, t, ids, got, rest, i);
  }

  lemma {:induction false} EntriesStillServed(s: Settings, t0: Table, t: Table, ids: seq<FeedId>, got: Got,
                                              rest: set<nat>, i: nat)
    requires ForJobs(got, |ids|) && Valid(t0) && Valid(t) && Distinct(ids)
    requires i in rest && i < |ids| && got.outcomes[i].Some?
    requires forall j: nat :: j < |ids| ==> EntriesServed(s, t0, t, ids[j], got, rest, j)
    ensures
      var t' := EntriesAfter(s, t, ids[i], got.outcomes[i].value, got.now, got.stamps[i]);
      && (forall j: nat :: j < |ids| ==> EntriesServed(s, t0, t', ids[j], got, rest - {i}, j))
      && (forall g :: g !in ids ==> EntriesOf(t', g) == EntriesOf(t, g))
  {
    var f, o := ids[i], got.outcomes[i].value;
    var t' := EntriesAfter(s, t, f, o, got.now, got.stamps[i]);
    assert EntriesServed(s, t0, t, f, got, rest, i);
    SameAfter(s, t, t0, f, o, got.now, got.stamps[i]);
    forall g | g != f
      ensures EntriesOf(t', g) == EntriesOf(t, g)
    {
      OthersKept(s, t, f, o, got.now, got.stamps[i], g);
    }
    forall j: nat | j < |ids|
      ensures EntriesServed(s, t0, t', ids[j], got, rest - {i}, j)
    {
      assert EntriesServed(s, t0, t, ids[j], got, rest, j);
    }
  }

  lemma {:induction false} RowsServed(s: Settings, rows0: FeedRows, t0: Table, rows: FeedRows, t: Table,
                                      ids: seq<FeedId>,
                                      got: Got, rest: set<nat>, i: nat)
    requires s.Defined() && ForJobs(got, |ids|) && Distinct(ids)
    requires Served(s, rows0, t0, rows, t, ids, got, rest) && i in rest && i < |ids| && got.outcomes[i].Some?
    requires WeeklyCount(t, ids[i], got.now) == WeeklyCount(t0, ids[i], got.now)
    ensures
      var f := ids[i];
      var polled := AfterPoll(s, rows[f], got.now, WeeklyCount(t, f, got.now), got.outcomes[i].value, got.draws[i]);
      var rows' := rows[f := polled];
      && rows'.Keys == rows0.Keys
      && forall j: nat :: j < |ids| ==>
           RowServed(s, rows0[ids[j]], rows'[ids[j]], t0, ids[j], got, rest - {i}, j)
  {
    forall j: nat | j < |ids|
      ensures RowServed(s, rows0[ids[j]], rows[ids[j]], t0, ids[j], got, rest, j)
      ensures j != i ==> ids[j] != ids[i]
    {
    }
  }

  /** A job that raised is done too, and has served nothing. */
  lemma {:induction false} OneRaised(s: Settings, rows0: FeedRows, t0: Table, rows: FeedRows, t: Table,
                                     ids: seq<FeedId>,
                                     got: Got, rest: set<nat>, i: nat)
    requires s.Defined() && ForJobs(got, |ids|)
    requires Served(s, rows0, t0, rows, t, ids, got, rest) && i < |ids| && got.outcomes[i].None?
    ensures Served(s, rows0, t0, rows, t, ids, got, rest - {i})
  {
    forall j: nat | j < |ids|
      ensures RowServed(s, rows0[ids[j]], rows[ids[j]], t0, ids[j], got, rest - {i}, j)
      ensures EntriesServed(s, t0, t, ids[j], got, rest - {i}, j)
    {
      assert RowServed(s, rows0[ids[j]], rows[ids[j]], t0, ids[j], got, rest, j);
      assert EntriesServed(s, t0, t, ids[j], got, rest, j);
    }
  }
}
