/** What each kind of answer does to a feed's row and entries, column by column. */
module Outcomes {
  import opened Common
  import opened Models
  import opened Policy
  import opened EntryStore
  import opened Fetch

  // ---- The row ----

  /** A 200: the feed is ACTIVE and clean; a title, a validator or a new address replaces the old one, and
      what the answer does not carry is kept. */
  lemma {:induction false} AfterFullAnswer(s: Settings, row: FeedRow, now: Time, weekly: nat, o: Outcome, u: Draw)
    requires s.Defined() && o.Fetched?
    ensures
      var after := AfterPoll(s, row, now, weekly, o, u);
      && after.status == Active && after.failures == 0 && after.errorCode == None
      && after.lastSuccess == Some(now) && after.lastAttempt == Some(now)
      && (o.title == None || o.title == Some("") ==> after.title == row.title)
      && (o.title.Some? && o.title != Some("") ==> after.title == o.title)
      && (o.etag == None ==> after.etag == row.etag) && (o.etag.Some? ==> after.etag == o.etag)
      && (o.lastModified == None ==> after.lastModified == row.lastModified)
      && (o.lastModified.Some? ==> after.lastModified == o.lastModified)
      && (o.movedTo == None ==> after.effectiveUrl == row.effectiveUrl)
      && (o.movedTo.Some? ==> o.movedTo == Some(after.effectiveUrl))
      && after.url == row.url && after.createdAt == row.createdAt
  {
  }

  /** A 304: the success clock runs anew; only a BROKEN feed recovers, and nothing else of the row moves. */
  lemma {:induction false} AfterUnchanged(s: Settings, row: FeedRow, now: Time, weekly: nat, o: Outcome, u: Draw)
    requires s.Defined() && o.NotModified?
    ensures
      var after := AfterPoll(s, row, now, weekly, o, u);
      && after.lastSuccess == Some(now) && after.lastAttempt == Some(now)
      && (row.status == Broken ==> after.status == Active && after.failures == 0 && after.errorCode == None)
      && (row.status != Broken ==>
            && after.status == row.status && after.failures == row.failures && after.errorCode == row.errorCode)
      && after.title == row.title && after.effectiveUrl == row.effectiveUrl
      && after.etag == row.etag && after.lastModified == row.lastModified
      && after.url == row.url && after.createdAt == row.createdAt
  {
  }

  /** A 429: due after the longer of Retry-After and the base interval; the attempt and its code are noted,
      and every other column is as it was. */
  lemma {:induction false} AfterRateLimit(s: Settings, row: FeedRow, now: Time, weekly: nat, o: Outcome, u: Draw)
    requires s.Defined() && o.TooManyRequests? && s.baseInterval >= 0.0
    ensures
      var after := AfterPoll(s, row, now, weekly, o, u);
      && (o.retryAfter.Some? ==> after.nextFetchAt >= now + o.retryAfter.value as real)
      && after.nextFetchAt >= now + s.baseInterval
      && (|| after.nextFetchAt == now + s.baseInterval
          || (o.retryAfter.Some? && after.nextFetchAt == now + o.retryAfter.value as real))
      && after == row.(nextFetchAt := after.nextFetchAt, errorCode := Some(RateLimited), lastAttempt := Some(now))
  {
  }

  /** A failure: one more in the count, under its own code.  A 410 kills; a feed at the threshold is
      BROKEN, or DEAD if its last success (or its registration) is old enough; DEAD stays DEAD. */
  lemma {:induction false} AfterFailedAttempt(s: Settings, row: FeedRow, now: Time, weekly: nat, o: Outcome, u: Draw)
    requires s.Defined() && o.Failed?
    ensures
      var after := AfterPoll(s, row, now, weekly, o, u);
      var since := match row.lastSuccess case Some(at) => at case None => row.createdAt;
      var failing := row.status == Broken || (row.status == Active && row.failures + 1 >= s.brokenThreshold);
      && after.failures == row.failures + 1
      && (after.status == Dead <==>
            row.status == Dead || o.code == Http410 || (failing && now - since >= s.deadDuration))
      && (after.status == Broken <==> failing && o.code != Http410 && now - since < s.deadDuration)
      && after == row.(failures := after.failures, status := after.status, nextFetchAt := after.nextFetchAt,
                       errorCode := Some(o.code), lastAttempt := Some(now), effectiveUrl := after.effectiveUrl)
      && (o.movedTo == None ==> after.effectiveUrl == row.effectiveUrl)
      && (o.movedTo.Some? ==> o.movedTo == Some(after.effectiveUrl))
  {
  }

  // ---- The schedule ----

  /** An interval that no setting exceeds. */
  predicate CoversSettings(s: Settings, h: real) {
    h >= s.baseInterval && h >= s.frequencyMin && h >= s.frequencyMax
  }

  /** After a 200 the feed is due at the latest of three: when the cache header allows, when the feed's own
      TTL allows, and when its entry frequency asks; exactly at the longer of the first two if that covers
      the settings. */
  lemma {:induction false} FullAnswerHint(s: Settings, row: FeedRow, now: Time, weekly: nat, o: Outcome, u: Draw)
    requires s.Defined() && o.Fetched?
    ensures
      var due := AfterPoll(s, row, now, weekly, o, u).nextFetchAt;
      && (o.cacheHint.Some? ==> due >= now + o.cacheHint.value as real)
      && (o.ttl.Some? ==> due >= now + o.ttl.value as real)
      && ((&& o.cacheHint.Some? && CoversSettings(s, o.cacheHint.value as real)
           && (o.ttl == None || o.ttl.value <= o.cacheHint.value)) ==> due == now + o.cacheHint.value as real)
      && ((&& o.ttl.Some? && CoversSettings(s, o.ttl.value as real)
           && (o.cacheHint == None || o.cacheHint.value <= o.ttl.value)) ==> due == now + o.ttl.value as real)
      && due >= NextFetchAt(s, Active, 0, now, None, weekly, u)
      && (|| due == NextFetchAt(s, Active, 0, now, None, weekly, u)
          || (o.cacheHint.Some? && due == now + o.cacheHint.value as real)
          || (o.ttl.Some? && due == now + o.ttl.value as real))
  {
    var hint := ServerHint(o.cacheHint, o.ttl);
    if hint.Some? {
      HintIsHonoured(s, Active, 0, now, hint.value, weekly, u);
    }
  }

  /** After a 304 likewise, with the cache header alone. */
  lemma {:induction false} UnchangedHint(s: Settings, row: FeedRow, now: Time, weekly: nat, o: Outcome, u: Draw)
    requires s.Defined() && o.NotModified?
    ensures
      var due := AfterPoll(s, row, now, weekly, o, u).nextFetchAt;
      && (o.cacheHint.Some? ==> due >= now + o.cacheHint.value as real)
      && (o.cacheHint.Some? && CoversSettings(s, o.cacheHint.value as real) ==> due == now + o.cacheHint.value as real)
      && due >= NextFetchAt(s, Active, 0, now, None, weekly, u)
      && (|| due == NextFetchAt(s, Active, 0, now, None, weekly, u)
          || (o.cacheHint.Some? && due == now + o.cacheHint.value as real))
  {
    if o.cacheHint.Some? {
      var after := AfterPoll(s, row, now, weekly, o, u);
      HintIsHonoured(s, after.status, after.failures, now, o.cacheHint.value, weekly, u);
    }
  }

  /** A failure takes no hint: a feed it leaves BROKEN is due within the jitter band of its new count, any
      other by its entry frequency. */
  lemma {:induction false} FailureSchedule(s: Settings, row: FeedRow, now: Time, weekly: nat, o: Outcome, u: Draw)
    requires s.Positive() && o.Failed?
    ensures
      var after := AfterPoll(s, row, now, weekly, o, u);
      var d := BackoffDelay(s, row.failures + 1);
      && (after.status == Broken ==>
            now + (1.0 - s.jitterRatio) * d <= after.nextFetchAt <= now + (1.0 + s.jitterRatio) * d)
      && (after.status != Broken ==> after.nextFetchAt == NextFetchAt(s, Active, 0, now, None, weekly, u))
  {
    JitterBand(s, row.failures + 1, now, None, weekly, u);
  }

  /** The weekly count: nothing in an empty table, and one for each row of the feed fetched in the last
      604800 seconds. */
  lemma {:induction false} WeeklyCountIsExact(t: Table, id: EntryId, row: EntryRow, feed: FeedId, now: Time)
    requires id !in t.rows
    ensures WeeklyCount(Table(map[], t.nextId), feed, now) == 0
    ensures WeeklyCount(Table(t.rows[id := row], t.nextId), feed, now)
         == WeeklyCount(t, feed, now) + if row.feedId == feed && now - row.fetchedAt <= 604800.0 then 1 else 0
  {
    assert Recent(Table(map[], t.nextId), feed, now) == {};
    RecentGrows(t, id, row, feed, now);
  }

  lemma {:induction false} RecentGrows(t: Table, id: EntryId, row: EntryRow, feed: FeedId, now: Time)
    requires id !in t.rows
    ensures |Recent(Table(t.rows[id := row], t.nextId), feed, now)|
         == |Recent(t, feed, now)| + if row.feedId == feed && now - row.fetchedAt <= 604800.0 then 1 else 0
  {
    var with := Table(t.rows[id := row], t.nextId);
    if row.feedId == feed && now - row.fetchedAt <= 604800.0 {
      assert Recent(with, feed, now) == Recent(t, feed, now) + {id};
    } else {
      assert Recent(with, feed, now) == Recent(t, feed, now);
    }
  }

  // ---- The entries ----

  /** How many of a document's entries a fetch stores: at most the per-fetch cap, and at most the initial
      cap while the feed has no entry. */
  function StoredCount(s: Settings, t: Table, feed: FeedId, es: seq<ParsedEntry>): (n: nat)
    ensures n <= |es| && n <= s.maxEntriesPerFetch
    ensures (forall id :: id in t.rows ==> t.rows[id].feedId != feed) ==> n <= s.maxEntriesInitial
    ensures n == |es| || n == s.maxEntriesPerFetch
            || (n == s.maxEntriesInitial && forall id :: id in t.rows ==> t.rows[id].feedId != feed)
  {
    var n := if |es| <= s.maxEntriesPerFetch then |es| else s.maxEntriesPerFetch;
    if HasAny(t, feed) || n <= s.maxEntriesInitial then n else s.maxEntriesInitial
  }

  /** One of the first `n` entries has the guid. */
  predicate ListedFirst(es: seq<ParsedEntry>, n: nat, guid: string)
    requires n <= |es|
  {
    exists k :: 0 <= k < n && es[k].guid == guid
  }

  /** One of the first `n` entries has the guid with other content than `body`. */
  predicate ListedOther(es: seq<ParsedEntry>, n: nat, guid: string, body: Content)
    requires n <= |es|
  {
    exists k :: 0 <= k < n && es[k].guid == guid && es[k].body != body
  }

  /** `body` is the content of the last of the first `n` entries that have the guid. */
  ghost predicate IsLast(es: seq<ParsedEntry>, n: nat, guid: string, body: Content)
    requires n <= |es|
  {
    exists k :: 0 <= k < n && es[k].guid == guid && es[k].body == body
                && forall j :: k < j < n ==> es[j].guid != guid
  }

  /** The whole effect of storing the first `n` entries of a document. */
  ghost predicate StoresFirst(t: Table, t': Table, feed: FeedId, es: seq<ParsedEntry>, n: nat, now: Time, dbNow: Time)
    requires n <= |es|
  {
    && (forall k :: 0 <= k < n ==> Has(t', feed, es[k].guid))
    && (forall id :: id in t.rows ==> id in t'.rows && KeptRow(t.rows[id], t'.rows[id], feed, es, n, dbNow))
    && (forall id :: id in t'.rows && id !in t.rows ==> NewRow(t'.rows[id], feed, es, n, now, dbNow))
    && (forall i, j | i in t'.rows && j in t'.rows ::
          t'.rows[i].feedId == t'.rows[j].feedId && t'.rows[i].guid == t'.rows[j].guid ==> i == j)
  }

  /** A row that was there: untouched unless listed; then it has the last content listed, and a new
      modification time from the database clock if any listing differed from what it had. */
  ghost predicate KeptRow(was: EntryRow, row: EntryRow, feed: FeedId, es: seq<ParsedEntry>, n: nat, dbNow: Time)
    requires n <= |es|
  {
    && row.feedId == was.feedId && row.guid == was.guid && row.fetchedAt == was.fetchedAt
    && (if was.feedId == feed && ListedFirst(es, n, was.guid)
        then && IsLast(es, n, was.guid, row.body)
             && row.contentUpdatedAt ==
                  (if ListedOther(es, n, was.guid, was.body) then dbNow else was.contentUpdatedAt)
        else row == was)
  }

  /** A row that is new: listed, fetched now, with the last content listed; modified now, or stamped from
      the database clock if listings disagree. */
  ghost predicate NewRow(row: EntryRow, feed: FeedId, es: seq<ParsedEntry>, n: nat, now: Time, dbNow: Time)
    requires n <= |es|
  {
    && row.feedId == feed && row.fetchedAt == now
    && ListedFirst(es, n, row.guid) && IsLast(es, n, row.guid, row.body)
    && row.contentUpdatedAt == (if ListedOther(es, n, row.guid, row.body) then dbNow else now)
  }

  /** A 200 stores the first entries of the document, as many as the caps allow, and nothing else. */
  lemma {:induction false} FullAnswerStoresFirst(s: Settings, t: Table, feed: FeedId, o: Outcome, now: Time,
                                                 dbNow: Time)
    requires Valid(t) && o.Fetched?
    ensures StoresFirst(t, EntriesAfter(s, t, feed, o, now, dbNow), feed, o.entries,
                        StoredCount(s, t, feed, o.entries), now, dbNow)
  {
    var es, n := o.entries, StoredCount(s, t, feed, o.entries);
    assert Capped(s, t, feed, es) == es[..n];
    FirstStored(t, feed, es, n, now, dbNow);
  }

  /** Any other answer stores nothing. */
  lemma {:induction false} OthersStoreNothing(s: Settings, t: Table, feed: FeedId, o: Outcome, now: Time, dbNow: Time)
    requires !o.Fetched?
    ensures EntriesAfter(s, t, feed, o, now, dbNow) == t
  {
  }

  lemma {:induction false} FirstStored(t: Table, feed: FeedId, es: seq<ParsedEntry>, n: nat, now: Time, dbNow: Time)
    requires Valid(t) && n <= |es|
    ensures StoresFirst(t, UpsertAll(t, feed, es[..n], now, dbNow), feed, es, n, now, dbNow)
  {
    var t' := UpsertAll(t, feed, es[..n], now, dbNow);
    UpsertFold(t, feed, es[..n], now, dbNow);
    FoldedStoresFirst(t, t', feed, es, n, now, dbNow);
  }

  lemma {:induction false} FoldedStoresFirst(t: Table, t': Table, feed: FeedId, es: seq<ParsedEntry>, n: nat,
                                             now: Time, dbNow: Time)
    requires n <= |es| && Folded(t, t', feed, es[..n], now, dbNow)
    ensures StoresFirst(t, t', feed, es, n, now, dbNow)
  {
    forall k | 0 <= k < n
      ensures Has(t', feed, es[k].guid)
    {
      assert es[..n][k] == es[k];
    }
    forall id | id in t.rows
      ensures id in t'.rows && KeptRow(t.rows[id], t'.rows[id], feed, es, n, dbNow)
    {
      SettledIsKept(t.rows[id], feed, es, n, dbNow);
    }
    forall id | id in t'.rows && id !in t.rows
      ensures NewRow(t'.rows[id], feed, es, n, now, dbNow)
    {
      InsertedIsNew(t'.rows[id], feed, es, n, now, dbNow);
    }
  }

  lemma {:induction false} SettledIsKept(was: EntryRow, feed: FeedId, es: seq<ParsedEntry>, n: nat, dbNow: Time)
    requires n <= |es|
    ensures KeptRow(was, Settled(was, feed, es[..n], dbNow), feed, es, n, dbNow)
  {
    InPrefix(es, n, was.guid, was.body);
    LastInPrefix(es, n, was.guid);
  }

  lemma {:induction false} InsertedIsNew(row: EntryRow, feed: FeedId, es: seq<ParsedEntry>, n: nat, now: Time,
                                         dbNow: Time)
    requires n <= |es| && Inserted(row, feed, es[..n], now, dbNow)
    ensures NewRow(row, feed, es, n, now, dbNow)
  {
    InPrefix(es, n, row.guid, row.body);
    LastInPrefix(es, n, row.guid);
    FirstIsListed(es[..n], row.guid);
    LastIsListed(es[..n], row.guid);
  }

  lemma {:induction false} InPrefix(es: seq<ParsedEntry>, n: nat, guid: string, body: Content)
    requires n <= |es|
    ensures Listed(es[..n], guid) <==> ListedFirst(es, n, guid)
    ensures Edits(es[..n], guid, body) <==> ListedOther(es, n, guid, body)
  {
    assert forall k :: 0 <= k < n ==> es[..n][k] == es[k];
  }

  lemma {:induction false} LastInPrefix(es: seq<ParsedEntry>, n: nat, guid: string)
    requires n <= |es|
    ensures Listed(es[..n], guid) ==> IsLast(es, n, guid, LastBody(es[..n], guid))
    decreases n
  {
    if Listed(es[..n], guid) && es[n - 1].guid != guid {
      assert es[..n][..n - 1] == es[..n - 1];
      Shorter(es[..n], guid);
      LastInPrefix(es, n - 1, guid);
    }
  }

  /** The first content listed is a content listed. */
  lemma {:induction false} FirstIsListed(es: seq<ParsedEntry>, guid: string)
    requires Listed(es, guid)
    ensures exists k :: 0 <= k < |es| && es[k].guid == guid && es[k].body == FirstBody(es, guid)
  {
    var n := |es| - 1;
    assert forall k :: 0 <= k < n ==> es[..n][k] == es[k];
    if Listed(es[..n], guid) {
      FirstIsListed(es[..n], guid);
    } else {
      var k :| 0 <= k < |es| && es[k].guid == guid;
    }
  }
}
