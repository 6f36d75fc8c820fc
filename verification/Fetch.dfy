/** One attempt at one feed: outcome branches, entry caps, validators, rescheduling. */
module Fetch {
  import opened Common
  import opened Models
  import opened Policy
  import opened FeedState
  import opened EntryStore

  /** How the exchange with the origin ended, headers already parsed.  `movedTo` is the final URL of a
      chain of redirects with a 301 in it, when the exchange got that far. */
  datatype Outcome =
    | Fetched(movedTo: Option<string>, title: Option<string>, etag: Option<string>, lastModified: Option<string>,
              cacheHint: Option<nat>, ttl: Option<nat>, entries: seq<ParsedEntry>)
    | NotModified(cacheHint: Option<nat>)
    | TooManyRequests(retryAfter: Option<nat>)
    | Failed(movedTo: Option<string>, code: ErrorCode)

  /** The longer of the cache header and the feed's own TTL. */
  function ServerHint(cacheHint: Option<nat>, ttl: Option<nat>): Option<nat> {
    if ttl.Some? && ttl.value > cacheHint.GetOr(0) then ttl else cacheHint
  }

  /** A permanent redirect moves the address that is polled, even if the body then fails. */
  function Moved(row: FeedRow, movedTo: Option<string>): FeedRow {
    row.(effectiveUrl := movedTo.GetOr(row.effectiveUrl))
  }

  /** The validators a 200 leaves behind: a header that is absent keeps the stored value. */
  function Validated(row: FeedRow, etag: Option<string>, lastModified: Option<string>): FeedRow {
    row.(etag := if etag.Some? then etag else row.etag,
         lastModified := if lastModified.Some? then lastModified else row.lastModified)
  }

  /** A 304 refreshes the success clock, and recovers a BROKEN feed only. */
  function AfterNotModified(row: FeedRow, now: Time): FeedRow {
    var seen := row.(lastSuccess := Some(now));
    if row.status == Broken then seen.(status := Active, failures := 0, errorCode := None) else seen
  }

  /** The lifecycle part of an attempt, before rescheduling. */
  function Judged(s: Settings, row: FeedRow, now: Time, outcome: Outcome): FeedRow {
    var tried := row.(lastAttempt := Some(now));
    match outcome
    case Fetched(movedTo, title, etag, lastModified, _, _, _) =>
      Validated(AfterSuccess(Moved(tried, movedTo), now, title), etag, lastModified)
    case NotModified(_) => AfterNotModified(tried, now)
    case TooManyRequests(_) => tried.(errorCode := Some(RateLimited))
    case Failed(movedTo, code) => AfterFailure(s, Moved(tried, movedTo), now, code)
  }

  function NextAfter(s: Settings, judged: FeedRow, now: Time, weekly: nat, outcome: Outcome, u: Draw): Time
    requires s.Defined()
  {
    match outcome
    case Fetched(_, _, _, _, hint, ttl, _) =>
      NextFetchAt(s, judged.status, judged.failures, now, ServerHint(hint, ttl), weekly, u)
    case NotModified(hint) => NextFetchAt(s, judged.status, judged.failures, now, hint, weekly, u)
    case TooManyRequests(retryAfter) => now + Max(retryAfter.GetOr(0) as real, s.baseInterval)
    case Failed(_, _) => NextFetchAt(s, judged.status, judged.failures, now, None, weekly, u)
  }

  /** The row that an attempt commits. */
  function AfterPoll(s: Settings, row: FeedRow, now: Time, weekly: nat, outcome: Outcome, u: Draw): FeedRow
    requires s.Defined()
  {
    var judged := Judged(s, row, now, outcome);
    judged.(nextFetchAt := NextAfter(s, judged, now, weekly, outcome, u))
  }

  /** Every attempt, whatever its outcome, reschedules strictly after its own instant. */
  lemma {:induction false} PollReschedulesLater(s: Settings, row: FeedRow, now: Time, weekly: nat, outcome: Outcome,
                                                u: Draw)
    requires s.Positive()
    ensures AfterPoll(s, row, now, weekly, outcome, u).nextFetchAt > now
  {
    var judged := Judged(s, row, now, outcome);
    match outcome
    case Fetched(_, _, _, _, hint, ttl, _) =>
      NextFetchIsLater(s, judged.status, judged.failures, now, ServerHint(hint, ttl), weekly, u);
    case NotModified(hint) =>
      NextFetchIsLater(s, judged.status, judged.failures, now, hint, weekly, u);
    case TooManyRequests(_) =>
    case Failed(_, _) =>
      NextFetchIsLater(s, judged.status, judged.failures, now, None, weekly, u);
  }

  // ---- Entries ----

  predicate HasAny(t: Table, feed: FeedId) {
    exists id :: id in t.rows && t.rows[id].feedId == feed
  }

  function Prefix(es: seq<ParsedEntry>, cap: nat): seq<ParsedEntry> {
    if |es| > cap then es[..cap] else es
  }

  /** The per-fetch cap, then the initial-fetch cap while the feed has no entry. */
  function Capped(s: Settings, t: Table, feed: FeedId, es: seq<ParsedEntry>): seq<ParsedEntry> {
    var once := Prefix(es, s.maxEntriesPerFetch);
    if HasAny(t, feed) then once else Prefix(once, s.maxEntriesInitial)
  }

  ghost function EntriesAfter(s: Settings, t: Table, feed: FeedId, outcome: Outcome, now: Time, dbNow: Time): Table {
    if outcome.Fetched? then UpsertAll(t, feed, Capped(s, t, feed, outcome.entries), now, dbNow) else t
  }

  /** The entries of the feed fetched in the last week. */
  function Recent(t: Table, feed: FeedId, now: Time): set<EntryId> {
    set id | id in t.rows && t.rows[id].feedId == feed && t.rows[id].fetchedAt >= now - WEEK
  }

  function WeeklyCount(t: Table, feed: FeedId, now: Time): nat {
    |Recent(t, feed, now)|
  }

  /** Cuts the parsed entries to the caps and upserts them. */
  method StoreEntries(s: Settings, feedId: FeedId, table: EntryTable, entries: seq<ParsedEntry>,
                      now: Time, dbNow: Time)
    requires Valid(table.Contents())
    modifies table
    ensures Valid(table.Contents())
    ensures table.Contents() ==
              UpsertAll(old(table.Contents()), feedId, Capped(s, old(table.Contents()), feedId, entries), now, dbNow)
  {
    var toUpsert := entries;
    if toUpsert != [] {
      if |toUpsert| > s.maxEntriesPerFetch {
        toUpsert := toUpsert[..s.maxEntriesPerFetch];
      }
      var hasExisting := exists id :: id in table.rows && table.rows[id].feedId == feedId;
      if !hasExisting && |toUpsert| > s.maxEntriesInitial {
        toUpsert := toUpsert[..s.maxEntriesInitial];
      }
      table.UpsertEntries(feedId, toUpsert, now, dbNow);
    }
  }

  method FollowMove(feed: Feed, movedTo: Option<string>)
    modifies feed
    ensures feed.Row() == Moved(old(feed.Row()), movedTo)
  {
    if movedTo.Some? {
      feed.effectiveUrl := movedTo.value;
    }
  }

  method KeepValidators(feed: Feed, etag: Option<string>, lastModified: Option<string>)
    modifies feed
    ensures feed.Row() == Validated(old(feed.Row()), etag, lastModified)
  {
    if etag.Some? {
      feed.etag := etag;
    }
    if lastModified.Some? {
      feed.lastModified := lastModified;
    }
  }

  method FetchOne(s: Settings, feed: Feed, feedId: FeedId, table: EntryTable,
                  now: Time, dbNow: Time, outcome: Outcome, u: Draw)
    requires s.Defined() && Valid(table.Contents())
    modifies feed, table
    ensures Valid(table.Contents())
    ensures feed.Row() ==
              AfterPoll(s, old(feed.Row()), now, WeeklyCount(old(table.Contents()), feedId, now), outcome, u)
    ensures table.Contents() == EntriesAfter(s, old(table.Contents()), feedId, outcome, now, dbNow)
  {
    feed.lastAttempt := Some(now);
    var hint: Option<nat> := None;
    var weekly := WeeklyCount(table.Contents(), feedId, now);
    match outcome {
      case NotModified(cacheHint) =>
        feed.lastSuccess := Some(now);
        if feed.status == Broken {
          feed.status := Active;
          feed.failures := 0;
          feed.errorCode := None;
        }
        feed.nextFetchAt := NextFetchAt(s, feed.status, feed.failures, now, cacheHint, weekly, u);
        return;
      case TooManyRequests(retryAfter) =>
        var wait := Max(retryAfter.GetOr(0) as real, s.baseInterval);
        feed.errorCode := Some(RateLimited);
        feed.nextFetchAt := now + wait;
        return;
      case Fetched(movedTo, title, etag, lastModified, cacheHint, ttl, entries) =>
        FollowMove(feed, movedTo);
        StoreEntries(s, feedId, table, entries, now, dbNow);
        feed.MarkFetchSuccess(now, title);
        KeepValidators(feed, etag, lastModified);
        hint := ServerHint(cacheHint, ttl);
      case Failed(movedTo, code) =>
        FollowMove(feed, movedTo);
        feed.MarkFetchFailure(s, now, code);
    }
    feed.nextFetchAt := NextFetchAt(s, feed.status, feed.failures, now, hint, weekly, u);
  }
}
