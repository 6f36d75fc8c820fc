/** The lifecycle fields of a feed and the two functions that move them. */
module FeedState {
  import opened Common
  import opened Models

  /** The instant the dead timer runs from. */
  function Reference(row: FeedRow): Time {
    row.lastSuccess.GetOr(row.createdAt)
  }

  function AfterSuccess(row: FeedRow, now: Time, title: Option<string>): FeedRow {
    row.(title := if title.Some? && title.value != "" then title else row.title,
         lastSuccess := Some(now), errorCode := None, failures := 0, status := Active)
  }

  function StatusAfterFailure(s: Settings, row: FeedRow, now: Time, code: ErrorCode): FeedStatus {
    if code == Http410 || row.status == Dead then
      Dead
    else if row.status == Active && row.failures + 1 < s.brokenThreshold then
      Active
    else if now - Reference(row) >= s.deadDuration then
      Dead
    else
      Broken
  }

  function AfterFailure(s: Settings, row: FeedRow, now: Time, code: ErrorCode): FeedRow {
    row.(errorCode := Some(code), failures := row.failures + 1,
         status := StatusAfterFailure(s, row, now, code))
  }

  /** One column of the UPDATE at commit: written only if the session changed it. */
  function Column<T(==)>(current: T, loaded: T, left: T): T {
    if left != loaded then left else current
  }

  /** What a commit makes of the row as it now stands, when the session loaded the row as `loaded` and
      left its object as `left`. */
  function Flushed(current: FeedRow, loaded: FeedRow, left: FeedRow): FeedRow {
    FeedRow(current.url,
            Column(current.effectiveUrl, loaded.effectiveUrl, left.effectiveUrl),
            Column(current.title, loaded.title, left.title),
            Column(current.status, loaded.status, left.status),
            Column(current.lastSuccess, loaded.lastSuccess, left.lastSuccess),
            Column(current.lastAttempt, loaded.lastAttempt, left.lastAttempt),
            Column(current.errorCode, loaded.errorCode, left.errorCode),
            current.createdAt,
            Column(current.nextFetchAt, loaded.nextFetchAt, left.nextFetchAt),
            Column(current.failures, loaded.failures, left.failures),
            Column(current.etag, loaded.etag, left.etag),
            Column(current.lastModified, loaded.lastModified, left.lastModified))
  }

  /** A commit writes what the session did, and nothing else: all of it over the row as loaded, none of it
      if the session changed nothing. */
  lemma {:induction false} FlushLaws(current: FeedRow, loaded: FeedRow, left: FeedRow)
    ensures Flushed(loaded, loaded, left.(url := loaded.url, createdAt := loaded.createdAt))
         == left.(url := loaded.url, createdAt := loaded.createdAt)
    ensures Flushed(current, loaded, loaded) == current
  {
  }

  /** The two sessions changed no column both. */
  predicate ChangeApart(loaded: FeedRow, a: FeedRow, b: FeedRow) {
    && (a.effectiveUrl == loaded.effectiveUrl || b.effectiveUrl == loaded.effectiveUrl)
    && (a.title == loaded.title || b.title == loaded.title)
    && (a.status == loaded.status || b.status == loaded.status)
    && (a.lastSuccess == loaded.lastSuccess || b.lastSuccess == loaded.lastSuccess)
    && (a.lastAttempt == loaded.lastAttempt || b.lastAttempt == loaded.lastAttempt)
    && (a.errorCode == loaded.errorCode || b.errorCode == loaded.errorCode)
    && (a.nextFetchAt == loaded.nextFetchAt || b.nextFetchAt == loaded.nextFetchAt)
    && (a.failures == loaded.failures || b.failures == loaded.failures)
    && (a.etag == loaded.etag || b.etag == loaded.etag)
    && (a.lastModified == loaded.lastModified || b.lastModified == loaded.lastModified)
  }

  /** Then they both have their way, in either order. */
  lemma {:induction false} FlushesCommute(current: FeedRow, loaded: FeedRow, a: FeedRow, b: FeedRow)
    requires ChangeApart(loaded, a, b)
    ensures Flushed(Flushed(current, loaded, a), loaded, b) == Flushed(Flushed(current, loaded, b), loaded, a)
  {
  }

  /** The mapped object that a session loads, mutates and flushes. */
  class Feed {
    const url: string
    const createdAt: Time
    var effectiveUrl: string
    var title: Option<string>
    var status: FeedStatus
    var lastSuccess: Option<Time>
    var lastAttempt: Option<Time>
    var errorCode: Option<ErrorCode>
    var nextFetchAt: Time
    var failures: nat
    var etag: Option<string>
    var lastModified: Option<string>

    function Row(): FeedRow
      reads this
    {
      FeedRow(url, effectiveUrl, title, status, lastSuccess, lastAttempt, errorCode, createdAt,
              nextFetchAt, failures, etag, lastModified)
    }

    /** Loads a row. */
    constructor (row: FeedRow)
      ensures Row() == row
    {
      url, effectiveUrl, createdAt := row.url, row.effectiveUrl, row.createdAt;
      title, status := row.title, row.status;
      lastSuccess, lastAttempt, errorCode := row.lastSuccess, row.lastAttempt, row.errorCode;
      nextFetchAt, failures := row.nextFetchAt, row.failures;
      etag, lastModified := row.etag, row.lastModified;
    }

    method MarkFetchSuccess(now: Time, newTitle: Option<string>)
      modifies this
      ensures Row() == AfterSuccess(old(Row()), now, newTitle)
    {
      if newTitle.Some? && newTitle.value != "" {
        title := newTitle;
      }
      lastSuccess := Some(now);
      errorCode := None;
      failures := 0;
      if status != Active {
        status := Active;
      }
    }

    method MarkFetchFailure(s: Settings, now: Time, code: ErrorCode)
      modifies this
      ensures Row() == AfterFailure(s, old(Row()), now, code)
    {
      errorCode := Some(code);
      failures := failures + 1;
      if code == Http410 {
        if status != Dead {
          status := Dead;
        }
      } else {
        if status == Active && failures >= s.brokenThreshold {
          status := Broken;
        }
        if status == Broken {
          var reference := lastSuccess.GetOr(createdAt);
          if now - reference >= s.deadDuration {
            status := Dead;
          }
        }
      }
    }
  }
}
