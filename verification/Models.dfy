/** Values shared by every module: SQL NULL as an option, instants in seconds. */
module Common {

  /** An instant or a span, in seconds.  Rounding is not modelled. */
  type Time = real

  /** A nullable column, or an optional argument. */
  datatype Option<+T> = None | Some(value: T) {
    predicate IsFailure() {
      None?
    }

    function PropagateFailure<U>(): Option<U>
      requires None?
    {
      None
    }

    function Extract(): T
      requires Some?
    {
      value
    }

    function GetOr(default: T): T {
      match this
      case Some(v) => v
      case None => default
    }
  }

  function Min(a: real, b: real): real {
    if a <= b then a else b
  }

  function Max(a: real, b: real): real {
    if a >= b then a else b
  }

  /** The number of whole groups of `size` needed for `count` items. */
  function CeilDiv(count: nat, size: nat): nat
    requires size >= 1
  {
    (count + size - 1) / size
  }

  lemma {:induction false} SubsetCount<T>(a: set<T>, b: set<T>)
    requires a <= b
    ensures |a| <= |b|
  {
    assert b == a + (b - a);
  }

  lemma {:induction false} DivUnique(x: int, d: int, q: int, r: int)
    requires d > 0 && 0 <= r < d && x == q * d + r
    ensures x / d == q && x % d == r
  {
    var p, s := x / d, x % d;
    assert x == p * d + s && 0 <= s < d;
    if p > q {
      assert (q + 1) * d == q * d + d;
      Grow(q + 1, p, d);
    } else if p < q {
      assert (p + 1) * d == p * d + d;
      Grow(p + 1, q, d);
    }
  }

  lemma {:induction false} Grow(a: int, b: int, d: int)
    requires a <= b && d >= 0
    ensures a * d <= b * d
  {
    assert b * d - a * d == (b - a) * d;
  }

  /** The ceiling is the least number of groups that is enough. */
  lemma {:induction false} CeilDivLeast(count: nat, size: nat, groups: nat)
    requires size >= 1
    ensures groups >= CeilDiv(count, size) <==> count <= groups * size
  {
    var c := CeilDiv(count, size);
    var r := (count + size - 1) % size;
    assert count + size - 1 == c * size + r;
    if groups >= c {
      Grow(c, groups, size);
    } else {
      Grow(groups, c - 1, size);
      assert (c - 1) * size == c * size - size;
    }
  }
}

/** The two tables and the settings that govern them. */
module Models {
  import opened Common

  type FeedId = nat
  type EntryId = nat

  datatype FeedStatus = Active | Broken | Dead

  datatype ErrorCode =
    | Dns | TcpRefused | TlsError | Timeout | Connection
    | Http4xx | Http410 | Http5xx | HttpError | RateLimited
    | NotAFeed | RedirectLoop | TooLarge | Blocked | Other

  /** One row of `feeds`. */
  datatype FeedRow = FeedRow(
    url: string,
    effectiveUrl: string,
    title: Option<string>,
    status: FeedStatus,
    lastSuccess: Option<Time>,
    lastAttempt: Option<Time>,
    errorCode: Option<ErrorCode>,
    createdAt: Time,
    nextFetchAt: Time,
    failures: nat,
    etag: Option<string>,
    lastModified: Option<string>)

  /** The row that `POST /v1/feeds` inserts: column defaults, due at once. */
  function Registered(url: string, now: Time): FeedRow {
    FeedRow(url, url, None, Active, None, None, None, now, now, 0, None, None)
  }

  /** The fields of an entry that an edit at the origin can change. */
  datatype Content = Content(
    url: string,
    title: Option<string>,
    text: Option<string>,
    author: Option<string>,
    publishedAt: Option<Time>)

  /** What the parser emits for one entry. */
  datatype ParsedEntry = ParsedEntry(guid: string, body: Content)

  /** One row of `entries`; the primary key is the key of the table's map. */
  datatype EntryRow = EntryRow(
    feedId: FeedId,
    guid: string,
    body: Content,
    fetchedAt: Time,
    contentUpdatedAt: Time)

  datatype Settings = Settings(
    baseInterval: real,
    brokenThreshold: nat,
    deadDuration: real,
    maxBackoff: real,
    jitterRatio: real,
    frequencyMin: real,
    frequencyMax: real,
    frequencyFactor: nat,
    maxEntriesPerFetch: nat,
    maxEntriesInitial: nat,
    claimBatch: nat,
    claimTtl: real,
    concurrency: nat,
    fetchBound: real,
    probeInterval: real)
  {
    /** The division by the entry frequency is defined. */
    predicate Defined() {
      frequencyFactor >= 1
    }

    /** Positive intervals and a jitter that cannot eat a whole interval. */
    predicate Positive() {
      && Defined()
      && baseInterval > 0.0
      && maxBackoff > 0.0
      && 0.0 <= jitterRatio < 1.0
      && frequencyMin > 0.0
    }
  }
}
