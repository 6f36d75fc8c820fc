/** Runs of fetches and sweeps over the entries table. */
module EntryLife {
  import opened Common
  import opened Models
  import opened SortOrder
  import opened EntryStore
  import opened Fetch
  import opened Retention

  datatype Event =
    | Fetch(feed: FeedId, outcome: Outcome, now: Time, dbNow: Time)
    | Sweeping(cutoff: Time, gone: set<EntryId>)

  /** A sweep, batched or not, deletes some of the victims. */
  ghost predicate Possible(minPerFeed: int, t: Table, e: Event) {
    e.Sweeping? ==> e.gone <= Victims(t.rows, e.cutoff, minPerFeed)
  }

  ghost function After(s: Settings, t: Table, e: Event): Table {
    match e
    case Fetch(feed, outcome, now, dbNow) => EntriesAfter(s, t, feed, outcome, now, dbNow)
    case Sweeping(_, gone) => Table(t.rows - gone, t.nextId)
  }

  ghost predicate IsLife(s: Settings, minPerFeed: int, t: Table, events: seq<Event>)
    decreases |events|
  {
    events == [] || (Possible(minPerFeed, t, events[0]) && IsLife(s, minPerFeed, After(s, t, events[0]), events[1..]))
  }

  ghost function End(s: Settings, t: Table, events: seq<Event>): Table
    decreases |events|
  {
    if events == [] then t else End(s, After(s, t, events[0]), events[1..])
  }

  lemma {:induction false} SweepSparesNewest(rows: Rows, feed: FeedId, cutoff: Time, minPerFeed: int,
                                             gone: set<EntryId>)
    requires minPerFeed >= 1 && gone <= Victims(rows, cutoff, minPerFeed)
    requires exists id :: id in rows && rows[id].feedId == feed
    ensures exists id :: id in rows - gone && (rows - gone)[id].feedId == feed
  {
    var keys := Partition(rows, feed);
    var id :| id in rows && rows[id].feedId == feed;
    assert KeyOf(rows, id) in keys;
    RowNumberIsPosition(rows, feed, 0);
    var newest := Listing(keys)[0].id;
    assert newest in rows - gone && (rows - gone)[newest].feedId == feed;
  }

  lemma {:induction false} EventKeeps(s: Settings, minPerFeed: int, t: Table, e: Event, feed: FeedId)
    requires minPerFeed >= 1 && EntryStore.Valid(t) && Possible(minPerFeed, t, e)
    ensures EntryStore.Valid(After(s, t, e))
    ensures HasAny(t, feed) ==> HasAny(After(s, t, e), feed)
  {
    match e {
      case Fetch(f, outcome, now, dbNow) =>
        if outcome.Fetched? {
          UpsertFold(t, f, Capped(s, t, f, outcome.entries), now, dbNow);
          if HasAny(t, feed) {
            var id :| id in t.rows && t.rows[id].feedId == feed;
            assert id in After(s, t, e).rows && After(s, t, e).rows[id].feedId == feed;
          }
        }
      case Sweeping(cutoff, gone) =>
        if HasAny(t, feed) {
          SweepSparesNewest(t.rows, feed, cutoff, minPerFeed, gone);
        }
    }
  }

  /** With `minPerFeed >= 1`, a feed that has an entry has one after any run of fetches and sweeps. */
  lemma {:induction false} NeverEmptied(s: Settings, minPerFeed: int, t: Table, events: seq<Event>, feed: FeedId)
    requires minPerFeed >= 1 && EntryStore.Valid(t) && IsLife(s, minPerFeed, t, events) && HasAny(t, feed)
    ensures HasAny(End(s, t, events), feed)
    decreases |events|
  {
    if events != [] {
      EventKeeps(s, minPerFeed, t, events[0], feed);
      NeverEmptied(s, minPerFeed, After(s, t, events[0]), events[1..], feed);
    }
  }

  /** The initial-fetch cap cuts this fetch of `feed`. */
  ghost predicate Truncates(s: Settings, t: Table, e: Event, feed: FeedId) {
    && e.Fetch? && e.feed == feed && e.outcome.Fetched?
    && !HasAny(t, feed)
    && |Prefix(e.outcome.entries, s.maxEntriesPerFetch)| > s.maxEntriesInitial
  }

  ghost function Truncations(s: Settings, t: Table, events: seq<Event>, feed: FeedId): nat
    decreases |events|
  {
    if events == [] then 0
    else (if Truncates(s, t, events[0], feed) then 1 else 0) + Truncations(s, After(s, t, events[0]), events[1..], feed)
  }

  lemma {:induction false} NoneOnceStored(s: Settings, minPerFeed: int, t: Table, events: seq<Event>, feed: FeedId)
    requires minPerFeed >= 1 && EntryStore.Valid(t) && IsLife(s, minPerFeed, t, events) && HasAny(t, feed)
    ensures Truncations(s, t, events, feed) == 0
    decreases |events|
  {
    if events != [] {
      EventKeeps(s, minPerFeed, t, events[0], feed);
      NoneOnceStored(s, minPerFeed, After(s, t, events[0]), events[1..], feed);
    }
  }

  /** The initial-fetch cap cuts at most one fetch in the life of a feed. */
  lemma {:induction false} TruncatesAtMostOnce(s: Settings, minPerFeed: int, t: Table, events: seq<Event>, feed: FeedId)
    requires minPerFeed >= 1 && s.maxEntriesInitial >= 1
    requires EntryStore.Valid(t) && IsLife(s, minPerFeed, t, events)
    ensures Truncations(s, t, events, feed) <= 1
    decreases |events|
  {
    if events != [] {
      var e := events[0];
      EventKeeps(s, minPerFeed, t, e, feed);
      if Truncates(s, t, e, feed) {
        CutFetchStores(s, t, e, feed);
        NoneOnceStored(s, minPerFeed, After(s, t, e), events[1..], feed);
      } else {
        TruncatesAtMostOnce(s, minPerFeed, After(s, t, e), events[1..], feed);
      }
    }
  }

  lemma {:induction false} CutFetchStores(s: Settings, t: Table, e: Event, feed: FeedId)
    requires EntryStore.Valid(t) && s.maxEntriesInitial >= 1 && Truncates(s, t, e, feed)
    ensures HasAny(After(s, t, e), feed)
  {
    var es := Capped(s, t, feed, e.outcome.entries);
    UpsertFold(t, feed, es, e.now, e.dbNow);
    assert Has(After(s, t, e), feed, es[0].guid);
    var id := IdOf(After(s, t, e), feed, es[0].guid);
    assert Holds(After(s, t, e), id, feed, es[0].guid);
  }

  // ---- When the cap can cut more than once ----

  lemma {:induction false} NothingToCut(s: Settings, t: Table, events: seq<Event>, feed: FeedId)
    requires s.maxEntriesPerFetch == 0
    ensures Truncations(s, t, events, feed) == 0
    decreases |events|
  {
    if events != [] {
      NothingToCut(s, After(s, t, events[0]), events[1..], feed);
    }
  }

  /** With an initial cap of zero, a feed whose document has an entry is cut again at every fetch. */
  lemma {:induction false} ZeroCapCutsAgain(s: Settings, minPerFeed: int, feed: FeedId)
    returns (t: Table, events: seq<Event>)
    requires s.maxEntriesInitial == 0 && s.maxEntriesPerFetch >= 1
    ensures EntryStore.Valid(t) && IsLife(s, minPerFeed, t, events) && Truncations(s, t, events, feed) == 2
  {
    t := Table(map[], 0);
    var entry := ParsedEntry("", Content("", None, None, None, None));
    var e := Fetch(feed, Fetched(None, None, None, None, None, None, [entry]), 0.0, 0.0);
    assert After(s, t, e) == t;
    assert Truncates(s, t, e, feed);
    events := [e, e];
    assert events[1..] == [e] && [e][1..] == [];
    assert Truncations(s, t, [], feed) == 0 && IsLife(s, minPerFeed, t, []);
    assert Truncations(s, t, [e], feed) == 1 && IsLife(s, minPerFeed, t, [e]);
  }

  /** The initial cap cuts at most one fetch in every life if and only if it is not zero, or no fetch
      stores anything at all. */
  lemma {:induction false} CutBoundIsExact(s: Settings, minPerFeed: int, feed: FeedId)
    requires minPerFeed >= 1
    ensures (forall t, events :: EntryStore.Valid(t) && IsLife(s, minPerFeed, t, events) ==>
               Truncations(s, t, events, feed) <= 1)
       <==> s.maxEntriesInitial >= 1 || s.maxEntriesPerFetch == 0
  {
    if s.maxEntriesInitial >= 1 || s.maxEntriesPerFetch == 0 {
      forall t, events | EntryStore.Valid(t) && IsLife(s, minPerFeed, t, events)
        ensures Truncations(s, t, events, feed) <= 1
      {
        if s.maxEntriesPerFetch == 0 {
          NothingToCut(s, t, events, feed);
        } else {
          TruncatesAtMostOnce(s, minPerFeed, t, events, feed);
        }
      }
    } else {
      var t, events := ZeroCapCutsAgain(s, minPerFeed, feed);
      assert EntryStore.Valid(t) && IsLife(s, minPerFeed, t, events);
    }
  }
}
