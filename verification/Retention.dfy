/** The retention sweep: keep the time window and the newest `minPerFeed` of each feed. */
module Retention {
  import opened Common
  import opened Models
  import opened SortOrder
  import opened EntryStore

  type Rows = map<EntryId, EntryRow>

  /** The window-function sort key: `fetched_at DESC, id DESC`. */
  function KeyOf(rows: Rows, id: EntryId): Key
    requires id in rows
  {
    Key(Some(rows[id].fetchedAt), id)
  }

  /** `PARTITION BY feed_id`. */
  function Partition(rows: Rows, feed: FeedId): set<Key> {
    set id | id in rows && rows[id].feedId == feed :: KeyOf(rows, id)
  }

  /** `row_number()` within the partition. */
  ghost function RowNumber(rows: Rows, id: EntryId): nat
    requires id in rows
  {
    |UpTo(Partition(rows, rows[id].feedId), KeyOf(rows, id))|
  }

  ghost predicate Kept(rows: Rows, cutoff: Time, minPerFeed: int, id: EntryId)
    requires id in rows
  {
    rows[id].fetchedAt >= cutoff || RowNumber(rows, id) <= minPerFeed
  }

  ghost function Victims(rows: Rows, cutoff: Time, minPerFeed: int): set<EntryId> {
    set id | id in rows && !Kept(rows, cutoff, minPerFeed, id)
  }

  /** The unbatched delete. */
  ghost function Swept(rows: Rows, cutoff: Time, minPerFeed: int): Rows {
    rows - Victims(rows, cutoff, minPerFeed)
  }

  // ---- The keep set of one feed is a prefix of its listing ----

  /** Row number and list position are the same thing. */
  lemma {:induction false} RowNumberIsPosition(rows: Rows, feed: FeedId, i: nat)
    requires i < |Partition(rows, feed)|
    ensures
      var id := Listing(Partition(rows, feed))[i].id;
      && id in rows && rows[id].feedId == feed
      && KeyOf(rows, id) == Listing(Partition(rows, feed))[i]
      && RowNumber(rows, id) == i + 1
  {
    var l := Listing(Partition(rows, feed));
    assert l[i] in Elements(l);
    ListingCut(Partition(rows, feed), i);
  }

  function Window(rows: Rows, feed: FeedId, cutoff: Time): set<Key> {
    set k | k in Partition(rows, feed) && k.at.value >= cutoff
  }

  ghost function WindowCount(rows: Rows, feed: FeedId, cutoff: Time): nat {
    |Window(rows, feed, cutoff)|
  }

  /** `max(min(minPerFeed, n), window count)`. */
  ghost function KeepLength(rows: Rows, feed: FeedId, cutoff: Time, minPerFeed: int): nat {
    var n := |Partition(rows, feed)|;
    var top: nat := if minPerFeed < 0 then 0 else if minPerFeed < n then minPerFeed else n;
    var window := WindowCount(rows, feed, cutoff);
    if top >= window then top else window
  }

  lemma {:induction false} KeepIsPrefix(rows: Rows, feed: FeedId, cutoff: Time, minPerFeed: int)
    ensures
      var l := Listing(Partition(rows, feed));
      && KeepLength(rows, feed, cutoff, minPerFeed) <= |l|
      && forall i :: 0 <= i < |l| ==>
           l[i].id in rows
           && (Kept(rows, cutoff, minPerFeed, l[i].id) <==> i < KeepLength(rows, feed, cutoff, minPerFeed))
  {
    var l := Listing(Partition(rows, feed));
    WindowIsPrefix(rows, feed, cutoff);
    forall i | 0 <= i < |l|
      ensures l[i].id in rows
      ensures Kept(rows, cutoff, minPerFeed, l[i].id) <==> i < KeepLength(rows, feed, cutoff, minPerFeed)
    {
      KeptAt(rows, feed, cutoff, minPerFeed, i);
    }
  }

  lemma {:induction false} WindowIsUpward(rows: Rows, feed: FeedId, cutoff: Time)
    ensures Window(rows, feed, cutoff) <= Partition(rows, feed)
    ensures forall a, b | a in Partition(rows, feed) && b in Window(rows, feed, cutoff) ::
              Before(a, b) ==> a in Window(rows, feed, cutoff)
  {
  }

  lemma {:induction false} InWindow(rows: Rows, feed: FeedId, cutoff: Time, k: Key)
    requires k in Partition(rows, feed)
    ensures k in Window(rows, feed, cutoff) <==> k.at.Some? && k.at.value >= cutoff
  {
  }

  lemma {:induction false} WindowIsPrefix(rows: Rows, feed: FeedId, cutoff: Time)
    ensures
      var l := Listing(Partition(rows, feed));
      && WindowCount(rows, feed, cutoff) <= |l| == |Partition(rows, feed)|
      && forall i :: 0 <= i < |l| ==>
           (l[i].at.Some? && l[i].at.value >= cutoff <==> i < WindowCount(rows, feed, cutoff))
  {
    var keys := Partition(rows, feed);
    var l := Listing(keys);
    WindowIsUpward(rows, feed, cutoff);
    UpwardIsPrefix(keys, Window(rows, feed, cutoff));
    forall i | 0 <= i < |l|
      ensures l[i].at.Some? && l[i].at.value >= cutoff <==> i < WindowCount(rows, feed, cutoff)
    {
      assert l[i] in Elements(l);
      InWindow(rows, feed, cutoff, l[i]);
    }
  }

  /** A position is kept by its rank, or by its key being in the window. */
  lemma {:induction false} KeptAt(rows: Rows, feed: FeedId, cutoff: Time, minPerFeed: int, i: nat)
    requires i < |Partition(rows, feed)|
    ensures
      var k := Listing(Partition(rows, feed))[i];
      && k.id in rows && k in Partition(rows, feed) && k.at.Some?
      && (Kept(rows, cutoff, minPerFeed, k.id) <==> k.at.value >= cutoff || i < minPerFeed)
  {
    var l := Listing(Partition(rows, feed));
    RowNumberIsPosition(rows, feed, i);
    assert l[i] in Elements(l);
  }

  // ---- The keep set, row by row ----

  /** The rows of the same feed that were fetched later, or at the same instant under a larger id. */
  function Newer(rows: Rows, id: EntryId): set<EntryId>
    requires id in rows
  {
    set x | x in rows && rows[x].feedId == rows[id].feedId
            && (rows[x].fetchedAt > rows[id].fetchedAt || (rows[x].fetchedAt == rows[id].fetchedAt && x > id))
  }

  lemma {:induction false} KeyCount(rows: Rows, ids: set<EntryId>)
    requires ids <= rows.Keys
    ensures |set x | x in ids :: KeyOf(rows, x)| == |ids|
  {
    if ids != {} {
      var id :| id in ids;
      KeyCount(rows, ids - {id});
      assert (set x | x in ids :: KeyOf(rows, x)) == (set x | x in ids - {id} :: KeyOf(rows, x)) + {KeyOf(rows, id)};
      assert KeyOf(rows, id) !in (set x | x in ids - {id} :: KeyOf(rows, x));
    }
  }

  lemma {:induction false} RankIsNewer(rows: Rows, id: EntryId)
    requires id in rows
    ensures RowNumber(rows, id) == |Newer(rows, id)| + 1
  {
    var upTo, ids := UpTo(Partition(rows, rows[id].feedId), KeyOf(rows, id)), Newer(rows, id) + {id};
    KeyCount(rows, ids);
    forall k
      ensures k in upTo <==> k in set x | x in ids :: KeyOf(rows, x)
    {
      if k in upTo {
        assert k == KeyOf(rows, k.id) && k.id in ids;
      }
    }
    assert upTo == set x | x in ids :: KeyOf(rows, x);
  }

  /** A row is kept if and only if it is in the window, or fewer than `minPerFeed` rows of its feed are
      newer. */
  lemma {:induction false} KeptByAgeOrRank(rows: Rows, cutoff: Time, minPerFeed: int, id: EntryId)
    requires id in rows
    ensures Kept(rows, cutoff, minPerFeed, id) <==> rows[id].fetchedAt >= cutoff || |Newer(rows, id)| < minPerFeed
  {
    RankIsNewer(rows, id);
  }

  // ---- Deleting victims does not change who is a victim ----

  /** The rows that keep a victim out of the top outlive any deletion of victims. */
  lemma {:induction false} VictimStays(rows: Rows, gone: set<EntryId>, cutoff: Time, minPerFeed: int, id: EntryId)
    requires gone <= Victims(rows, cutoff, minPerFeed)
    requires id in Victims(rows, cutoff, minPerFeed) && id !in gone
    ensures RowNumber(rows - gone, id) > minPerFeed
  {
    if minPerFeed >= 0 {
      var feed := rows[id].feedId;
      var keys := Partition(rows, feed);
      var p := PositionOf(rows, id);
      forall i | 0 <= i < minPerFeed || i == p
        ensures Listing(keys)[i] in Partition(rows - gone, feed)
      {
        TopSurvives(rows, gone, cutoff, minPerFeed, feed, i, id);
      }
      CountUpTo(keys, Partition(rows - gone, feed), minPerFeed, p);
    }
  }

  lemma {:induction false} PositionOf(rows: Rows, id: EntryId) returns (p: nat)
    requires id in rows
    ensures p < |Partition(rows, rows[id].feedId)| && RowNumber(rows, id) == p + 1
    ensures Listing(Partition(rows, rows[id].feedId))[p] == KeyOf(rows, id)
  {
    var l := Listing(Partition(rows, rows[id].feedId));
    assert KeyOf(rows, id) in Elements(l);
    p :| 0 <= p < |l| && l[p] == KeyOf(rows, id);
    RowNumberIsPosition(rows, rows[id].feedId, p);
  }

  /** If the first `n` keys and a later one survive, the later one still has `n` ahead of it. */
  lemma {:induction false} CountUpTo(keys: set<Key>, left: set<Key>, n: nat, p: nat)
    requires n <= p < |keys|
    requires forall i | 0 <= i < n || i == p :: Listing(keys)[i] in left
    ensures |UpTo(left, Listing(keys)[p])| > n
  {
    var l := Listing(keys);
    SortedWithin(l[..n] + [l[p]], UpTo(left, l[p]));
  }

  lemma {:induction false} SortedWithin(s: seq<Key>, keys: set<Key>)
    requires Sorted(s) && forall i :: 0 <= i < |s| ==> s[i] in keys
    ensures |s| <= |keys|
  {
    SortedIsListing(s);
    SubsetCount(Elements(s), keys);
  }

  lemma {:induction false} TopSurvives(rows: Rows, gone: set<EntryId>, cutoff: Time, minPerFeed: int, feed: FeedId,
                                       i: nat, id: EntryId)
    requires gone <= Victims(rows, cutoff, minPerFeed) && id in rows && id !in gone
    requires i < |Partition(rows, feed)|
    requires i < minPerFeed || Listing(Partition(rows, feed))[i] == KeyOf(rows, id)
    ensures Listing(Partition(rows, feed))[i] in Partition(rows - gone, feed)
  {
    RowNumberIsPosition(rows, feed, i);
    var k := Listing(Partition(rows, feed))[i];
    assert k.id in rows - gone;
    assert k == KeyOf(rows - gone, k.id);
  }

  lemma {:induction false} RowNumberShrinks(rows: Rows, gone: set<EntryId>, id: EntryId)
    requires id in rows && id !in gone
    ensures RowNumber(rows - gone, id) <= RowNumber(rows, id)
  {
    var key := KeyOf(rows, id);
    var feed := rows[id].feedId;
    forall k | k in Partition(rows - gone, feed)
      ensures k in Partition(rows, feed)
    {
      assert k == KeyOf(rows, k.id);
    }
    SubsetCount(UpTo(Partition(rows - gone, feed), key), UpTo(Partition(rows, feed), key));
  }

  /** Deleting any set of victims leaves every survivor's fate as it was. */
  lemma {:induction false} KeepIsStable(rows: Rows, gone: set<EntryId>, cutoff: Time, minPerFeed: int)
    requires gone <= Victims(rows, cutoff, minPerFeed)
    ensures forall id :: id in rows - gone ==>
              (Kept(rows - gone, cutoff, minPerFeed, id) <==> Kept(rows, cutoff, minPerFeed, id))
    ensures Victims(rows - gone, cutoff, minPerFeed) == Victims(rows, cutoff, minPerFeed) - gone
    ensures Swept(rows - gone, cutoff, minPerFeed) == Swept(rows, cutoff, minPerFeed)
  {
    forall id | id in rows - gone
      ensures Kept(rows - gone, cutoff, minPerFeed, id) <==> Kept(rows, cutoff, minPerFeed, id)
    {
      if Kept(rows, cutoff, minPerFeed, id) {
        RowNumberShrinks(rows, gone, id);
      } else {
        VictimStays(rows, gone, cutoff, minPerFeed, id);
      }
    }
  }

  // ---- Batched passes ----

  /** What one batched pass may delete: any `batch` victims, or all of them if fewer are left. */
  ghost predicate IsBatch(rows: Rows, cutoff: Time, minPerFeed: int, batch: nat, pick: set<EntryId>) {
    var victims := Victims(rows, cutoff, minPerFeed);
    pick <= victims && |pick| == if |victims| <= batch then |victims| else batch
  }

  ghost predicate ArePasses(rows: Rows, cutoff: Time, minPerFeed: int, batch: nat, picks: seq<set<EntryId>>) {
    picks == [] || (IsBatch(rows, cutoff, minPerFeed, batch, picks[0])
                    && ArePasses(rows - picks[0], cutoff, minPerFeed, batch, picks[1..]))
  }

  ghost function AfterPasses(rows: Rows, picks: seq<set<EntryId>>): Rows {
    if picks == [] then rows else AfterPasses(rows - picks[0], picks[1..])
  }

  /** However the victims are picked, `m` passes leave `max(0, victims - m * batch)` of them and
      stay on the way to the one-shot result. */
  lemma {:induction false} PassesConverge(rows: Rows, cutoff: Time, minPerFeed: int, batch: nat,
                                          picks: seq<set<EntryId>>)
    requires ArePasses(rows, cutoff, minPerFeed, batch, picks)
    ensures
      var left := AfterPasses(rows, picks);
      var v := |Victims(rows, cutoff, minPerFeed)|;
      && Swept(left, cutoff, minPerFeed) == Swept(rows, cutoff, minPerFeed)
      && |Victims(left, cutoff, minPerFeed)| == Remaining(v, batch, |picks|)
  {
    if picks != [] {
      FirstPass(rows, cutoff, minPerFeed, batch, picks[0]);
      PassesConverge(rows - picks[0], cutoff, minPerFeed, batch, picks[1..]);
      RemainingStep(|Victims(rows, cutoff, minPerFeed)|, batch, |picks| - 1);
    }
  }

  lemma {:induction false} FirstPass(rows: Rows, cutoff: Time, minPerFeed: int, batch: nat, pick: set<EntryId>)
    requires IsBatch(rows, cutoff, minPerFeed, batch, pick)
    ensures
      var v := |Victims(rows, cutoff, minPerFeed)|;
      && Swept(rows - pick, cutoff, minPerFeed) == Swept(rows, cutoff, minPerFeed)
      && |Victims(rows - pick, cutoff, minPerFeed)| == if v <= batch then 0 else v - batch
  {
    var victims := Victims(rows, cutoff, minPerFeed);
    KeepIsStable(rows, pick, cutoff, minPerFeed);
    assert victims == pick + (victims - pick);
  }

  function Remaining(v: nat, batch: nat, m: nat): nat {
    if v <= m * batch then 0 else v - m * batch
  }

  lemma {:induction false} RemainingStep(v: nat, batch: nat, m: nat)
    ensures Remaining(v, batch, m + 1) == Remaining(if v <= batch then 0 else v - batch, batch, m)
  {
    assert (m + 1) * batch == m * batch + batch && 0 <= m * batch;
  }

  /** The batched sweep reaches the one-shot result after `ceil(victims / batch)` deleting passes
      and not before. */
  lemma {:induction false} BatchedSweepIsOneShot(rows: Rows, cutoff: Time, minPerFeed: int, batch: nat,
                                                 picks: seq<set<EntryId>>)
    requires batch >= 1 && ArePasses(rows, cutoff, minPerFeed, batch, picks)
    ensures AfterPasses(rows, picks) == Swept(rows, cutoff, minPerFeed)
       <==> |picks| >= CeilDiv(|Victims(rows, cutoff, minPerFeed)|, batch)
  {
    var left := AfterPasses(rows, picks);
    var v := |Victims(rows, cutoff, minPerFeed)|;
    PassesConverge(rows, cutoff, minPerFeed, batch, picks);
    CeilDivLeast(v, batch, |picks|);
    assert left == Swept(left, cutoff, minPerFeed) <==> Victims(left, cutoff, minPerFeed) == {} by {
      if id :| id in Victims(left, cutoff, minPerFeed) {
        assert id in left && id !in Swept(left, cutoff, minPerFeed);
      }
    }
  }

  /** A later cutoff absorbs an earlier sweep. */
  lemma {:induction false} SweepsCompose(rows: Rows, c1: Time, c2: Time, minPerFeed: int)
    requires c1 <= c2
    ensures Swept(Swept(rows, c1, minPerFeed), c2, minPerFeed) == Swept(rows, c2, minPerFeed)
  {
    KeepIsStable(rows, Victims(rows, c1, minPerFeed), c2, minPerFeed);
  }

  // ---- The statement ----

  /** `batchSize == 0` deletes every victim in one statement, otherwise one batch of them. */
  method Sweep(table: EntryTable, cutoff: Time, minPerFeed: int, batchSize: nat) returns (n: nat)
    modifies table`rows
    ensures batchSize == 0 ==> table.rows == Swept(old(table.rows), cutoff, minPerFeed)
    ensures batchSize > 0 ==>
              exists pick :: IsBatch(old(table.rows), cutoff, minPerFeed, batchSize, pick)
                             && table.rows == old(table.rows) - pick && n == |pick|
    ensures n == |old(table.rows)| - |table.rows|
    ensures forall id :: id in table.rows ==> id in old(table.rows) && table.rows[id] == old(table.rows)[id]
    ensures forall id :: id in old(table.rows) ==>
              (old(table.rows)[id].fetchedAt >= cutoff || |Newer(old(table.rows), id)| < minPerFeed
               ==> id in table.rows)
    ensures batchSize == 0 ==> forall id :: id in table.rows ==>
              old(table.rows)[id].fetchedAt >= cutoff || |Newer(old(table.rows), id)| < minPerFeed
  {
    forall id | id in table.rows {
      KeptByAgeOrRank(table.rows, cutoff, minPerFeed, id);
    }
    var victims := FindVictims(table.rows, cutoff, minPerFeed);
    var pick := victims;
    if batchSize > 0 {
      pick := Limit(victims, batchSize);
      assert IsBatch(table.rows, cutoff, minPerFeed, batchSize, pick);
    }
    n := |pick|;
    RemovalCount(table.rows, pick);
    table.rows := table.rows - pick;
  }

  lemma {:induction false} RemovalCount(rows: Rows, pick: set<EntryId>)
    requires pick <= rows.Keys
    ensures |rows - pick| == |rows| - |pick|
  {
    assert rows.Keys == (rows - pick).Keys + pick;
  }

  /** One sweep by the settings: nothing fetched in the last `days` days is deleted. */
  method SweepAged(table: EntryTable, now: Time, days: nat, minPerFeed: int, batchSize: nat) returns (n: nat)
    modifies table`rows
    ensures n == |old(table.rows)| - |table.rows|
    ensures forall id :: id in table.rows ==> id in old(table.rows) && table.rows[id] == old(table.rows)[id]
    ensures forall id :: id in old(table.rows) && id !in table.rows ==>
              && now - old(table.rows)[id].fetchedAt > days as real * 86400.0
              && |Newer(old(table.rows), id)| >= minPerFeed
    ensures batchSize == 0 ==>
              forall id :: id in old(table.rows) && id in table.rows ==>
                || now - old(table.rows)[id].fetchedAt <= days as real * 86400.0
                || |Newer(old(table.rows), id)| < minPerFeed
    ensures batchSize > 0 ==> n <= batchSize
  {
    n := Sweep(table, now - days as real * 86400.0, minPerFeed, batchSize);
  }

  /** `LIMIT batchSize` without an ORDER BY: any that many. */
  method Limit(ids: set<EntryId>, limit: nat) returns (pick: set<EntryId>)
    ensures pick <= ids
    ensures |pick| == if |ids| <= limit then |ids| else limit
  {
    pick := {};
    var rest := ids;
    while rest != {} && |pick| < limit
      invariant pick + rest == ids && |pick| + |rest| == |ids| && |pick| <= limit
      decreases |rest|
    {
      var id :| id in rest;
      assert pick !! rest by {
        assert |pick + rest| == |pick| + |rest| - |pick * rest|;
      }
      pick, rest := pick + {id}, rest - {id};
    }
  }

  /** The sub-select: counts, for every aged-out row, the rows of its feed listed up to it. */
  method FindVictims(rows: Rows, cutoff: Time, minPerFeed: int) returns (victims: set<EntryId>)
    ensures victims == Victims(rows, cutoff, minPerFeed)
  {
    victims := {};
    var rest := rows.Keys;
    while rest != {}
      invariant rest <= rows.Keys
      invariant victims == set id | id in rows.Keys - rest && !Kept(rows, cutoff, minPerFeed, id)
      decreases |rest|
    {
      var id :| id in rest;
      var ahead := set k | k in Partition(rows, rows[id].feedId) && !Before(KeyOf(rows, id), k);
      assert ahead == UpTo(Partition(rows, rows[id].feedId), KeyOf(rows, id));
      if rows[id].fetchedAt < cutoff && |ahead| > minPerFeed {
        victims := victims + {id};
      }
      rest := rest - {id};
    }
  }
}
