/** `GET /v1/entries`: keyset pagination over a nullable sort column. */
module Pagination {
  import opened Common
  import opened Models
  import opened SortOrder

  // ---- SQL three-valued logic ----

  datatype Truth = Yes | No | Unknown

  function Sql(b: bool): Truth {
    if b then Yes else No
  }

  function And(a: Truth, b: Truth): Truth {
    if a == No || b == No then No else if a == Yes && b == Yes then Yes else Unknown
  }

  function Or(a: Truth, b: Truth): Truth {
    if a == Yes || b == Yes then Yes else if a == No && b == No then No else Unknown
  }

  function Less(a: Option<Time>, b: Time): Truth {
    if a.None? then Unknown else Sql(a.value < b)
  }

  function Equal(a: Option<Time>, b: Time): Truth {
    if a.None? then Unknown else Sql(a.value == b)
  }

  /** The WHERE clause a cursor adds, as evaluated for one row. */
  function KeysetClause(cursor: Key, k: Key): Truth {
    if cursor.at.None? then
      Or(And(Sql(k.at.None?), Sql(k.id < cursor.id)), Sql(k.at.Some?))
    else
      Or(Less(k.at, cursor.at.value), And(Equal(k.at, cursor.at.value), Sql(k.id < cursor.id)))
  }

  /** WHERE admits a row only on a definite yes; that is exactly being listed after the cursor. */
  lemma {:induction false} ClauseIsAfter(cursor: Key, k: Key)
    ensures KeysetClause(cursor, k) == Yes <==> Before(cursor, k)
  {
  }

  // ---- One request ----

  /** The rows a request matches before any cursor: `feed_id IN (...)`. */
  function Matching(rows: map<EntryId, EntryRow>, feeds: set<FeedId>): set<Key> {
    set id | id in rows && rows[id].feedId in feeds :: Key(rows[id].body.publishedAt, id)
  }

  datatype Page = Page(items: seq<Key>, next: Option<Key>)

  ghost function Selected(keys: set<Key>, cursor: Option<Key>): set<Key> {
    set k | k in keys && (cursor.Some? ==> KeysetClause(cursor.value, k) == Yes)
  }

  function Take(s: seq<Key>, n: nat): seq<Key> {
    if |s| <= n then s else s[..n]
  }

  /** Fetch one row more than asked for, to learn whether there is a next page. */
  ghost function PageOf(keys: set<Key>, cursor: Option<Key>, limit: nat): Page {
    PageFrom(Listing(Selected(keys, cursor)), limit)
  }

  function PageFrom(hits: seq<Key>, limit: nat): Page {
    var rows := Take(hits, limit + 1);
    var items := Take(rows, limit);
    Page(items, if |rows| > limit && items != [] then Some(items[|items| - 1]) else None)
  }

  lemma {:induction false} PageShape(l: seq<Key>, limit: nat)
    requires limit >= 1
    ensures PageFrom(l, limit) == if |l| <= limit then Page(l, None) else Page(l[..limit], Some(l[limit - 1]))
  {
    assert Take(Take(l, limit + 1), limit) == Take(l, limit);
  }

  // ---- Following cursors ----

  /** The pages a client sees when request `i` runs against `tables[i]`, up to the first page
      without a next cursor. */
  ghost function Pages(tables: seq<set<Key>>, cursor: Option<Key>, limit: nat): seq<Page> {
    if tables == [] then []
    else
      var page := PageOf(tables[0], cursor, limit);
      if page.next.None? then [page] else [page] + Pages(tables[1..], page.next, limit)
  }

  ghost predicate Complete(pages: seq<Page>) {
    pages != [] && pages[|pages| - 1].next.None?
  }

  ghost function Items(pages: seq<Page>): seq<Key> {
    if pages == [] then [] else pages[0].items + Items(pages[1..])
  }

  ghost predicate Past(cursor: Option<Key>, k: Key) {
    cursor.Some? ==> Before(cursor.value, k)
  }

  lemma {:induction false} SelectedIsPast(keys: set<Key>, cursor: Option<Key>)
    ensures Selected(keys, cursor) == set k | k in keys && Past(cursor, k)
  {
    if cursor.Some? {
      forall k { ClauseIsAfter(cursor.value, k); }
    }
  }

  /** The items of a page are keys of the table, in order, past the cursor. */
  lemma {:induction false} PageItems(keys: set<Key>, cursor: Option<Key>, limit: nat)
    requires limit >= 1
    ensures
      var page := PageOf(keys, cursor, limit);
      && Sorted(page.items)
      && (forall i :: 0 <= i < |page.items| ==> page.items[i] in keys && Past(cursor, page.items[i]))
      && (page.next.Some? ==> page.items != [] && page.next.value == page.items[|page.items| - 1])
  {
    var l := Listing(Selected(keys, cursor));
    ListedIsPast(keys, cursor, l);
    PrefixItems(keys, cursor, l, limit);
  }

  lemma {:induction false} PrefixItems(keys: set<Key>, cursor: Option<Key>, l: seq<Key>, limit: nat)
    requires limit >= 1 && Sorted(l)
    requires forall i :: 0 <= i < |l| ==> l[i] in keys && Past(cursor, l[i])
    ensures
      var page := PageFrom(l, limit);
      && Sorted(page.items)
      && (forall i :: 0 <= i < |page.items| ==> page.items[i] in keys && Past(cursor, page.items[i]))
      && (page.next.Some? ==> page.items != [] && page.next.value == page.items[|page.items| - 1])
  {
    PageShape(l, limit);
  }

  lemma {:induction false} ListedIsPast(keys: set<Key>, cursor: Option<Key>, l: seq<Key>)
    requires Elements(l) == Selected(keys, cursor)
    ensures forall i :: 0 <= i < |l| ==> l[i] in keys && Past(cursor, l[i])
    ensures forall k :: k in keys && Past(cursor, k) ==> k in l
  {
    SelectedIsPast(keys, cursor);
    forall i | 0 <= i < |l|
      ensures l[i] in keys && Past(cursor, l[i])
    {
      assert l[i] in Elements(l);
    }
    forall k | k in keys && Past(cursor, k)
      ensures k in l
    {
      assert k in Elements(l);
    }
  }

  /** A key of the table past the cursor is on the page or past its next cursor. */
  lemma {:induction false} OnPageOrPast(keys: set<Key>, cursor: Option<Key>, limit: nat, k: Key)
    requires limit >= 1 && k in keys && Past(cursor, k)
    ensures
      var page := PageOf(keys, cursor, limit);
      k in page.items || (page.next.Some? && Past(page.next, k))
  {
    var l := Listing(Selected(keys, cursor));
    PageShape(l, limit);
    ListedIsPast(keys, cursor, l);
    var j :| 0 <= j < |l| && l[j] == k;
    if |l| > limit && j < limit {
      assert l[..limit][j] == k;
    }
  }

  /** Whatever happens to the table between requests, the items of all pages taken together are
      strictly in list order: no key comes twice, and an entry can come twice only after its key
      has moved later. */
  lemma {:induction false} ItemsAdvance(tables: seq<set<Key>>, cursor: Option<Key>, limit: nat)
    requires limit >= 1
    ensures Sorted(Items(Pages(tables, cursor, limit)))
    ensures forall k :: k in Items(Pages(tables, cursor, limit)) ==> Past(cursor, k)
  {
    if tables != [] {
      var page := PageOf(tables[0], cursor, limit);
      PageItems(tables[0], cursor, limit);
      ItemsUnroll(tables, cursor, limit);
      if page.next.Some? {
        ItemsAdvance(tables[1..], page.next, limit);
        JoinPast(cursor, page, Items(Pages(tables[1..], page.next, limit)));
      }
    }
  }

  lemma {:induction false} ItemsUnroll(tables: seq<set<Key>>, cursor: Option<Key>, limit: nat)
    requires tables != []
    ensures
      var page := PageOf(tables[0], cursor, limit);
      Items(Pages(tables, cursor, limit))
        == if page.next.None? then page.items else page.items + Items(Pages(tables[1..], page.next, limit))
  {
    var page := PageOf(tables[0], cursor, limit);
    var pages := Pages(tables, cursor, limit);
    if page.next.None? {
      assert Items(pages[1..]) == [];
    } else {
      assert pages[1..] == Pages(tables[1..], page.next, limit);
    }
  }

  lemma {:induction false} JoinPast(cursor: Option<Key>, page: Page, rest: seq<Key>)
    requires page.items != [] && page.next == Some(page.items[|page.items| - 1])
    requires Sorted(page.items) && Sorted(rest)
    requires forall i :: 0 <= i < |page.items| ==> Past(cursor, page.items[i])
    requires forall k :: k in rest ==> Past(page.next, k)
    ensures Sorted(page.items + rest)
    ensures forall k :: k in page.items + rest ==> Past(cursor, k)
  {
    JoinSorted(page.items, rest);
    assert Past(cursor, page.next.value);
  }

  lemma {:induction false} JoinSorted(a: seq<Key>, b: seq<Key>)
    requires Sorted(a) && Sorted(b) && a != []
    requires forall k :: k in b ==> Before(a[|a| - 1], k)
    ensures Sorted(a + b)
  {
    forall i, j | 0 <= i < j < |a + b|
      ensures Before((a + b)[i], (a + b)[j])
    {
      if i < |a| <= j {
        assert b[j - |a|] in b;
        assert i == |a| - 1 || Before(a[i], a[|a| - 1]);
      }
    }
  }

  lemma {:induction false} PresentIsReturned(tables: seq<set<Key>>, cursor: Option<Key>, limit: nat, k: Key)
    requires limit >= 1 && Past(cursor, k)
    requires Complete(Pages(tables, cursor, limit))
    requires forall i :: 0 <= i < |Pages(tables, cursor, limit)| && i < |tables| ==> k in tables[i]
    ensures k in Items(Pages(tables, cursor, limit))
  {
    var page := PageOf(tables[0], cursor, limit);
    var pages := Pages(tables, cursor, limit);
    assert k in tables[0];
    OnPageOrPast(tables[0], cursor, limit, k);
    if k !in page.items {
      var rest := Pages(tables[1..], page.next, limit);
      assert pages == [page] + rest && pages[1..] == rest;
      assert pages[|pages| - 1] == rest[|rest| - 1];
      forall i | 0 <= i < |rest| && i < |tables[1..]|
        ensures k in tables[1..][i]
      {
        assert k in tables[i + 1];
      }
      PresentIsReturned(tables[1..], page.next, limit, k);
    }
  }

  ghost predicate OccursOnce(s: seq<Key>, k: Key) {
    exists i :: 0 <= i < |s| && s[i] == k && forall j :: 0 <= j < |s| && s[j] == k ==> j == i
  }

  ghost function Snapshots(tables: seq<map<EntryId, EntryRow>>, feeds: set<FeedId>): seq<set<Key>> {
    seq(|tables|, i requires 0 <= i < |tables| => Matching(tables[i], feeds))
  }

  /** The guarantee under mutation: over a complete walk, an entry that every request finds, with
      `published_at` unchanged, is returned exactly once; and if an id is returned twice, then two
      requests found it, under the two keys returned, the later request under the later key. */
  lemma {:induction false} WalkUnderMutation(tables: seq<map<EntryId, EntryRow>>, feeds: set<FeedId>, limit: nat)
    requires limit >= 1
    requires Complete(Pages(Snapshots(tables, feeds), None, limit))
    ensures
      var pages := Pages(Snapshots(tables, feeds), None, limit);
      var items := Items(pages);
      && (forall id, at |
            forall i :: 0 <= i < |pages| && i < |tables| ==>
              id in tables[i] && tables[i][id].feedId in feeds && tables[i][id].body.publishedAt == at
            :: OccursOnce(items, Key(at, id)))
      && (forall i, j :: 0 <= i < j < |items| && items[i].id == items[j].id ==>
            MovedLater(tables, feeds, items[i], items[j]))
  {
    var snapshots := Snapshots(tables, feeds);
    var pages := Pages(snapshots, None, limit);
    var items := Items(pages);
    ItemsAdvance(snapshots, None, limit);
    forall id, at |
      forall i :: 0 <= i < |pages| && i < |tables| ==>
        id in tables[i] && tables[i][id].feedId in feeds && tables[i][id].body.publishedAt == at
      ensures OccursOnce(items, Key(at, id))
    {
      PresentIsReturned(snapshots, None, limit, Key(at, id));
      OnceInSorted(items, Key(at, id));
    }
    forall i, j | 0 <= i < j < |items| && items[i].id == items[j].id
      ensures MovedLater(tables, feeds, items[i], items[j])
    {
      RepeatMoved(tables, feeds, limit, pages, i, j);
    }
  }

  /** The entry of the two keys was at `a` for one request, and at `b`, later in the order, for a
      later one. */
  ghost predicate MovedLater(tables: seq<map<EntryId, EntryRow>>, feeds: set<FeedId>, a: Key, b: Key) {
    && Before(a, b)
    && exists p, q :: 0 <= p < q < |tables| && FoundAt(tables[p], feeds, a) && FoundAt(tables[q], feeds, b)
  }

  ghost predicate FoundAt(rows: map<EntryId, EntryRow>, feeds: set<FeedId>, k: Key) {
    k.id in rows && rows[k.id].feedId in feeds && rows[k.id].body.publishedAt == k.at
  }

  lemma {:induction false} RepeatMoved(tables: seq<map<EntryId, EntryRow>>, feeds: set<FeedId>, limit: nat,
                                       pages: seq<Page>, i: nat, j: nat)
    requires pages == Pages(Snapshots(tables, feeds), None, limit)
    requires i < j < |Items(pages)|
    requires Items(pages)[i].id == Items(pages)[j].id && Before(Items(pages)[i], Items(pages)[j])
    ensures MovedLater(tables, feeds, Items(pages)[i], Items(pages)[j])
  {
    var p, q := OnPages(pages, i, j);
    PagesServe(Snapshots(tables, feeds), None, limit);
    FoundTwice(tables, feeds, Items(pages)[i], Items(pages)[j], p, q);
  }

  lemma {:induction false} FoundTwice(tables: seq<map<EntryId, EntryRow>>, feeds: set<FeedId>, a: Key, b: Key,
                                      p: nat, q: nat)
    requires p <= q < |tables| && a in Matching(tables[p], feeds) && b in Matching(tables[q], feeds)
    requires a.id == b.id && Before(a, b)
    ensures MovedLater(tables, feeds, a, b)
  {
    MatchingFound(tables[p], feeds, a);
    MatchingFound(tables[q], feeds, b);
  }

  lemma {:induction false} MatchingFound(rows: map<EntryId, EntryRow>, feeds: set<FeedId>, k: Key)
    ensures k in Matching(rows, feeds) <==> FoundAt(rows, feeds, k)
  {
  }

  /** Every item is on a page, and later items are on no earlier page. */
  lemma {:induction false} OnPages(pages: seq<Page>, i: nat, j: nat) returns (p: nat, q: nat)
    requires i <= j < |Items(pages)|
    ensures p <= q < |pages|
    ensures Items(pages)[i] in pages[p].items && Items(pages)[j] in pages[q].items
    decreases |pages|
  {
    var n := |pages[0].items|;
    if j < n {
      p, q := 0, 0;
    } else {
      p, q := OnPages(pages[1..], if i < n then j - n else i - n, j - n);
      p, q := if i < n then 0 else p + 1, q + 1;
    }
  }

  /** Each request finds the items it returns. */
  lemma {:induction false} PagesServe(tables: seq<set<Key>>, cursor: Option<Key>, limit: nat)
    ensures
      var pages := Pages(tables, cursor, limit);
      && |pages| <= |tables|
      && forall p :: 0 <= p < |pages| ==> ServedFrom(pages[p], tables[p])
    decreases |tables|
  {
    if tables != [] {
      var page := PageOf(tables[0], cursor, limit);
      ItemsFromTable(tables[0], cursor, limit);
      if page.next.Some? {
        PagesServe(tables[1..], page.next, limit);
        ServedNext(page, Pages(tables[1..], page.next, limit), tables);
      }
    }
  }

  lemma {:induction false} ServedNext(page: Page, rest: seq<Page>, tables: seq<set<Key>>)
    requires tables != [] && ServedFrom(page, tables[0]) && |rest| < |tables|
    requires forall p :: 0 <= p < |rest| ==> ServedFrom(rest[p], tables[1..][p])
    ensures
      var pages := [page] + rest;
      forall p :: 0 <= p < |pages| ==> ServedFrom(pages[p], tables[p])
  {
  }

  ghost predicate ServedFrom(page: Page, keys: set<Key>) {
    forall k :: k in page.items ==> k in keys
  }

  lemma {:induction false} ItemsFromTable(keys: set<Key>, cursor: Option<Key>, limit: nat)
    ensures ServedFrom(PageOf(keys, cursor, limit), keys)
  {
    TakenFrom(Listing(Selected(keys, cursor)), limit);
  }

  lemma {:induction false} TakenFrom(hits: seq<Key>, limit: nat)
    ensures ServedFrom(PageFrom(hits, limit), Elements(hits))
  {
    forall k | k in PageFrom(hits, limit).items
      ensures k in Elements(hits)
    {
      var i :| 0 <= i < |PageFrom(hits, limit).items| && PageFrom(hits, limit).items[i] == k;
      assert hits[i] == k;
    }
  }

  lemma {:induction false} OnceInSorted(s: seq<Key>, k: Key)
    requires Sorted(s) && k in s
    ensures OccursOnce(s, k)
  {
    var i :| 0 <= i < |s| && s[i] == k;
    assert forall j :: 0 <= j < |s| && s[j] == k ==> j == i;
  }

  // ---- A table that does not change ----

  /** A list cut into pieces of `limit`; the empty list is one empty piece. */
  ghost function Chunks(l: seq<Key>, limit: nat): seq<seq<Key>>
    requires limit >= 1
  {
    if |l| <= limit then [l] else [l[..limit]] + Chunks(l[limit..], limit)
  }

  ghost function Bodies(pages: seq<Page>): seq<seq<Key>> {
    seq(|pages|, i requires 0 <= i < |pages| => pages[i].items)
  }

  /** The pages of a complete walk that cuts `l` into chunks. */
  ghost predicate WalksChunks(pages: seq<Page>, l: seq<Key>, limit: nat)
    requires limit >= 1
  {
    Complete(pages) && Bodies(pages) == Chunks(l, limit) && Items(pages) == l
  }

  lemma {:induction false} WalkIsChunking(keys: set<Key>, tables: seq<set<Key>>, cursor: Option<Key>, limit: nat,
                                          l: seq<Key>)
    requires limit >= 1 && l == Listing(Selected(keys, cursor))
    requires forall i :: 0 <= i < |tables| ==> tables[i] == keys
    requires |tables| >= |Chunks(l, limit)|
    ensures WalksChunks(Pages(tables, cursor, limit), l, limit)
    decreases |tables|, 0
  {
    FirstPage(keys, tables, cursor, limit, l);
    if |l| <= limit {
      OnlyPage(l, limit);
    } else {
      RestOfWalk(keys, tables[1..], cursor, limit, l);
      FullPageFirst(l, limit, Page(l[..limit], Some(l[limit - 1])), Pages(tables[1..], Some(l[limit - 1]), limit));
    }
  }

  lemma {:induction false} RestOfWalk(keys: set<Key>, rest: seq<set<Key>>, cursor: Option<Key>, limit: nat, l: seq<Key>)
    requires limit >= 1 && l == Listing(Selected(keys, cursor)) && |l| > limit
    requires forall i :: 0 <= i < |rest| ==> rest[i] == keys
    requires |rest| + 1 >= |Chunks(l, limit)|
    ensures WalksChunks(Pages(rest, Some(l[limit - 1]), limit), l[limit..], limit)
    decreases |rest|, 1
  {
    NextSelects(keys, cursor, limit, l);
    ChunksRest(l, limit);
    WalkIsChunking(keys, rest, Some(l[limit - 1]), limit, l[limit..]);
  }

  lemma {:induction false} ChunksRest(l: seq<Key>, limit: nat)
    requires 1 <= limit < |l|
    ensures |Chunks(l, limit)| == 1 + |Chunks(l[limit..], limit)|
  {
  }

  lemma {:induction false} FirstPage(keys: set<Key>, tables: seq<set<Key>>, cursor: Option<Key>, limit: nat,
                                     l: seq<Key>)
    requires limit >= 1 && l == Listing(Selected(keys, cursor)) && tables != [] && tables[0] == keys
    ensures Pages(tables, cursor, limit) ==
              if |l| <= limit then [Page(l, None)]
              else [Page(l[..limit], Some(l[limit - 1]))] + Pages(tables[1..], Some(l[limit - 1]), limit)
  {
    PageShape(l, limit);
  }

  lemma {:induction false} OnlyPage(l: seq<Key>, limit: nat)
    requires limit >= 1 && |l| <= limit
    ensures WalksChunks([Page(l, None)], l, limit)
  {
    var pages := [Page(l, None)];
    assert Items(pages[1..]) == [];
    assert Bodies(pages) == [l];
  }

  lemma {:induction false} FullPageFirst(l: seq<Key>, limit: nat, page: Page, rest: seq<Page>)
    requires 1 <= limit < |l| && page.items == l[..limit] && WalksChunks(rest, l[limit..], limit)
    ensures WalksChunks([page] + rest, l, limit)
  {
    var pages := [page] + rest;
    assert pages[1..] == rest && pages[|pages| - 1] == rest[|rest| - 1];
    assert Bodies(pages) == [page.items] + Bodies(rest);
  }

  /** After a full page the next cursor selects exactly the rest of the listing. */
  lemma {:induction false} NextSelects(keys: set<Key>, cursor: Option<Key>, limit: nat, l: seq<Key>)
    requires limit >= 1 && l == Listing(Selected(keys, cursor)) && |l| > limit
    ensures Listing(Selected(keys, Some(l[limit - 1]))) == l[limit..]
  {
    ListingCut(Selected(keys, cursor), limit - 1);
    assert l[limit - 1] in Elements(l);
    AfterSelected(keys, cursor, l[limit - 1]);
  }

  lemma {:induction false} AfterSelected(keys: set<Key>, cursor: Option<Key>, last: Key)
    requires last in Selected(keys, cursor)
    ensures After(Selected(keys, cursor), last) == Selected(keys, Some(last))
  {
    SelectedIsPast(keys, cursor);
    SelectedIsPast(keys, Some(last));
  }

  function PageCount(n: nat, limit: nat): nat
    requires limit >= 1
  {
    if n == 0 then 1 else CeilDiv(n, limit)
  }

  lemma {:induction false} ChunkCount(l: seq<Key>, limit: nat)
    requires limit >= 1
    ensures |Chunks(l, limit)| == PageCount(|l|, limit)
  {
    if |l| <= limit {
      DivUnique(|l| + limit - 1, limit, if l == [] then 0 else 1, if l == [] then limit - 1 else |l| - 1);
    } else {
      ChunkCount(l[limit..], limit);
      var n := |l| - limit;
      var q, r := (n + limit - 1) / limit, (n + limit - 1) % limit;
      assert (q + 1) * limit == q * limit + limit;
      DivUnique(|l| + limit - 1, limit, q + 1, r);
    }
  }

  /** Piece `j` holds positions `j * limit` up to, not including, `(j + 1) * limit`. */
  lemma {:induction false} ChunkSlice(l: seq<Key>, limit: nat, j: nat)
    requires limit >= 1 && j < |Chunks(l, limit)|
    ensures 0 <= j * limit <= |l|
    ensures Chunks(l, limit)[j] == Take(l[j * limit..], limit)
  {
    if |l| > limit && j > 0 {
      ChunkSlice(l[limit..], limit, j - 1);
      assert j * limit == (j - 1) * limit + limit;
      assert l[limit..][(j - 1) * limit..] == l[j * limit..];
    } else {
      assert j * limit == 0;
    }
  }

  /** On a fixed table, following cursors from the start lists every matching entry, NULLs first,
      then newest first, page by page, in `max(1, ceil(n / limit))` requests. */
  lemma {:induction false} StaticWalk(rows: map<EntryId, EntryRow>, feeds: set<FeedId>, limit: nat,
                                      tables: seq<set<Key>>)
    requires limit >= 1
    requires forall i :: 0 <= i < |tables| ==> tables[i] == Matching(rows, feeds)
    requires |tables| >= PageCount(|Matching(rows, feeds)|, limit)
    ensures
      var l := Listing(Matching(rows, feeds));
      var pages := Pages(tables, None, limit);
      && Complete(pages)
      && |pages| == PageCount(|l|, limit)
      && Items(pages) == l
      && forall j :: 0 <= j < |pages| ==>
           0 <= j * limit <= |l| && pages[j].items == Take(l[j * limit..], limit)
  {
    var keys := Matching(rows, feeds);
    var l := Listing(keys);
    var pages := Pages(tables, None, limit);
    assert Selected(keys, None) == keys;
    ChunkCount(l, limit);
    WalkIsChunking(keys, tables, None, limit, l);
    forall j | 0 <= j < |pages|
      ensures 0 <= j * limit <= |l| && pages[j].items == Take(l[j * limit..], limit)
    {
      ChunkSlice(l, limit, j);
      assert Bodies(pages)[j] == pages[j].items;
    }
  }

  /** The order of the pages, spelled out: undated entries first, then the latest date; equals by the larger
      id. */
  predicate ListedBefore(a: Key, b: Key) {
    || (a.at == None && b.at.Some?)
    || (a.at == None && b.at == None && a.id > b.id)
    || (a.at.Some? && b.at.Some? && (a.at.value > b.at.value || (a.at.value == b.at.value && a.id > b.id)))
  }

  /** So a walk over a fixed table returns the entries of the feeds asked for, all of them and no others,
      with their dates, in that order. */
  lemma {:induction false} WalkReturnsAll(rows: map<EntryId, EntryRow>, feeds: set<FeedId>, limit: nat,
                                          tables: seq<set<Key>>)
    requires limit >= 1
    requires forall i :: 0 <= i < |tables| ==> tables[i] == Matching(rows, feeds)
    requires |tables| >= PageCount(|Matching(rows, feeds)|, limit)
    ensures
      var items := Items(Pages(tables, None, limit));
      && (forall i, j :: 0 <= i < j < |items| ==> ListedBefore(items[i], items[j]))
      && (forall k :: k in items <==>
            k.id in rows && rows[k.id].feedId in feeds && rows[k.id].body.publishedAt == k.at)
  {
    StaticWalk(rows, feeds, limit, tables);
    var items := Items(Pages(tables, None, limit));
    forall k
      ensures k in items <==> k.id in rows && rows[k.id].feedId in feeds && rows[k.id].body.publishedAt == k.at
    {
      MatchingFound(rows, feeds, k);
      assert k in Elements(items) <==> k in Matching(rows, feeds);
    }
    forall i, j | 0 <= i < j < |items|
      ensures ListedBefore(items[i], items[j])
    {
      assert Before(items[i], items[j]);
    }
  }
}
