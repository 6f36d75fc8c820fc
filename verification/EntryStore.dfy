/** The `entries` table and the upsert that fills it. */
module EntryStore {
  import opened Common
  import opened Models

  /** Rows by primary key, and the sequence that issues keys.  Every INSERT draws from the
      sequence, whether it ends as an insert, an update or nothing. */
  datatype Table = Table(rows: map<EntryId, EntryRow>, nextId: EntryId)

  predicate Holds(t: Table, id: EntryId, feed: FeedId, guid: string) {
    id in t.rows && t.rows[id].feedId == feed && t.rows[id].guid == guid
  }

  predicate Has(t: Table, feed: FeedId, guid: string) {
    exists id :: id in t.rows && Holds(t, id, feed, guid)
  }

  /** The primary key is fresh and `(feed_id, guid)` is unique. */
  ghost predicate Valid(t: Table) {
    && (forall id :: id in t.rows ==> id < t.nextId)
    && (forall i, j | i in t.rows && j in t.rows ::
          t.rows[i].feedId == t.rows[j].feedId && t.rows[i].guid == t.rows[j].guid ==> i == j)
  }

  /** SQL `IS DISTINCT FROM`: NULL equals NULL and differs from every value. */
  predicate IsDistinctFrom<T(==)>(a: Option<T>, b: Option<T>) {
    match (a, b)
    case (None, None) => false
    case (Some(x), Some(y)) => x != y
    case _ => true
  }

  /** The WHERE clause that guards the update branch. */
  predicate Differs(a: Content, b: Content) {
    || a.url != b.url
    || IsDistinctFrom(a.title, b.title)
    || IsDistinctFrom(a.text, b.text)
    || IsDistinctFrom(a.author, b.author)
    || IsDistinctFrom(a.publishedAt, b.publishedAt)
  }

  /** What one statement makes of a row that is there already. */
  function Touched(row: EntryRow, feed: FeedId, e: ParsedEntry, dbNow: Time): EntryRow {
    if row.feedId == feed && row.guid == e.guid && Differs(row.body, e.body) then
      row.(body := e.body, contentUpdatedAt := dbNow)
    else
      row
  }

  ghost function IdOf(t: Table, feed: FeedId, guid: string): EntryId
    requires Has(t, feed, guid)
    ensures Holds(t, IdOf(t, feed, guid), feed, guid)
  {
    var id :| id in t.rows && Holds(t, id, feed, guid);
    id
  }

  /** One `INSERT ... ON CONFLICT (feed_id, guid) DO UPDATE ... WHERE` statement. */
  ghost function UpsertOne(t: Table, feed: FeedId, e: ParsedEntry, now: Time, dbNow: Time): Table {
    if Has(t, feed, e.guid) then
      var id := IdOf(t, feed, e.guid);
      Table(t.rows[id := Touched(t.rows[id], feed, e, dbNow)], t.nextId + 1)
    else
      Table(t.rows[t.nextId := EntryRow(feed, e.guid, e.body, now, now)], t.nextId + 1)
  }

  ghost function UpsertAll(t: Table, feed: FeedId, es: seq<ParsedEntry>, now: Time, dbNow: Time): Table {
    if es == [] then t
    else UpsertOne(UpsertAll(t, feed, es[..|es| - 1], now, dbNow), feed, es[|es| - 1], now, dbNow)
  }

  // ---- What a whole batch amounts to, without running it ----

  predicate Listed(es: seq<ParsedEntry>, guid: string) {
    exists k :: 0 <= k < |es| && es[k].guid == guid
  }

  /** The content of the last entry listed under `guid`. */
  function LastBody(es: seq<ParsedEntry>, guid: string): Content
    requires Listed(es, guid)
  {
    var n := |es| - 1;
    if es[n].guid == guid then es[n].body
    else
      assert Listed(es[..n], guid) by { Shorter(es, guid); }
      LastBody(es[..n], guid)
  }

  /** The content of the first entry listed under `guid`. */
  function FirstBody(es: seq<ParsedEntry>, guid: string): Content
    requires Listed(es, guid)
  {
    var n := |es| - 1;
    if Listed(es[..n], guid) then FirstBody(es[..n], guid) else es[n].body
  }

  lemma {:induction false} Shorter(es: seq<ParsedEntry>, guid: string)
    requires Listed(es, guid) && es[|es| - 1].guid != guid
    ensures Listed(es[..|es| - 1], guid)
  {
    var k :| 0 <= k < |es| && es[k].guid == guid;
    assert es[..|es| - 1][k] == es[k];
  }

  /** Some entry listed under `guid` carries something other than `body`. */
  predicate Edits(es: seq<ParsedEntry>, guid: string, body: Content) {
    exists k :: 0 <= k < |es| && es[k].guid == guid && es[k].body != body
  }

  /** Where the batch leaves a row that was there before. */
  function Settled(row: EntryRow, feed: FeedId, es: seq<ParsedEntry>, dbNow: Time): EntryRow {
    if row.feedId == feed && Listed(es, row.guid) then
      row.(body := LastBody(es, row.guid),
           contentUpdatedAt := if Edits(es, row.guid, row.body) then dbNow else row.contentUpdatedAt)
    else
      row
  }

  /** A row the batch inserted. */
  ghost predicate Inserted(row: EntryRow, feed: FeedId, es: seq<ParsedEntry>, now: Time, dbNow: Time) {
    && row.feedId == feed
    && Listed(es, row.guid)
    && row.body == LastBody(es, row.guid)
    && row.fetchedAt == now
    && row.contentUpdatedAt == if Edits(es, row.guid, FirstBody(es, row.guid)) then dbNow else now
  }

  /** The whole effect of a batch on every row of the table. */
  ghost predicate Folded(t: Table, t': Table, feed: FeedId, es: seq<ParsedEntry>, now: Time, dbNow: Time) {
    && Valid(t')
    && t'.nextId == t.nextId + |es|
    && (forall id :: id in t.rows ==> id in t'.rows && t'.rows[id] == Settled(t.rows[id], feed, es, dbNow))
    && (forall id :: id in t'.rows && id !in t.rows ==>
          id >= t.nextId && Inserted(t'.rows[id], feed, es, now, dbNow) && !Has(t, feed, t'.rows[id].guid))
    && (forall k :: 0 <= k < |es| ==> Has(t', feed, es[k].guid))
  }

  lemma {:induction false} UpsertFold(t: Table, feed: FeedId, es: seq<ParsedEntry>, now: Time, dbNow: Time)
    requires Valid(t)
    ensures Folded(t, UpsertAll(t, feed, es, now, dbNow), feed, es, now, dbNow)
  {
    if es != [] {
      var n := |es| - 1;
      UpsertFold(t, feed, es[..n], now, dbNow);
      assert es == es[..n] + [es[n]];
      FoldStep(t, UpsertAll(t, feed, es[..n], now, dbNow), feed, es[..n], es[n], now, dbNow);
    }
  }

  /** What one statement does to every row. */
  lemma {:induction false} StatementEffect(t: Table, feed: FeedId, e: ParsedEntry, now: Time, dbNow: Time)
    requires Valid(t)
    ensures
      var t' := UpsertOne(t, feed, e, now, dbNow);
      && Valid(t')
      && Has(t', feed, e.guid)
      && (forall id :: id in t.rows ==> id in t'.rows && t'.rows[id] == Touched(t.rows[id], feed, e, dbNow))
      && (forall id :: id in t'.rows && id !in t.rows ==>
            && id == t.nextId && !Has(t, feed, e.guid)
            && t'.rows[id] == EntryRow(feed, e.guid, e.body, now, now))
      && (forall g :: Has(t, feed, g) ==> Has(t', feed, g))
  {
    var t' := UpsertOne(t, feed, e, now, dbNow);
    if Has(t, feed, e.guid) {
      assert Holds(t', IdOf(t, feed, e.guid), feed, e.guid);
    } else {
      assert Holds(t', t.nextId, feed, e.guid);
      assert forall id :: id in t.rows ==> !Holds(t, id, feed, e.guid);
    }
    forall g | Has(t, feed, g)
      ensures Has(t', feed, g)
    {
      assert Holds(t', IdOf(t, feed, g), feed, g);
    }
  }

  lemma {:induction false} Snoc(es: seq<ParsedEntry>, e: ParsedEntry, guid: string)
    ensures Listed(es + [e], guid) <==> Listed(es, guid) || e.guid == guid
    ensures Listed(es + [e], guid) ==>
              LastBody(es + [e], guid) == if e.guid == guid then e.body else LastBody(es, guid)
    ensures Listed(es + [e], guid) ==>
              FirstBody(es + [e], guid) == if Listed(es, guid) then FirstBody(es, guid) else e.body
    ensures forall body :: Edits(es + [e], guid, body) <==>
              Edits(es, guid, body) || (e.guid == guid && e.body != body)
  {
    var all := es + [e];
    assert all[..|all| - 1] == es;
    assert all[|es|] == e;
    assert forall k :: 0 <= k < |es| ==> all[k] == es[k];
  }

  /** A batch and then one more statement leave a row where the longer batch would. */
  lemma {:induction false} SettledSnoc(row: EntryRow, feed: FeedId, es: seq<ParsedEntry>, e: ParsedEntry, dbNow: Time)
    ensures Touched(Settled(row, feed, es, dbNow), feed, e, dbNow) == Settled(row, feed, es + [e], dbNow)
  {
    Snoc(es, e, row.guid);
    LastIsListed(es, row.guid);
  }

  lemma {:induction false} InsertedSnoc(row: EntryRow, feed: FeedId, es: seq<ParsedEntry>, e: ParsedEntry,
                                        now: Time, dbNow: Time)
    requires Inserted(row, feed, es, now, dbNow)
    ensures Inserted(Touched(row, feed, e, dbNow), feed, es + [e], now, dbNow)
  {
    Snoc(es, e, row.guid);
    LastIsListed(es, row.guid);
  }

  /** If nothing listed differs from `body`, the last content is `body`. */
  lemma {:induction false} LastIsListed(es: seq<ParsedEntry>, guid: string)
    ensures forall body :: Listed(es, guid) && !Edits(es, guid, body) ==> LastBody(es, guid) == body
  {
    if Listed(es, guid) {
      var n := |es| - 1;
      assert es == es[..n] + [es[n]];
      Snoc(es[..n], es[n], guid);
      LastIsListed(es[..n], guid);
    }
  }

  lemma {:induction false} FoldStep(t: Table, t1: Table, feed: FeedId, es: seq<ParsedEntry>, e: ParsedEntry,
                                    now: Time, dbNow: Time)
    requires Valid(t) && Folded(t, t1, feed, es, now, dbNow)
    ensures Folded(t, UpsertOne(t1, feed, e, now, dbNow), feed, es + [e], now, dbNow)
  {
    var t2 := UpsertOne(t1, feed, e, now, dbNow);
    StatementEffect(t1, feed, e, now, dbNow);
    forall id | id in t.rows
      ensures id in t2.rows && t2.rows[id] == Settled(t.rows[id], feed, es + [e], dbNow)
    {
      SettledSnoc(t.rows[id], feed, es, e, dbNow);
    }
    forall id | id in t2.rows && id !in t.rows
      ensures id >= t.nextId && Inserted(t2.rows[id], feed, es + [e], now, dbNow)
      ensures !Has(t, feed, t2.rows[id].guid)
    {
      if id in t1.rows {
        InsertedSnoc(t1.rows[id], feed, es, e, now, dbNow);
      } else {
        FreshInsert(t, t1, feed, es, e, now, dbNow);
      }
    }
    forall k | 0 <= k < |es + [e]|
      ensures Has(t2, feed, (es + [e])[k].guid)
    {
      if k < |es| {
        assert Has(t1, feed, es[k].guid);
      }
    }
  }

  /** A guid the table does not hold after a batch was neither listed in it nor held before it. */
  lemma {:induction false} FreshInsert(t: Table, t1: Table, feed: FeedId, es: seq<ParsedEntry>, e: ParsedEntry,
                                       now: Time, dbNow: Time)
    requires Folded(t, t1, feed, es, now, dbNow) && !Has(t1, feed, e.guid)
    ensures Inserted(EntryRow(feed, e.guid, e.body, now, now), feed, es + [e], now, dbNow)
    ensures !Has(t, feed, e.guid)
  {
    Snoc(es, e, e.guid);
    if Has(t, feed, e.guid) {
      assert Holds(t1, IdOf(t, feed, e.guid), feed, e.guid);
    }
  }

  // ---- Applying a batch twice ----

  /** Repeats of a guid all carry the same content; in particular, when guids are distinct. */
  ghost predicate RepeatsAgree(es: seq<ParsedEntry>) {
    forall i, j :: 0 <= i < |es| && 0 <= j < |es| && es[i].guid == es[j].guid ==> es[i].body == es[j].body
  }

  lemma {:induction false} AgreeingLast(es: seq<ParsedEntry>, guid: string)
    requires RepeatsAgree(es) && Listed(es, guid)
    ensures !Edits(es, guid, LastBody(es, guid))
  {
    var k :| 0 <= k < |es| && es[k].guid == guid;
    assert !Edits(es, guid, es[k].body);
    LastIsListed(es, guid);
  }

  /** A second application keeps every key and can move nothing but `content_updated_at`, which it
      stamps exactly for the guids whose repeats disagree.  So it changes no row if and only if all
      repeats agree, or the database clock has not moved since the first. */
  lemma {:induction false} UpsertTwice(t: Table, feed: FeedId, es: seq<ParsedEntry>,
                    now: Time, dbNow: Time, now2: Time, dbNow2: Time)
    requires Valid(t)
    ensures
      var once := UpsertAll(t, feed, es, now, dbNow);
      var twice := UpsertAll(once, feed, es, now2, dbNow2);
      && twice.rows.Keys == once.rows.Keys
      && (forall id :: id in once.rows ==> twice.rows[id] == Restamped(once.rows[id], feed, es, dbNow2))
      && (twice.rows == once.rows <==> RepeatsAgree(es) || dbNow2 == dbNow)
  {
    var once := UpsertAll(t, feed, es, now, dbNow);
    UpsertFold(t, feed, es, now, dbNow);
    UpsertReflects(t, feed, es, now, dbNow);
    UpsertAgain(once, feed, es, now2, dbNow2);
    StampedByClock(t, once, feed, es, now, dbNow);
    SecondStamp(once, UpsertAll(once, feed, es, now2, dbNow2).rows, feed, es, dbNow, dbNow2);
  }

  lemma {:induction false} SecondStamp(once: Table, twice: map<EntryId, EntryRow>, feed: FeedId,
                                       es: seq<ParsedEntry>, dbNow: Time, dbNow2: Time)
    requires forall k :: 0 <= k < |es| ==> Has(once, feed, es[k].guid)
    requires twice.Keys == once.rows.Keys
    requires forall id :: id in once.rows ==> twice[id] == Restamped(once.rows[id], feed, es, dbNow2)
    requires forall id :: id in once.rows && Disputed(once.rows[id], feed, es) ==>
               once.rows[id].contentUpdatedAt == dbNow
    ensures twice == once.rows <==> RepeatsAgree(es) || dbNow2 == dbNow
  {
    if RepeatsAgree(es) {
      AgreeingLasts(es);
    } else {
      var id := SomeStamped(once, feed, es);
      assert twice[id].contentUpdatedAt == dbNow2;
    }
  }

  /** The row after a batch that it already reflects. */
  function Restamped(row: EntryRow, feed: FeedId, es: seq<ParsedEntry>, dbNow: Time): EntryRow {
    if Disputed(row, feed, es) then row.(contentUpdatedAt := dbNow) else row
  }

  /** The batch lists the row with more than one content. */
  predicate Disputed(row: EntryRow, feed: FeedId, es: seq<ParsedEntry>) {
    row.feedId == feed && Listed(es, row.guid) && Edits(es, row.guid, LastBody(es, row.guid))
  }

  /** The first application stamped every disputed row from the database clock. */
  lemma {:induction false} StampedByClock(t: Table, t': Table, feed: FeedId, es: seq<ParsedEntry>, now: Time,
                                          dbNow: Time)
    requires Folded(t, t', feed, es, now, dbNow)
    ensures forall id :: id in t'.rows && Disputed(t'.rows[id], feed, es) ==> t'.rows[id].contentUpdatedAt == dbNow
  {
    forall id | id in t'.rows && Disputed(t'.rows[id], feed, es)
      ensures t'.rows[id].contentUpdatedAt == dbNow
    {
      var guid := t'.rows[id].guid;
      LastIsListed(es, guid);
      if id in t.rows {
        assert t'.rows[id] == Settled(t.rows[id], feed, es, dbNow);
      }
    }
  }

  lemma {:induction false} SomeStamped(t: Table, feed: FeedId, es: seq<ParsedEntry>) returns (id: EntryId)
    requires !RepeatsAgree(es) && forall k :: 0 <= k < |es| ==> Has(t, feed, es[k].guid)
    ensures id in t.rows && Disputed(t.rows[id], feed, es)
  {
    var i, j :| 0 <= i < |es| && 0 <= j < |es| && es[i].guid == es[j].guid && es[i].body != es[j].body;
    id := IdOf(t, feed, es[i].guid);
    assert Holds(t, id, feed, es[i].guid);
  }

  /** The rows of a listed batch are in the table with their last content. */
  ghost predicate Reflects(t: Table, feed: FeedId, es: seq<ParsedEntry>) {
    && (forall k :: 0 <= k < |es| ==> Has(t, feed, es[k].guid))
    && (forall id :: id in t.rows && t.rows[id].feedId == feed && Listed(es, t.rows[id].guid) ==>
          t.rows[id].body == LastBody(es, t.rows[id].guid))
  }

  lemma {:induction false} UpsertReflects(t: Table, feed: FeedId, es: seq<ParsedEntry>, now: Time, dbNow: Time)
    requires Valid(t)
    ensures Reflects(UpsertAll(t, feed, es, now, dbNow), feed, es)
  {
    UpsertFold(t, feed, es, now, dbNow);
    var t' := UpsertAll(t, feed, es, now, dbNow);
    forall id | id in t'.rows && t'.rows[id].feedId == feed && Listed(es, t'.rows[id].guid)
      ensures t'.rows[id].body == LastBody(es, t'.rows[id].guid)
    {
      if id in t.rows {
        assert t'.rows[id] == Settled(t.rows[id], feed, es, dbNow);
      }
    }
  }

  lemma {:induction false} UpsertAgain(t: Table, feed: FeedId, es: seq<ParsedEntry>, now: Time, dbNow: Time)
    requires Valid(t) && Reflects(t, feed, es)
    ensures
      var t' := UpsertAll(t, feed, es, now, dbNow);
      && t'.rows.Keys == t.rows.Keys
      && (forall id :: id in t.rows ==> t'.rows[id] == Restamped(t.rows[id], feed, es, dbNow))
      && (RepeatsAgree(es) ==> t'.rows == t.rows)
  {
    UpsertFold(t, feed, es, now, dbNow);
    FoldedAgain(t, UpsertAll(t, feed, es, now, dbNow), feed, es, now, dbNow);
    if RepeatsAgree(es) {
      AgreeingLasts(es);
    }
  }

  lemma {:induction false} FoldedAgain(t: Table, t': Table, feed: FeedId, es: seq<ParsedEntry>, now: Time, dbNow: Time)
    requires Valid(t) && Reflects(t, feed, es) && Folded(t, t', feed, es, now, dbNow)
    ensures t'.rows.Keys == t.rows.Keys
    ensures forall id :: id in t.rows ==> t'.rows[id] == Restamped(t.rows[id], feed, es, dbNow)
  {
    assert forall guid :: Listed(es, guid) ==> Has(t, feed, guid);
  }

  lemma {:induction false} AgreeingLasts(es: seq<ParsedEntry>)
    requires RepeatsAgree(es)
    ensures forall guid :: Listed(es, guid) ==> !Edits(es, guid, LastBody(es, guid))
  {
    forall guid | Listed(es, guid)
      ensures !Edits(es, guid, LastBody(es, guid))
    {
      AgreeingLast(es, guid);
    }
  }

  // ---- The table itself ----

  class EntryTable {
    var rows: map<EntryId, EntryRow>
    var nextId: EntryId

    function Contents(): Table
      reads this
    {
      Table(rows, nextId)
    }

    /** One statement per entry, in list order. */
    method UpsertEntries(feed: FeedId, es: seq<ParsedEntry>, now: Time, dbNow: Time)
      requires Valid(Contents())
      modifies this
      ensures Valid(Contents())
      ensures Contents() == UpsertAll(old(Contents()), feed, es, now, dbNow)
    {
      for n := 0 to |es|
        invariant Valid(Contents())
        invariant Contents() == UpsertAll(old(Contents()), feed, es[..n], now, dbNow)
      {
        assert es[..n + 1][..n] == es[..n];
        UpsertStatement(feed, es[n], now, dbNow);
      }
      assert es[..|es|] == es;
    }

    /** Insert, or update the row in conflict if it differs; a key is drawn either way. */
    method UpsertStatement(feed: FeedId, e: ParsedEntry, now: Time, dbNow: Time)
      requires Valid(Contents())
      modifies this
      ensures Valid(Contents())
      ensures Contents() == UpsertOne(old(Contents()), feed, e, now, dbNow)
    {
      StatementEffect(Contents(), feed, e, now, dbNow);
      if id :| id in rows && rows[id].feedId == feed && rows[id].guid == e.guid {
        assert Holds(Contents(), id, feed, e.guid);
        if Differs(rows[id].body, e.body) {
          rows := rows[id := rows[id].(body := e.body, contentUpdatedAt := dbNow)];
        }
      } else {
        rows := rows[nextId := EntryRow(feed, e.guid, e.body, now, now)];
      }
      nextId := nextId + 1;
    }
  }
}
