/** Conditional requests: a run that uses 304s stores what a run that always downloads stores. */
module Conditional {
  import opened Common
  import opened Models
  import opened Policy
  import opened EntryStore
  import opened Fetch

  /** What the origin serves at one instant: a feed document and its validator. */
  datatype Representation = Representation(etag: string, title: Option<string>, entries: seq<ParsedEntry>)

  /** The condition a request carries. */
  datatype Condition = NoneMatch(etag: string) | ModifiedSince(date: string) | Unconditional

  /** The stored ETag if there is one, else the stored date; an empty header is not sent. */
  function ConditionFor(row: FeedRow): Condition {
    if row.etag.Some? && row.etag.value != "" then NoneMatch(row.etag.value)
    else if row.lastModified.Some? && row.lastModified.value != "" then ModifiedSince(row.lastModified.value)
    else Unconditional
  }

  /** A stored ETag is sent, and a stored date only without one; an empty one counts as none. */
  lemma {:induction false} ConditionSent(row: FeedRow, etag: string, date: string)
    ensures etag != "" && row.etag == Some(etag) ==> ConditionFor(row) == NoneMatch(etag)
    ensures (row.etag == None || row.etag == Some("")) && date != "" && row.lastModified == Some(date) ==>
              ConditionFor(row) == ModifiedSince(date)
    ensures (row.etag == None || row.etag == Some("")) && (row.lastModified == None || row.lastModified == Some("")) ==>
              ConditionFor(row) == Unconditional
  {
  }

  /** The request after a 200 makes the condition that the 200 gave: its ETag, or without one the stored
      ETag, or without either its date. */
  lemma {:induction false} ConditionAfter(s: Settings, row: FeedRow, now: Time, weekly: nat, o: Outcome, u: Draw)
    requires s.Defined() && o.Fetched?
    ensures
      var next := ConditionFor(AfterPoll(s, row, now, weekly, o, u));
      && (o.etag.Some? && o.etag != Some("") ==> next == NoneMatch(o.etag.value))
      && (o.etag == None && row.etag.Some? && row.etag != Some("") ==> next == NoneMatch(row.etag.value))
      && (o.etag == None && row.etag == None && o.lastModified.Some? && o.lastModified != Some("") ==>
            next == ModifiedSince(o.lastModified.value))
      && (o.etag == None && row.etag == None && o.lastModified == None && row.lastModified == None ==>
            next == Unconditional)
  {
  }

  /** How the origin treats one attempt. */
  datatype Reply =
    | Answer(preferFull: bool)   // 304 when the condition allows it, unless the origin sends it all anyway
    | Refuse(outcome: Outcome)   // 429 or any failure

  /** One poll of the feed: when, what the origin served then, with what headers, and how it replied. */
  datatype Poll = Poll(now: Time, dbNow: Time, served: Representation, movedTo: Option<string>,
                       lastModified: Option<string>, cacheHint: Option<nat>, ttl: Option<nat>, reply: Reply, u: Draw)

  function FullAnswer(p: Poll): Outcome {
    Fetched(p.movedTo, p.served.title, Some(p.served.etag), p.lastModified, p.cacheHint, p.ttl, p.served.entries)
  }

  /** An ETag condition fails only on the current ETag; a date may fail at any time. */
  predicate MayAnswer304(p: Poll, condition: Condition) {
    match condition
    case NoneMatch(etag) => etag == p.served.etag
    case ModifiedSince(_) => true
    case Unconditional => false
  }

  function OutcomeOf(p: Poll, condition: Condition): Outcome {
    match p.reply
    case Refuse(outcome) => outcome
    case Answer(preferFull) =>
      if MayAnswer304(p, condition) && !preferFull then NotModified(p.cacheHint) else FullAnswer(p)
  }

  datatype Store = Store(row: FeedRow, table: Table)

  ghost function Step(s: Settings, feed: FeedId, st: Store, p: Poll, condition: Condition): Store
    requires s.Defined()
  {
    var outcome := OutcomeOf(p, condition);
    Store(AfterPoll(s, st.row, p.now, WeeklyCount(st.table, feed, p.now), outcome, p.u),
          EntriesAfter(s, st.table, feed, outcome, p.now, p.dbNow))
  }

  /** Polls as the fetcher makes them. */
  ghost function Conditionally(s: Settings, feed: FeedId, st: Store, polls: seq<Poll>): Store
    requires s.Defined()
  {
    if polls == [] then st
    else
      var was := Conditionally(s, feed, st, polls[..|polls| - 1]);
      Step(s, feed, was, polls[|polls| - 1], ConditionFor(was.row))
  }

  /** The same polls without conditions. */
  ghost function Always(s: Settings, feed: FeedId, st: Store, polls: seq<Poll>): Store
    requires s.Defined()
  {
    if polls == [] then st
    else Step(s, feed, Always(s, feed, st, polls[..|polls| - 1]), polls[|polls| - 1], Unconditional)
  }

  /** No validator stored yet. */
  predicate IsNew(row: FeedRow) {
    row.etag == None && row.lastModified == None
  }

  // ---- What the origin promises ----

  predicate IsRefusal(outcome: Outcome) {
    outcome.Failed? || outcome.TooManyRequests?
  }

  /** What of a document is stored by a fetch that the initial cap does not bind. */
  function Stored(s: Settings, r: Representation): seq<ParsedEntry> {
    Prefix(r.entries, s.maxEntriesPerFetch)
  }

  /** Always an ETag, equal ETags mean equal documents, and no document contradicts itself. */
  ghost predicate Honest(s: Settings, polls: seq<Poll>) {
    && (forall i :: 0 <= i < |polls| ==>
          && polls[i].served.etag != ""
          && RepeatsAgree(Stored(s, polls[i].served))
          && (polls[i].reply.Refuse? ==> IsRefusal(polls[i].reply.outcome)))
    && (forall i, j :: 0 <= i < |polls| && 0 <= j < |polls| && polls[i].served.etag == polls[j].served.etag ==>
          polls[i].served.entries == polls[j].served.entries)
  }

  // ---- Tables that differ in surrogate keys only ----

  ghost predicate SameRows(a: Table, b: Table) {
    a.rows.Values == b.rows.Values
  }

  lemma {:induction false} SameHas(a: Table, b: Table, feed: FeedId, guid: string)
    requires SameRows(a, b)
    ensures Has(a, feed, guid) <==> Has(b, feed, guid)
    ensures HasAny(a, feed) <==> HasAny(b, feed)
  {
    SubHas(a, b, feed, guid);
    SubHas(b, a, feed, guid);
  }

  lemma {:induction false} SubHas(a: Table, b: Table, feed: FeedId, guid: string)
    requires a.rows.Values <= b.rows.Values
    ensures Has(a, feed, guid) ==> Has(b, feed, guid)
    ensures HasAny(a, feed) ==> HasAny(b, feed)
  {
    forall id | id in a.rows
      ensures exists id' :: id' in b.rows && b.rows[id'] == a.rows[id]
    {
      assert a.rows[id] in a.rows.Values;
    }
    if Has(a, feed, guid) {
      var id := IdOf(a, feed, guid);
      assert Holds(a, id, feed, guid);
      var id' :| id' in b.rows && b.rows[id'] == a.rows[id];
      assert Holds(b, id', feed, guid);
    }
  }

  /** A batch does the same to tables that differ in keys only. */
  lemma {:induction false} SameUpsert(a: Table, b: Table, feed: FeedId, es: seq<ParsedEntry>, now: Time, dbNow: Time)
    requires EntryStore.Valid(a) && EntryStore.Valid(b) && SameRows(a, b)
    ensures SameRows(UpsertAll(a, feed, es, now, dbNow), UpsertAll(b, feed, es, now, dbNow))
  {
    SubUpsert(a, b, feed, es, now, dbNow);
    SubUpsert(b, a, feed, es, now, dbNow);
  }

  lemma {:induction false} SubUpsert(a: Table, b: Table, feed: FeedId, es: seq<ParsedEntry>, now: Time, dbNow: Time)
    requires EntryStore.Valid(a) && EntryStore.Valid(b) && SameRows(a, b)
    ensures UpsertAll(a, feed, es, now, dbNow).rows.Values <= UpsertAll(b, feed, es, now, dbNow).rows.Values
  {
    var a', b' := UpsertAll(a, feed, es, now, dbNow), UpsertAll(b, feed, es, now, dbNow);
    UpsertFold(a, feed, es, now, dbNow);
    UpsertFold(b, feed, es, now, dbNow);
    forall row | row in a'.rows.Values
      ensures row in b'.rows.Values
    {
      var id :| id in a'.rows && a'.rows[id] == row;
      if id in a.rows {
        assert a.rows[id] in b.rows.Values;
        var id' :| id' in b.rows && b.rows[id'] == a.rows[id];
        assert b'.rows[id'] == row;
      } else {
        var id' := SameInserted(a, b, b', feed, es, now, dbNow, row);
        assert b'.rows[id'] == row;
      }
    }
  }

  lemma {:induction false} SameInserted(a: Table, b: Table, b': Table, feed: FeedId, es: seq<ParsedEntry>,
                                        now: Time, dbNow: Time, row: EntryRow) returns (id: EntryId)
    requires SameRows(a, b) && Folded(b, b', feed, es, now, dbNow)
    requires Inserted(row, feed, es, now, dbNow) && !Has(a, feed, row.guid)
    ensures id in b'.rows && b'.rows[id] == row
  {
    SameHas(a, b, feed, row.guid);
    var k :| 0 <= k < |es| && es[k].guid == row.guid;
    assert Has(b', feed, es[k].guid);
    id := IdOf(b', feed, row.guid);
    assert Holds(b', id, feed, row.guid);
    if id in b.rows {
      assert b'.rows[id] == Settled(b.rows[id], feed, es, dbNow);
      assert Holds(b, id, feed, row.guid);
    }
  }

  lemma {:induction false} SameReflects(a: Table, b: Table, feed: FeedId, es: seq<ParsedEntry>)
    requires SameRows(a, b) && Reflects(a, feed, es)
    ensures Reflects(b, feed, es)
  {
    forall k | 0 <= k < |es|
      ensures Has(b, feed, es[k].guid)
    {
      SameHas(a, b, feed, es[k].guid);
    }
    forall id | id in b.rows && b.rows[id].feedId == feed && Listed(es, b.rows[id].guid)
      ensures b.rows[id].body == LastBody(es, b.rows[id].guid)
    {
      assert b.rows[id] in a.rows.Values;
      var id' :| id' in a.rows && a.rows[id'] == b.rows[id];
    }
  }

  // ---- The refinement ----

  /** The stored validator, if any, belongs to a document whose entries are in the table. */
  ghost predicate Backed(s: Settings, feed: FeedId, st: Store, polls: seq<Poll>) {
    IsNew(st.row) ||
    exists i :: 0 <= i < |polls| && st.row.etag == Some(polls[i].served.etag)
                && Reflects(st.table, feed, Stored(s, polls[i].served))
  }

  ghost predicate InStep(s: Settings, feed: FeedId, a: Store, b: Store, polls: seq<Poll>) {
    && EntryStore.Valid(a.table) && EntryStore.Valid(b.table)
    && SameRows(a.table, b.table)
    && Backed(s, feed, a, polls)
  }

  /** The initial cap does not cut the document: it fits, or the feed has entries. */
  predicate Whole(s: Settings, feed: FeedId, t: Table, r: Representation) {
    HasAny(t, feed) || |Stored(s, r)| <= s.maxEntriesInitial
  }

  lemma {:induction false} FullFetch(s: Settings, feed: FeedId, t: Table, p: Poll)
    requires Whole(s, feed, t, p.served)
    ensures EntriesAfter(s, t, feed, FullAnswer(p), p.now, p.dbNow)
         == UpsertAll(t, feed, Stored(s, p.served), p.now, p.dbNow)
  {
  }

  lemma {:induction false} PollKeepsStep(s: Settings, feed: FeedId, a: Store, b: Store, polls: seq<Poll>, p: Poll)
    requires s.Defined() && Honest(s, polls + [p]) && InStep(s, feed, a, b, polls) && Whole(s, feed, a.table, p.served)
    ensures InStep(s, feed, Step(s, feed, a, p, ConditionFor(a.row)), Step(s, feed, b, p, Unconditional), polls + [p])
  {
    SameHas(a.table, b.table, feed, "");
    var a', b' := Step(s, feed, a, p, ConditionFor(a.row)), Step(s, feed, b, p, Unconditional);
    assert (polls + [p])[|polls|] == p;
    if p.reply.Refuse? {
      assert a'.table == a.table && b'.table == b.table;
      StillBacked(s, feed, a, a', polls, p);
    } else {
      FullFetch(s, feed, b.table, p);
      if OutcomeOf(p, ConditionFor(a.row)).NotModified? {
        UnchangedKeepsStep(s, feed, a, b, polls, p);
        StillBacked(s, feed, a, a', polls, p);
      } else {
        FullFetch(s, feed, a.table, p);
        DownloadKeepsStep(s, feed, a.table, b.table, p);
        assert a'.row.etag == Some((polls + [p])[|polls|].served.etag);
      }
    }
  }

  /** A 304 tells the truth: downloading would have changed no row. */
  lemma {:induction false} UnchangedKeepsStep(s: Settings, feed: FeedId, a: Store, b: Store, polls: seq<Poll>, p: Poll)
    requires Honest(s, polls + [p]) && InStep(s, feed, a, b, polls)
    requires p.reply.Answer? && OutcomeOf(p, ConditionFor(a.row)).NotModified?
    ensures
      var after := UpsertAll(b.table, feed, Stored(s, p.served), p.now, p.dbNow);
      EntryStore.Valid(after) && after.rows == b.table.rows
  {
    var es := Stored(s, p.served);
    CurrentIsStored(s, feed, a, polls, p);
    SameReflects(a.table, b.table, feed, es);
    UpsertAgain(b.table, feed, es, p.now, p.dbNow);
    UpsertFold(b.table, feed, es, p.now, p.dbNow);
  }

  /** If the condition can be answered by a 304, the document served now is in the table. */
  lemma {:induction false} CurrentIsStored(s: Settings, feed: FeedId, a: Store, polls: seq<Poll>, p: Poll)
    requires Honest(s, polls + [p]) && Backed(s, feed, a, polls) && MayAnswer304(p, ConditionFor(a.row))
    ensures Reflects(a.table, feed, Stored(s, p.served)) && RepeatsAgree(Stored(s, p.served))
  {
    var all := polls + [p];
    var i :| 0 <= i < |polls| && a.row.etag == Some(polls[i].served.etag)
             && Reflects(a.table, feed, Stored(s, polls[i].served));
    assert all[i] == polls[i] && all[|polls|] == p;
    assert all[i].served.entries == all[|polls|].served.entries;
  }

  lemma {:induction false} DownloadKeepsStep(s: Settings, feed: FeedId, a: Table, b: Table, p: Poll)
    requires EntryStore.Valid(a) && EntryStore.Valid(b) && SameRows(a, b)
    ensures
      var a' := UpsertAll(a, feed, Stored(s, p.served), p.now, p.dbNow);
      var b' := UpsertAll(b, feed, Stored(s, p.served), p.now, p.dbNow);
      EntryStore.Valid(a') && EntryStore.Valid(b') && SameRows(a', b') && Reflects(a', feed, Stored(s, p.served))
  {
    SameUpsert(a, b, feed, Stored(s, p.served), p.now, p.dbNow);
    UpsertFold(a, feed, Stored(s, p.served), p.now, p.dbNow);
    UpsertFold(b, feed, Stored(s, p.served), p.now, p.dbNow);
    UpsertReflects(a, feed, Stored(s, p.served), p.now, p.dbNow);
  }

  lemma {:induction false} StillBacked(s: Settings, feed: FeedId, a: Store, a': Store, polls: seq<Poll>, p: Poll)
    requires Backed(s, feed, a, polls) && a'.table == a.table
    requires a'.row.etag == a.row.etag && a'.row.lastModified == a.row.lastModified
    ensures Backed(s, feed, a', polls + [p])
  {
    if !IsNew(a.row) {
      var i :| 0 <= i < |polls| && a.row.etag == Some(polls[i].served.etag)
               && Reflects(a.table, feed, Stored(s, polls[i].served));
      assert (polls + [p])[i] == polls[i];
    }
  }

  /** Entries, once there are any, stay. */
  lemma {:induction false} StillHasAny(t: Table, feed: FeedId, es: seq<ParsedEntry>, now: Time, dbNow: Time)
    requires EntryStore.Valid(t) && HasAny(t, feed)
    ensures HasAny(UpsertAll(t, feed, es, now, dbNow), feed)
  {
    UpsertFold(t, feed, es, now, dbNow);
    var id :| id in t.rows && t.rows[id].feedId == feed;
    assert UpsertAll(t, feed, es, now, dbNow).rows[id].feedId == feed;
  }

  lemma {:induction false} PollKeepsEntries(s: Settings, feed: FeedId, st: Store, p: Poll, condition: Condition)
    requires s.Defined() && EntryStore.Valid(st.table) && HasAny(st.table, feed)
    ensures HasAny(Step(s, feed, st, p, condition).table, feed)
  {
    var outcome := OutcomeOf(p, condition);
    if outcome.Fetched? {
      StillHasAny(st.table, feed, Capped(s, st.table, feed, outcome.entries), p.now, p.dbNow);
    }
  }

  ghost predicate AllFit(s: Settings, polls: seq<Poll>) {
    forall i :: 0 <= i < |polls| ==> |Stored(s, polls[i].served)| <= s.maxEntriesInitial
  }

  /** Two runs that are in step stay in step, if the feed has entries or no document is too long. */
  lemma {:induction false} RunKeepsStep(s: Settings, feed: FeedId, a: Store, b: Store, before: seq<Poll>,
                                        polls: seq<Poll>)
    requires s.Defined() && Honest(s, before + polls) && InStep(s, feed, a, b, before)
    requires HasAny(a.table, feed) || AllFit(s, polls)
    ensures InStep(s, feed, Conditionally(s, feed, a, polls), Always(s, feed, b, polls), before + polls)
    ensures HasAny(a.table, feed) ==> HasAny(Conditionally(s, feed, a, polls).table, feed)
  {
    if polls == [] {
      assert before + polls == before;
    } else {
      var n := |polls| - 1;
      HonestPrefix(s, before + polls, |before| + n);
      assert (before + polls)[..|before| + n] == before + polls[..n];
      RunKeepsStep(s, feed, a, b, before, polls[..n]);
      assert before + polls == before + polls[..n] + [polls[n]];
      LastPollKeepsStep(s, feed, a, b, before, polls);
    }
  }

  lemma {:induction false} LastPollKeepsStep(s: Settings, feed: FeedId, a: Store, b: Store, before: seq<Poll>,
                                             polls: seq<Poll>)
    requires s.Defined() && polls != [] && Honest(s, before + polls[..|polls| - 1] + [polls[|polls| - 1]])
    requires
      var was := polls[..|polls| - 1];
      var c := Conditionally(s, feed, a, was);
      && InStep(s, feed, c, Always(s, feed, b, was), before + was)
      && Whole(s, feed, c.table, polls[|polls| - 1].served)
    ensures
      InStep(s, feed, Conditionally(s, feed, a, polls), Always(s, feed, b, polls),
             before + polls[..|polls| - 1] + [polls[|polls| - 1]])
    ensures HasAny(Conditionally(s, feed, a, polls[..|polls| - 1]).table, feed) ==>
              HasAny(Conditionally(s, feed, a, polls).table, feed)
  {
    var was, p := polls[..|polls| - 1], polls[|polls| - 1];
    var c := Conditionally(s, feed, a, was);
    PollKeepsStep(s, feed, c, Always(s, feed, b, was), before + was, p);
    if HasAny(c.table, feed) {
      PollKeepsEntries(s, feed, c, p, ConditionFor(c.row));
    }
  }

  lemma {:induction false} HonestPrefix(s: Settings, polls: seq<Poll>, n: nat)
    requires n <= |polls| && Honest(s, polls)
    ensures Honest(s, polls[..n])
  {
  }

  /** Conditional fetching refines unconditional fetching: from any table and a feed with no stored
      validator, any run of polls of documents that fit ends with the same entries, apart from surrogate
      keys, as the same run without conditions; if the feed has entries, documents of any length do. */
  lemma {:induction false} ConditionalRefines(s: Settings, feed: FeedId, st: Store, polls: seq<Poll>)
    requires s.Defined() && EntryStore.Valid(st.table) && IsNew(st.row) && Honest(s, polls)
    requires HasAny(st.table, feed) || AllFit(s, polls)
    ensures InStep(s, feed, Conditionally(s, feed, st, polls), Always(s, feed, st, polls), polls)
  {
    assert [] + polls == polls;
    RunKeepsStep(s, feed, st, st, [], polls);
  }
}
