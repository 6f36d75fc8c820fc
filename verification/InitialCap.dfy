/** Where conditional fetching stops refining unconditional fetching: the initial-fetch cap. */
module InitialCap {
  import opened Common
  import opened Models
  import opened EntryStore
  import opened Fetch
  import opened Conditional

  predicate InTime(polls: seq<Poll>) {
    forall i, j :: 0 <= i < j < |polls| ==> polls[i].now < polls[j].now
  }

  /** The index of the first poll that the origin does not refuse. */
  function FirstAnswer(qs: seq<Poll>): (k: nat)
    ensures k <= |qs| && (k < |qs| ==> qs[k].reply.Answer?)
    ensures forall i :: 0 <= i < k ==> qs[i].reply.Refuse?
  {
    if qs == [] || qs[0].reply.Answer? then 0 else 1 + FirstAnswer(qs[1..])
  }

  /** The first answer, if there is one, is a full one: the origin prefers it, or the document is not the
      one that the condition names. */
  predicate Renewed(etag: string, qs: seq<Poll>) {
    var k := FirstAnswer(qs);
    k == |qs| || qs[k].reply.preferFull || qs[k].served.etag != etag
  }

  /** The index of the first poll that is answered with a document of which something is stored. */
  function FirstStored(s: Settings, polls: seq<Poll>): (k: nat)
    ensures k <= |polls| && (k < |polls| ==> !StoresNothing(s, polls[k]))
    ensures forall i :: 0 <= i < k ==> StoresNothing(s, polls[i])
  {
    if polls == [] || !StoresNothing(s, polls[0]) then 0 else 1 + FirstStored(s, polls[1..])
  }

  predicate StoresNothing(s: Settings, p: Poll) {
    p.reply.Refuse? || Stored(s, p.served) == []
  }

  /** The initial cap leaves out an entry of the document. */
  ghost predicate Cuts(s: Settings, r: Representation) {
    exists k :: 0 <= k < |Stored(s, r)| && !Listed(Prefix(Stored(s, r), s.maxEntriesInitial), Stored(s, r)[k].guid)
  }

  /** Nothing is ever stored, or the first document stored is not cut, or the origin's next answer brings
      what was left out. */
  ghost predicate Harmless(s: Settings, polls: seq<Poll>) {
    var k := FirstStored(s, polls);
    k == |polls| || !Cuts(s, polls[k].served) || Renewed(polls[k].served.etag, polls[k + 1..])
  }

  // ---- Runs in pieces ----

  lemma {:induction false} InPieces(s: Settings, feed: FeedId, st: Store, a: seq<Poll>, b: seq<Poll>)
    requires s.Defined()
    ensures Conditionally(s, feed, st, a + b) == Conditionally(s, feed, Conditionally(s, feed, st, a), b)
    ensures Always(s, feed, st, a + b) == Always(s, feed, Always(s, feed, st, a), b)
  {
    if b == [] {
      assert a + b == a;
    } else {
      var n := |b| - 1;
      InPieces(s, feed, st, a, b[..n]);
      assert (a + b)[..|a + b| - 1] == a + b[..n];
    }
  }

  lemma {:induction false} OnePoll(s: Settings, feed: FeedId, st: Store, p: Poll)
    requires s.Defined()
    ensures Conditionally(s, feed, st, [p]) == Step(s, feed, st, p, ConditionFor(st.row))
    ensures Always(s, feed, st, [p]) == Step(s, feed, st, p, Unconditional)
  {
    assert [p][..0] == [];
    assert Conditionally(s, feed, st, []) == st && Always(s, feed, st, []) == st;
  }

  /** Refusals store nothing and keep the validator. */
  lemma {:induction false} Quiet(s: Settings, feed: FeedId, st: Store, qs: seq<Poll>)
    requires s.Defined() && forall i :: 0 <= i < |qs| ==> qs[i].reply.Refuse? && IsRefusal(qs[i].reply.outcome)
    ensures Conditionally(s, feed, st, qs).table == st.table
    ensures Conditionally(s, feed, st, qs).row.etag == st.row.etag
    ensures Always(s, feed, st, qs).table == st.table
  {
    if qs != [] {
      Quiet(s, feed, st, qs[..|qs| - 1]);
    }
  }

  /** Once the feed has entries, a poll stores the whole document or nothing. */
  lemma {:induction false} LaterPoll(s: Settings, feed: FeedId, st: Store, p: Poll, condition: Condition)
    requires s.Defined() && HasAny(st.table, feed) && (p.reply.Refuse? ==> IsRefusal(p.reply.outcome))
    ensures
      var after := Step(s, feed, st, p, condition);
      && after.table == (if OutcomeOf(p, condition).Fetched?
                         then UpsertAll(st.table, feed, Stored(s, p.served), p.now, p.dbNow) else st.table)
      && after.row.etag == (if OutcomeOf(p, condition).Fetched? then Some(p.served.etag) else st.row.etag)
  {
  }

  // ---- An entry that one run stored later stays apart ----

  /** `t` got the entry at `at`. */
  ghost predicate GotAt(t: Table, feed: FeedId, guid: string, at: Time) {
    exists id :: id in t.rows && Holds(t, id, feed, guid) && t.rows[id].fetchedAt == at
  }

  /** `t` got the entry after `at`, if at all. */
  ghost predicate GotAfter(t: Table, feed: FeedId, guid: string, at: Time) {
    forall id :: id in t.rows && Holds(t, id, feed, guid) ==> t.rows[id].fetchedAt > at
  }

  lemma {:induction false} NotTheSame(a: Table, c: Table, feed: FeedId, guid: string, at: Time)
    requires GotAt(a, feed, guid, at) && GotAfter(c, feed, guid, at)
    ensures !SameRows(c, a)
  {
    var id :| id in a.rows && Holds(a, id, feed, guid) && a.rows[id].fetchedAt == at;
    assert a.rows[id] in a.rows.Values;
    forall id' | id' in c.rows
      ensures c.rows[id'] != a.rows[id]
    {
      assert Holds(c, id', feed, guid) ==> c.rows[id'].fetchedAt > at;
    }
  }

  /** An upsert keeps the time at which an entry was got, and gets new ones now. */
  lemma {:induction false} GotKept(t: Table, feed: FeedId, es: seq<ParsedEntry>, now: Time, dbNow: Time,
                                   guid: string, at: Time)
    requires EntryStore.Valid(t)
    ensures
      var t' := UpsertAll(t, feed, es, now, dbNow);
      && EntryStore.Valid(t')
      && (GotAt(t, feed, guid, at) ==> GotAt(t', feed, guid, at))
      && (GotAfter(t, feed, guid, at) && now > at ==> GotAfter(t', feed, guid, at))
  {
    var t' := UpsertAll(t, feed, es, now, dbNow);
    UpsertFold(t, feed, es, now, dbNow);
    if GotAt(t, feed, guid, at) {
      var id :| id in t.rows && Holds(t, id, feed, guid) && t.rows[id].fetchedAt == at;
      assert t'.rows[id] == Settled(t.rows[id], feed, es, dbNow);
      assert Holds(t', id, feed, guid);
    }
    forall id | id in t'.rows && Holds(t', id, feed, guid) && GotAfter(t, feed, guid, at) && now > at
      ensures t'.rows[id].fetchedAt > at
    {
      if id in t.rows {
        assert t'.rows[id] == Settled(t.rows[id], feed, es, dbNow);
        assert Holds(t, id, feed, guid);
      }
    }
  }

  /** The run that downloads has the entry since `at`; the run with conditions has it later or never. */
  ghost predicate Apart(a: Table, c: Table, feed: FeedId, guid: string, at: Time) {
    && EntryStore.Valid(a) && EntryStore.Valid(c) && HasAny(a, feed) && HasAny(c, feed)
    && GotAt(a, feed, guid, at) && GotAfter(c, feed, guid, at)
  }

  lemma {:induction false} ApartPoll(s: Settings, feed: FeedId, c: Store, a: Store, q: Poll, condition: Condition,
                                     guid: string, at: Time)
    requires s.Defined() && (q.reply.Refuse? ==> IsRefusal(q.reply.outcome)) && q.now > at
    requires Apart(a.table, c.table, feed, guid, at)
    ensures Apart(Step(s, feed, a, q, Unconditional).table, Step(s, feed, c, q, condition).table, feed, guid, at)
  {
    LaterPoll(s, feed, a, q, Unconditional);
    LaterPoll(s, feed, c, q, condition);
    GotKept(a.table, feed, Stored(s, q.served), q.now, q.dbNow, guid, at);
    GotKept(c.table, feed, Stored(s, q.served), q.now, q.dbNow, guid, at);
    StillHasAny(a.table, feed, Stored(s, q.served), q.now, q.dbNow);
    StillHasAny(c.table, feed, Stored(s, q.served), q.now, q.dbNow);
  }

  lemma {:induction false} ApartRun(s: Settings, feed: FeedId, c: Store, a: Store, qs: seq<Poll>, guid: string,
                                    at: Time)
    requires s.Defined()
    requires forall i :: 0 <= i < |qs| ==>
               qs[i].now > at && (qs[i].reply.Refuse? ==> IsRefusal(qs[i].reply.outcome))
    requires Apart(a.table, c.table, feed, guid, at)
    ensures Apart(Always(s, feed, a, qs).table, Conditionally(s, feed, c, qs).table, feed, guid, at)
  {
    if qs != [] {
      var n := |qs| - 1;
      ApartRun(s, feed, c, a, qs[..n], guid, at);
      var c', a' := Conditionally(s, feed, c, qs[..n]), Always(s, feed, a, qs[..n]);
      ApartPoll(s, feed, c', a', qs[n], ConditionFor(c'.row), guid, at);
    }
  }

  // ---- The first document stored ----

  /** Where the first document stored leaves the table. */
  ghost function Initial(s: Settings, feed: FeedId, t: Table, p: Poll): Table {
    UpsertAll(t, feed, Prefix(Stored(s, p.served), s.maxEntriesInitial), p.now, p.dbNow)
  }

  /** Before that, nothing is stored, and the validator is that of an empty document, if any. */
  lemma {:induction false} Barren(s: Settings, feed: FeedId, st: Store, polls: seq<Poll>)
    requires s.Defined() && Honest(s, polls) && IsNew(st.row)
    requires forall i :: 0 <= i < |polls| ==> StoresNothing(s, polls[i])
    ensures Conditionally(s, feed, st, polls).table == st.table && Always(s, feed, st, polls).table == st.table
    ensures Backed(s, feed, Conditionally(s, feed, st, polls), polls)
  {
    if polls != [] {
      var n := |polls| - 1;
      HonestPrefix(s, polls, n);
      Barren(s, feed, st, polls[..n]);
      LastBarren(s, feed, st, polls);
    }
  }

  lemma {:induction false} LastBarren(s: Settings, feed: FeedId, st: Store, polls: seq<Poll>)
    requires s.Defined() && Honest(s, polls) && polls != [] && StoresNothing(s, polls[|polls| - 1])
    requires
      var before := polls[..|polls| - 1];
      && Conditionally(s, feed, st, before).table == st.table && Always(s, feed, st, before).table == st.table
      && Backed(s, feed, Conditionally(s, feed, st, before), before)
    ensures Conditionally(s, feed, st, polls).table == st.table && Always(s, feed, st, polls).table == st.table
    ensures Backed(s, feed, Conditionally(s, feed, st, polls), polls)
  {
    var before, p := polls[..|polls| - 1], polls[|polls| - 1];
    assert polls == before + [p];
    BarrenPoll(s, feed, Conditionally(s, feed, st, before), before, p);
    BarrenDownload(s, feed, Always(s, feed, st, before), p);
  }

  lemma {:induction false} BarrenDownload(s: Settings, feed: FeedId, st: Store, p: Poll)
    requires s.Defined() && StoresNothing(s, p) && (p.reply.Refuse? ==> IsRefusal(p.reply.outcome))
    ensures Step(s, feed, st, p, Unconditional).table == st.table
  {
  }

  lemma {:induction false} BarrenPoll(s: Settings, feed: FeedId, st: Store, before: seq<Poll>, p: Poll)
    requires s.Defined() && Honest(s, before + [p]) && Backed(s, feed, st, before) && StoresNothing(s, p)
    ensures
      var after := Step(s, feed, st, p, ConditionFor(st.row));
      after.table == st.table && Backed(s, feed, after, before + [p])
  {
    var after := Step(s, feed, st, p, ConditionFor(st.row));
    assert (before + [p])[|before|] == p;
    if OutcomeOf(p, ConditionFor(st.row)).Fetched? {
      assert after.row.etag == Some((before + [p])[|before|].served.etag);
      assert Reflects(after.table, feed, Stored(s, p.served));
    } else {
      StillBacked(s, feed, st, after, before, p);
    }
  }

  /** That document is downloaded under any condition the fetcher can then make. */
  lemma {:induction false} FirstDownload(s: Settings, feed: FeedId, c: Store, a: Store, before: seq<Poll>, p: Poll)
    requires s.Defined() && Honest(s, before + [p]) && Backed(s, feed, c, before) && !StoresNothing(s, p)
    requires a.table == c.table && !HasAny(c.table, feed)
    ensures
      var c', a' := Step(s, feed, c, p, ConditionFor(c.row)), Step(s, feed, a, p, Unconditional);
      && c'.table == Initial(s, feed, c.table, p) && a'.table == c'.table
      && c'.row.etag == Some(p.served.etag)
  {
    OnlyStoredMatches(s, feed, c, before, p);
  }

  lemma {:induction false} OnlyStoredMatches(s: Settings, feed: FeedId, c: Store, before: seq<Poll>, p: Poll)
    requires Honest(s, before + [p]) && Backed(s, feed, c, before) && Stored(s, p.served) != []
    ensures MayAnswer304(p, ConditionFor(c.row)) ==> HasAny(c.table, feed)
  {
    if MayAnswer304(p, ConditionFor(c.row)) {
      CurrentIsStored(s, feed, c, before, p);
      var guid := Stored(s, p.served)[0].guid;
      assert Has(c.table, feed, guid);
      assert Holds(c.table, IdOf(c.table, feed, guid), feed, guid);
    }
  }

  lemma {:induction false} InitialStores(s: Settings, feed: FeedId, t: Table, p: Poll)
    requires EntryStore.Valid(t) && s.maxEntriesInitial >= 1 && Stored(s, p.served) != []
    ensures EntryStore.Valid(Initial(s, feed, t, p)) && HasAny(Initial(s, feed, t, p), feed)
  {
    var es := Prefix(Stored(s, p.served), s.maxEntriesInitial);
    var once := Initial(s, feed, t, p);
    UpsertFold(t, feed, es, p.now, p.dbNow);
    assert Has(once, feed, es[0].guid);
    assert Holds(once, IdOf(once, feed, es[0].guid), feed, es[0].guid);
  }

  /** A document that is not cut is stored as if there were no cap. */
  lemma {:induction false} UncutIsStored(s: Settings, feed: FeedId, t: Table, p: Poll)
    requires EntryStore.Valid(t) && RepeatsAgree(Stored(s, p.served)) && !Cuts(s, p.served)
    ensures Reflects(Initial(s, feed, t, p), feed, Stored(s, p.served))
  {
    var all := Stored(s, p.served);
    var es := Prefix(all, s.maxEntriesInitial);
    var once := Initial(s, feed, t, p);
    UpsertReflects(t, feed, es, p.now, p.dbNow);
    forall k | 0 <= k < |all|
      ensures Has(once, feed, all[k].guid)
    {
      assert Listed(es, all[k].guid);
      var i :| 0 <= i < |es| && es[i].guid == all[k].guid;
    }
    forall id | id in once.rows && once.rows[id].feedId == feed && Listed(all, once.rows[id].guid)
      ensures once.rows[id].body == LastBody(all, once.rows[id].guid)
    {
      SameLast(all, es, once.rows[id].guid);
    }
  }

  /** Agreeing repeats have one content, wherever the list is cut. */
  lemma {:induction false} SameLast(all: seq<ParsedEntry>, es: seq<ParsedEntry>, guid: string)
    requires es <= all && RepeatsAgree(all) && Listed(all, guid)
    requires forall k :: 0 <= k < |all| ==> Listed(es, all[k].guid)
    ensures Listed(es, guid) && LastBody(es, guid) == LastBody(all, guid)
  {
    var k :| 0 <= k < |all| && all[k].guid == guid;
    assert Listed(es, all[k].guid);
    var i :| 0 <= i < |es| && es[i].guid == guid;
    assert all[i] == es[i];
    assert !Edits(es, guid, es[i].body) && !Edits(all, guid, es[i].body);
    LastIsListed(es, guid);
    LastIsListed(all, guid);
  }

  /** An entry that was cut is not stored. */
  lemma {:induction false} CutIsMissing(s: Settings, feed: FeedId, t: Table, p: Poll, guid: string)
    requires EntryStore.Valid(t) && !HasAny(t, feed)
    requires !Listed(Prefix(Stored(s, p.served), s.maxEntriesInitial), guid)
    ensures !Has(Initial(s, feed, t, p), feed, guid)
  {
    var es := Prefix(Stored(s, p.served), s.maxEntriesInitial);
    var once := Initial(s, feed, t, p);
    UpsertFold(t, feed, es, p.now, p.dbNow);
    forall id | id in once.rows
      ensures !Holds(once, id, feed, guid)
    {
      if id in t.rows {
        assert once.rows[id] == Settled(t.rows[id], feed, es, p.dbNow);
      }
    }
  }

  /** A download then gets it, now. */
  lemma {:induction false} CutEntryArrives(feed: FeedId, once: Table, es: seq<ParsedEntry>, k: nat, q: Poll)
    requires EntryStore.Valid(once) && k < |es| && !Has(once, feed, es[k].guid)
    ensures GotAt(UpsertAll(once, feed, es, q.now, q.dbNow), feed, es[k].guid, q.now)
  {
    var t' := UpsertAll(once, feed, es, q.now, q.dbNow);
    UpsertFold(once, feed, es, q.now, q.dbNow);
    var id := IdOf(t', feed, es[k].guid);
    assert Holds(t', id, feed, es[k].guid);
    if id in once.rows {
      assert t'.rows[id] == Settled(once.rows[id], feed, es, q.dbNow);
      assert Holds(once, id, feed, es[k].guid);
    }
  }

  // ---- The answer after a cut ----

  /** Two runs at the same table, in which the document that the validator names lacks an entry. */
  ghost predicate AfterCut(s: Settings, feed: FeedId, c: Store, a: Store, r: Representation, k: nat) {
    && a.table == c.table && EntryStore.Valid(c.table) && HasAny(c.table, feed)
    && r.etag != "" && c.row.etag == Some(r.etag)
    && k < |Stored(s, r)| && !Has(c.table, feed, Stored(s, r)[k].guid)
  }

  /** A 304 then sets the runs apart for good. */
  lemma {:induction false} HiddenForGood(s: Settings, feed: FeedId, c: Store, a: Store, r: Representation, k: nat,
                                         q: Poll, rest: seq<Poll>)
    requires s.Defined() && AfterCut(s, feed, c, a, r, k) && q.served.etag == r.etag && q.served.entries == r.entries
    requires q.reply == Answer(false)
    requires forall i :: 0 <= i < |rest| ==>
               rest[i].now > q.now && (rest[i].reply.Refuse? ==> IsRefusal(rest[i].reply.outcome))
    ensures
      var c', a' := Step(s, feed, c, q, ConditionFor(c.row)), Step(s, feed, a, q, Unconditional);
      !SameRows(Conditionally(s, feed, c', rest).table, Always(s, feed, a', rest).table)
  {
    var es := Stored(s, r);
    var c', a' := Step(s, feed, c, q, ConditionFor(c.row)), Step(s, feed, a, q, Unconditional);
    LaterPoll(s, feed, c, q, ConditionFor(c.row));
    LaterPoll(s, feed, a, q, Unconditional);
    UpsertFold(c.table, feed, es, q.now, q.dbNow);
    StillHasAny(c.table, feed, es, q.now, q.dbNow);
    CutEntryArrives(feed, c.table, es, k, q);
    assert Apart(a'.table, c'.table, feed, es[k].guid, q.now);
    ApartRun(s, feed, c', a', rest, es[k].guid, q.now);
    NotTheSame(Always(s, feed, a', rest).table, Conditionally(s, feed, c', rest).table, feed, es[k].guid, q.now);
  }

  /** A full answer brings them together for good. */
  lemma {:induction false} BroughtTogether(s: Settings, feed: FeedId, c: Store, a: Store, r: Representation, k: nat,
                                           before: seq<Poll>, q: Poll, rest: seq<Poll>)
    requires s.Defined() && AfterCut(s, feed, c, a, r, k) && Honest(s, before + [q] + rest)
    requires q.reply.Answer? && (q.reply.preferFull || q.served.etag != r.etag)
    ensures
      var c', a' := Step(s, feed, c, q, ConditionFor(c.row)), Step(s, feed, a, q, Unconditional);
      SameRows(Conditionally(s, feed, c', rest).table, Always(s, feed, a', rest).table)
  {
    var es := Stored(s, q.served);
    var c', a' := Step(s, feed, c, q, ConditionFor(c.row)), Step(s, feed, a, q, Unconditional);
    LaterPoll(s, feed, c, q, ConditionFor(c.row));
    LaterPoll(s, feed, a, q, Unconditional);
    UpsertFold(c.table, feed, es, q.now, q.dbNow);
    StillHasAny(c.table, feed, es, q.now, q.dbNow);
    UpsertReflects(c.table, feed, es, q.now, q.dbNow);
    assert (before + [q])[|before|] == q;
    assert InStep(s, feed, c', a', before + [q]);
    RunKeepsStep(s, feed, c', a', before + [q], rest);
  }

  /** A run, cut at poll `n`. */
  lemma {:induction false} CutAt(s: Settings, feed: FeedId, c: Store, a: Store, qs: seq<Poll>, n: nat)
    requires s.Defined() && n < |qs|
    ensures
      var c0, a0 := Conditionally(s, feed, c, qs[..n]), Always(s, feed, a, qs[..n]);
      && Conditionally(s, feed, c, qs)
         == Conditionally(s, feed, Step(s, feed, c0, qs[n], ConditionFor(c0.row)), qs[n + 1..])
      && Always(s, feed, a, qs) == Always(s, feed, Step(s, feed, a0, qs[n], Unconditional), qs[n + 1..])
  {
    var q, rest := qs[n], qs[n + 1..];
    var c0, a0 := Conditionally(s, feed, c, qs[..n]), Always(s, feed, a, qs[..n]);
    assert qs == qs[..n] + ([q] + rest);
    InPieces(s, feed, c, qs[..n], [q] + rest);
    InPieces(s, feed, a, qs[..n], [q] + rest);
    InPieces(s, feed, c0, [q], rest);
    InPieces(s, feed, a0, [q], rest);
    OnePoll(s, feed, c0, q);
    OnePoll(s, feed, a0, q);
  }

  /** After a cut, whatever documents follow: the runs end alike if and only if the origin's next answer is
      a full one, or never comes. */
  lemma {:induction false} CutRun(s: Settings, feed: FeedId, c: Store, a: Store, r: Representation, k: nat,
                                  before: seq<Poll>, qs: seq<Poll>)
    requires s.Defined() && AfterCut(s, feed, c, a, r, k) && Honest(s, before + qs) && InTime(qs)
    requires exists i :: 0 <= i < |before| && before[i].served == r
    ensures SameRows(Conditionally(s, feed, c, qs).table, Always(s, feed, a, qs).table) <==> Renewed(r.etag, qs)
  {
    var n := FirstAnswer(qs);
    HonestPolls(s, before, qs, r);
    QuietAfterCut(s, feed, c, a, r, k, qs[..n]);
    if n == |qs| {
      assert qs[..n] == qs;
    } else {
      assert before + qs == before + qs[..n] + [qs[n]] + qs[n + 1..];
      AnsweredRun(s, feed, c, a, r, k, before, qs, n);
    }
  }

  lemma {:induction false} QuietAfterCut(s: Settings, feed: FeedId, c: Store, a: Store, r: Representation, k: nat,
                                         qs: seq<Poll>)
    requires s.Defined() && AfterCut(s, feed, c, a, r, k)
    requires forall i :: 0 <= i < |qs| ==> qs[i].reply.Refuse? && IsRefusal(qs[i].reply.outcome)
    ensures AfterCut(s, feed, Conditionally(s, feed, c, qs), Always(s, feed, a, qs), r, k)
  {
    Quiet(s, feed, c, qs);
    Quiet(s, feed, a, qs);
  }

  lemma {:induction false} AnsweredRun(s: Settings, feed: FeedId, c: Store, a: Store, r: Representation, k: nat,
                                       before: seq<Poll>, qs: seq<Poll>, n: nat)
    requires s.Defined() && n < |qs| && InTime(qs) && qs[n].reply.Answer?
    requires AfterCut(s, feed, Conditionally(s, feed, c, qs[..n]), Always(s, feed, a, qs[..n]), r, k)
    requires Honest(s, before + qs[..n] + [qs[n]] + qs[n + 1..])
    requires forall i :: 0 <= i < |qs| ==>
               && (qs[i].reply.Refuse? ==> IsRefusal(qs[i].reply.outcome))
               && (qs[i].served.etag == r.etag ==> qs[i].served.entries == r.entries)
    ensures SameRows(Conditionally(s, feed, c, qs).table, Always(s, feed, a, qs).table)
       <==> qs[n].reply.preferFull || qs[n].served.etag != r.etag
  {
    CutAt(s, feed, c, a, qs, n);
    AnswerDecides(s, feed, Conditionally(s, feed, c, qs[..n]), Always(s, feed, a, qs[..n]), r, k,
                  before + qs[..n], qs[n], qs[n + 1..]);
  }

  lemma {:induction false} AnswerDecides(s: Settings, feed: FeedId, c: Store, a: Store, r: Representation, k: nat,
                                         before: seq<Poll>, q: Poll, rest: seq<Poll>)
    requires s.Defined() && AfterCut(s, feed, c, a, r, k) && Honest(s, before + [q] + rest) && q.reply.Answer?
    requires q.served.etag == r.etag ==> q.served.entries == r.entries
    requires forall i :: 0 <= i < |rest| ==>
               rest[i].now > q.now && (rest[i].reply.Refuse? ==> IsRefusal(rest[i].reply.outcome))
    ensures
      var c', a' := Step(s, feed, c, q, ConditionFor(c.row)), Step(s, feed, a, q, Unconditional);
      (SameRows(Conditionally(s, feed, c', rest).table, Always(s, feed, a', rest).table)
       <==> q.reply.preferFull || q.served.etag != r.etag)
  {
    if q.reply.preferFull || q.served.etag != r.etag {
      BroughtTogether(s, feed, c, a, r, k, before, q, rest);
    } else {
      HiddenForGood(s, feed, c, a, r, k, q, rest);
    }
  }

  lemma {:induction false} HonestPolls(s: Settings, before: seq<Poll>, qs: seq<Poll>, r: Representation)
    requires Honest(s, before + qs) && exists i :: 0 <= i < |before| && before[i].served == r
    ensures forall i :: 0 <= i < |qs| ==>
              && (qs[i].reply.Refuse? ==> IsRefusal(qs[i].reply.outcome))
              && (qs[i].served.etag == r.etag ==> qs[i].served.entries == r.entries)
  {
    var all := before + qs;
    var m :| 0 <= m < |before| && before[m].served == r;
    assert all[m] == before[m];
    forall i | 0 <= i < |qs|
      ensures qs[i].reply.Refuse? ==> IsRefusal(qs[i].reply.outcome)
      ensures qs[i].served.etag == r.etag ==> qs[i].served.entries == r.entries
    {
      assert all[|before| + i] == qs[i];
    }
  }

  // ---- The exact condition ----

  /** A cap of zero stores nothing, ever. */
  lemma {:induction false} NothingStored(s: Settings, feed: FeedId, st: Store, polls: seq<Poll>)
    requires s.Defined() && s.maxEntriesInitial == 0 && !HasAny(st.table, feed)
    ensures Conditionally(s, feed, st, polls).table == st.table && Always(s, feed, st, polls).table == st.table
  {
    if polls != [] {
      NothingStored(s, feed, st, polls[..|polls| - 1]);
    }
  }

  /** The initial cap decides: from a feed without validators, any run of polls in order of time, of any
      documents, leaves the same entries with and without conditions if and only if the feed has entries
      already, or the cap is zero, or the first document stored is not cut, or the origin's next answer
      after it is a full one or never comes.  In every other run an entry past the cap is missing, or got
      later. */
  lemma {:induction false} CapDecidesRefinement(s: Settings, feed: FeedId, st: Store, polls: seq<Poll>)
    requires s.Defined() && EntryStore.Valid(st.table) && IsNew(st.row) && Honest(s, polls) && InTime(polls)
    ensures SameRows(Conditionally(s, feed, st, polls).table, Always(s, feed, st, polls).table)
       <==> HasAny(st.table, feed) || s.maxEntriesInitial == 0 || Harmless(s, polls)
  {
    if HasAny(st.table, feed) {
      ConditionalRefines(s, feed, st, polls);
    } else if s.maxEntriesInitial == 0 {
      NothingStored(s, feed, st, polls);
    } else if FirstStored(s, polls) == |polls| {
      Barren(s, feed, st, polls);
    } else {
      FromFirstStored(s, feed, st, polls, FirstStored(s, polls));
    }
  }

  lemma {:induction false} FromFirstStored(s: Settings, feed: FeedId, st: Store, polls: seq<Poll>, n: nat)
    requires s.Defined() && EntryStore.Valid(st.table) && IsNew(st.row) && Honest(s, polls) && InTime(polls)
    requires !HasAny(st.table, feed) && s.maxEntriesInitial >= 1
    requires n < |polls| && !StoresNothing(s, polls[n]) && forall i :: 0 <= i < n ==> StoresNothing(s, polls[i])
    ensures SameRows(Conditionally(s, feed, st, polls).table, Always(s, feed, st, polls).table)
       <==> !Cuts(s, polls[n].served) || Renewed(polls[n].served.etag, polls[n + 1..])
  {
    var c, a := Conditionally(s, feed, st, polls[..n]), Always(s, feed, st, polls[..n]);
    UpToFirstStored(s, feed, st, polls, n);
    CutAt(s, feed, st, st, polls, n);
    InThree(s, polls, n);
    AfterFirstStored(s, feed, st.table, Step(s, feed, c, polls[n], ConditionFor(c.row)),
                     Step(s, feed, a, polls[n], Unconditional), polls[..n], polls[n], polls[n + 1..]);
  }

  lemma {:induction false} InThree(s: Settings, polls: seq<Poll>, n: nat)
    requires n < |polls| && Honest(s, polls) && InTime(polls)
    ensures Honest(s, polls[..n] + [polls[n]] + polls[n + 1..]) && InTime(polls[n + 1..])
  {
    assert polls[..n] + [polls[n]] + polls[n + 1..] == polls;
  }

  lemma {:induction false} UpToFirstStored(s: Settings, feed: FeedId, st: Store, polls: seq<Poll>, n: nat)
    requires s.Defined() && IsNew(st.row) && Honest(s, polls) && !HasAny(st.table, feed)
    requires n < |polls| && !StoresNothing(s, polls[n]) && forall i :: 0 <= i < n ==> StoresNothing(s, polls[i])
    ensures
      var c, a := Conditionally(s, feed, st, polls[..n]), Always(s, feed, st, polls[..n]);
      var c' := Step(s, feed, c, polls[n], ConditionFor(c.row));
      && c'.table == Initial(s, feed, st.table, polls[n])
      && Step(s, feed, a, polls[n], Unconditional).table == c'.table
      && c'.row.etag == Some(polls[n].served.etag)
  {
    var before := polls[..n];
    HonestPrefix(s, polls, n);
    HonestPrefix(s, polls, n + 1);
    assert polls[..n + 1] == before + [polls[n]];
    Barren(s, feed, st, before);
    FirstDownload(s, feed, Conditionally(s, feed, st, before), Always(s, feed, st, before), before, polls[n]);
  }

  lemma {:induction false} AfterFirstStored(s: Settings, feed: FeedId, t: Table, c: Store, a: Store,
                                            before: seq<Poll>, p: Poll, rest: seq<Poll>)
    requires s.Defined() && EntryStore.Valid(t) && !HasAny(t, feed) && s.maxEntriesInitial >= 1 && !StoresNothing(s, p)
    requires Honest(s, before + [p] + rest) && InTime(rest)
    requires c.table == Initial(s, feed, t, p) && a.table == c.table && c.row.etag == Some(p.served.etag)
    ensures SameRows(Conditionally(s, feed, c, rest).table, Always(s, feed, a, rest).table)
       <==> !Cuts(s, p.served) || Renewed(p.served.etag, rest)
  {
    var seen := before + [p];
    assert seen[|before|] == p && (seen + rest)[|before|] == p;
    InitialStores(s, feed, t, p);
    if Cuts(s, p.served) {
      var es := Stored(s, p.served);
      var k :| 0 <= k < |es| && !Listed(Prefix(es, s.maxEntriesInitial), es[k].guid);
      CutIsMissing(s, feed, t, p, es[k].guid);
      CutRun(s, feed, c, a, p.served, k, seen, rest);
    } else {
      UncutIsStored(s, feed, t, p);
      assert InStep(s, feed, c, a, seen);
      RunKeepsStep(s, feed, c, a, seen, rest);
    }
  }
}
