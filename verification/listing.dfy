/**
 The three listings, `loadPaginatedTickets`, `fetchInitialTickets` and
 `fetchAllTickets`. They share one loop: skip falsy event ids, read each
 event's page, emit each document whose id has not been seen yet, and let a
 failed read contribute nothing. They differ only in how long a page is.
 */
module Listing {
  import opened Tickets
  import opened Aggregation

  /** How many documents one event's query asks for. */
  datatype Bound = AtMost(n: nat) | Unbounded

  /** The fixed page length of `fetchInitialTickets`. */
  const InitialPageSize: nat := 10

  /** `.limit(n)` applied to an already ordered collection. */
  function Bounded(docs: seq<Doc>, bound: Bound): (r: seq<Doc>)
    ensures r <= docs
    ensures bound.AtMost? ==> |r| <= bound.n
    ensures (bound.Unbounded? || |docs| <= bound.n) ==> r == docs
  {
    if bound.AtMost? && bound.n < |docs| then docs[..bound.n] else docs
  }

  /** The query for one truthy event id. */
  function Query(store: Store, event: string, bound: Bound): Fetch {
    match FetchOf(store, event)
    case Failed => Failed
    case Page(docs) => Page(Bounded(docs, bound))
  }

  /** The documents the listing reads for one entry of `eventIds`: none for a
      falsy id or a failed read, else the bounded page. */
  function EventPage(store: Store, e: EventId, bound: Bound): seq<Doc> {
    if Truthy(e) then PageDocs(Query(store, e.value, bound)) else []
  }

  /** The query issued for one entry of `eventIds`: none for a falsy id. */
  function QueryOf(store: Store, e: EventId, bound: Bound): seq<Fetch> {
    if Truthy(e) then [Query(store, e.value, bound)] else []
  }

  /** The queries a listing issues: one per truthy event id, in list order. */
  function Queries(ids: seq<EventId>, store: Store, bound: Bound): seq<Fetch>
    decreases |ids|
  {
    if ids == [] then [] else QueryOf(store, ids[0], bound) + Queries(ids[1..], store, bound)
  }

  /** All documents the fetches returned, in fetch order and then page order. */
  function Pooled(fetches: seq<Fetch>): seq<Doc> {
    if fetches == [] then [] else PageDocs(fetches[0]) + Pooled(fetches[1..])
  }

  /** The aggregation the three listings share, over the per-event "page or
      failure" outcomes. */
  function Aggregate(fetches: seq<Fetch>): (r: seq<Doc>)
    ensures DistinctIds(r)
    ensures IdSet(r) == IdSet(Pooled(fetches))
  {
    DedupIds(Pooled(fetches), {});
    Dedup(Pooled(fetches), {})
  }

  function ListTickets(eventIds: IdList, store: Store, bound: Bound): (r: Result<seq<Doc>>)
    ensures r.Failure? <==> !eventIds.List?
    ensures r.Failure? ==> r.error == InvalidArgument
    ensures r.Success? ==> DistinctIds(r.value)
  {
    if !eventIds.List? then Failure(InvalidArgument)
    else Success(Aggregate(Queries(eventIds.ids, store, bound)))
  }

  /** `loadPaginatedTickets({eventIds, limit})`: at most `limit` documents per
      event. */
  function LoadPaginatedTickets(eventIds: IdList, limit: nat, store: Store): (r: Result<seq<Doc>>)
    ensures r == Failure(InvalidArgument) <==> !eventIds.List?
    ensures r.Success? ==> DistinctIds(r.value) && |r.value| <= limit * |eventIds.ids|
  {
    PooledWithinBound(if eventIds.List? then eventIds.ids else [], store, limit);
    ListTickets(eventIds, store, AtMost(limit))
  }

  /** `fetchInitialTickets({eventIds})`: at most ten documents per event. */
  function FetchInitialTickets(eventIds: IdList, store: Store): (r: Result<seq<Doc>>)
    ensures r == Failure(InvalidArgument) <==> !eventIds.List?
    ensures r.Success? ==> DistinctIds(r.value) && |r.value| <= InitialPageSize * |eventIds.ids|
  {
    PooledWithinBound(if eventIds.List? then eventIds.ids else [], store, InitialPageSize);
    ListTickets(eventIds, store, AtMost(InitialPageSize))
  }

  /** `fetchAllTickets({eventIds})`: every document of every readable listed
      event, each id once. */
  function FetchAllTickets(eventIds: IdList, store: Store): (r: Result<seq<Doc>>)
    ensures r == Failure(InvalidArgument) <==> !eventIds.List?
    ensures r.Success? ==> DistinctIds(r.value)
    ensures r.Success? ==>
      forall i, d ::
        && 0 <= i < |eventIds.ids| && Truthy(eventIds.ids[i])
        && FetchOf(store, eventIds.ids[i].value).Page?
        && d in FetchOf(store, eventIds.ids[i].value).docs
        ==> d.id in IdSet(r.value)
  {
    ListingSoundAndComplete(if eventIds.List? then eventIds.ids else [], store, Unbounded);
    ListTickets(eventIds, store, Unbounded)
  }

  // ---------------------------------------------------------------------------
  // The loop of the source, statement by statement.

  /** The listing loop: `seenIds` and `resultTickets` carried across the
      events, a falsy id skipped, a failed read skipped as the `catch` block
      does. It computes exactly the first-seen deduplication of the pooled
      pages. */
  method CollectTickets(ids: seq<EventId>, store: Store, bound: Bound) returns (tickets: seq<Doc>)
    ensures tickets == Aggregate(Queries(ids, store, bound))
  {
    tickets := [];
    var seenIds: set<string> := {};
    var e := 0;
    while e < |ids|
      invariant 0 <= e <= |ids|
      invariant Collected(ids, e, store, bound, tickets, seenIds)
    {
      var t, s := tickets, seenIds;
      if Truthy(ids[e]) {
        var fetch := Query(store, ids[e].value, bound);
        if fetch.Page? {
          tickets, seenIds := AddPage(tickets, seenIds, fetch.docs);
        }
        // Otherwise the catch block: the event contributes nothing.
      }
      CollectStep(ids, e, store, bound, t, s, tickets, seenIds);
      e := e + 1;
    }
    assert ids[..|ids|] == ids;
  }

  /** After the first `e` entries of `ids`, the result and the seen-id set are
      the dedup, and the ids, of the pages read so far. */
  ghost predicate Collected(ids: seq<EventId>, e: nat, store: Store, bound: Bound,
                            tickets: seq<Doc>, seenIds: set<string>)
    requires e <= |ids|
  {
    var done := Pooled(Queries(ids[..e], store, bound));
    tickets == Dedup(done, {}) && seenIds == IdSet(done)
  }

  /** One step of the outer loop, on the functional side: the entry's page,
      empty for a falsy id or a failed read, is walked with the ids seen so
      far. */
  lemma CollectStep(ids: seq<EventId>, e: nat, store: Store, bound: Bound,
                    t: seq<Doc>, s: set<string>, t': seq<Doc>, s': set<string>)
    requires e < |ids| && Collected(ids, e, store, bound, t, s)
    requires var page := EventPage(store, ids[e], bound);
      if page == [] then t' == t && s' == s else t' == t + Dedup(page, s) && s' == s + IdSet(page)
    ensures Collected(ids, e + 1, store, bound, t', s')
  {
    var done := Pooled(Queries(ids[..e], store, bound));
    var page := EventPage(store, ids[e], bound);
    PooledStep(ids, e, store, bound);
    DedupAppend(done, page, {});
    IdSetAppend(done, page);
    assert {} + IdSet(done) == IdSet(done);
    if page == [] {
      assert done + page == done;
    }
  }

  lemma PooledStep(ids: seq<EventId>, e: nat, store: Store, bound: Bound)
    requires e < |ids|
    ensures Pooled(Queries(ids[..e + 1], store, bound)) ==
            Pooled(Queries(ids[..e], store, bound)) + EventPage(store, ids[e], bound)
  {
    assert ids[..e + 1] == ids[..e] + [ids[e]];
    QueriesAppend(ids[..e], [ids[e]], store, bound);
    PooledAppend(Queries(ids[..e], store, bound), Queries([ids[e]], store, bound));
    assert [ids[e]][1..] == [];
    assert Pooled(Queries([ids[e]], store, bound)) == EventPage(store, ids[e], bound);
  }

  // ---------------------------------------------------------------------------
  // Properties.

  lemma {:induction false} PooledAppend(a: seq<Fetch>, b: seq<Fetch>)
    ensures Pooled(a + b) == Pooled(a) + Pooled(b)
    decreases |a|
  {
    if a == [] {
      assert a + b == b;
    } else {
      assert (a + b)[1..] == a[1..] + b;
      PooledAppend(a[1..], b);
    }
  }

  lemma {:induction false} QueriesAppend(a: seq<EventId>, b: seq<EventId>, store: Store, bound: Bound)
    ensures Queries(a + b, store, bound) == Queries(a, store, bound) + Queries(b, store, bound)
    decreases |a|
  {
    if a == [] {
      assert a + b == b;
    } else {
      var head := QueryOf(store, a[0], bound);
      assert (a + b)[0] == a[0];
      assert (a + b)[1..] == a[1..] + b;
      QueriesAppend(a[1..], b, store, bound);
      calc {
        Queries(a + b, store, bound);
        head + Queries(a[1..] + b, store, bound);
        head + (Queries(a[1..], store, bound) + Queries(b, store, bound));
        (head + Queries(a[1..], store, bound)) + Queries(b, store, bound);
        Queries(a, store, bound) + Queries(b, store, bound);
      }
    }
  }

  /** The documents a listing reads are the pages of its entries, laid end to
      end. */
  lemma {:induction false} PooledIsEventPages(ids: seq<EventId>, store: Store, bound: Bound)
    ensures ids != [] ==>
      Pooled(Queries(ids, store, bound)) == EventPage(store, ids[0], bound) + Pooled(Queries(ids[1..], store, bound))
  {
    if ids != [] {
      QueriesAppend([ids[0]], ids[1..], store, bound);
      assert [ids[0]] + ids[1..] == ids;
      PooledAppend(Queries([ids[0]], store, bound), Queries(ids[1..], store, bound));
      assert Pooled(Queries([ids[0]], store, bound)) == EventPage(store, ids[0], bound);
    }
  }

  /** Each page holds at most `limit` documents, so the pool holds at most
      `limit` per listed entry. */
  lemma {:induction false} PooledWithinBound(ids: seq<EventId>, store: Store, limit: nat)
    ensures |Pooled(Queries(ids, store, AtMost(limit)))| <= limit * |ids|
    decreases |ids|
  {
    if ids != [] {
      var bound := AtMost(limit);
      var head := EventPage(store, ids[0], bound);
      var rest := Pooled(Queries(ids[1..], store, bound));
      PooledIsEventPages(ids, store, bound);
      assert Pooled(Queries(ids, store, bound)) == head + rest;
      PooledWithinBound(ids[1..], store, limit);
      EventPageWithinBound(store, ids[0], limit);
      var n := |ids[1..]|;
      assert |rest| <= limit * n;
      assert |head| <= limit;
      assert |ids| == n + 1;
      MulSucc(limit, n);
    }
  }

  lemma MulSucc(a: nat, n: nat)
    ensures a * (n + 1) == a * n + a
  {
  }

  lemma EventPageWithinBound(store: Store, e: EventId, limit: nat)
    ensures |EventPage(store, e, AtMost(limit))| <= limit
  {
    if Truthy(e) && FetchOf(store, e.value).Page? {
      assert EventPage(store, e, AtMost(limit)) == Bounded(FetchOf(store, e.value).docs, AtMost(limit));
    }
  }

  /** `d` is on the page the listing reads for entry `e`. */
  ghost predicate OnPage(store: Store, e: EventId, bound: Bound, d: Doc) {
    d in EventPage(store, e, bound)
  }

  lemma {:induction false} PooledMembers(ids: seq<EventId>, store: Store, bound: Bound)
    ensures forall d :: d in Pooled(Queries(ids, store, bound)) <==>
                        exists i :: 0 <= i < |ids| && OnPage(store, ids[i], bound, d)
    decreases |ids|
  {
    if ids != [] {
      PooledIsEventPages(ids, store, bound);
      PooledMembers(ids[1..], store, bound);
      forall d | d in Pooled(Queries(ids, store, bound))
        ensures exists i :: 0 <= i < |ids| && OnPage(store, ids[i], bound, d)
      {
        if !OnPage(store, ids[0], bound, d) {
          var i :| 0 <= i < |ids[1..]| && OnPage(store, ids[1..][i], bound, d);
          assert OnPage(store, ids[i + 1], bound, d);
        }
      }
      forall d | exists i :: 0 <= i < |ids| && OnPage(store, ids[i], bound, d)
        ensures d in Pooled(Queries(ids, store, bound))
      {
        var i :| 0 <= i < |ids| && OnPage(store, ids[i], bound, d);
        if i > 0 {
          assert OnPage(store, ids[1..][i - 1], bound, d);
        }
      }
    }
  }

  /** Every listed record comes from the page of some listed event, and every
      document on such a page has its id listed: a failed read elsewhere does
      not keep the other events' documents out. */
  lemma ListingSoundAndComplete(ids: seq<EventId>, store: Store, bound: Bound)
    ensures var r := ListTickets(List(ids), store, bound).value;
      forall k :: 0 <= k < |r| ==> exists i :: 0 <= i < |ids| && OnPage(store, ids[i], bound, r[k])
    ensures var r := ListTickets(List(ids), store, bound).value;
      forall i, d :: 0 <= i < |ids| && OnPage(store, ids[i], bound, d) ==> d.id in IdSet(r)
  {
    PooledMembers(ids, store, bound);
    var pool := Pooled(Queries(ids, store, bound));
    DedupIds(pool, {});
    forall i, d | 0 <= i < |ids| && OnPage(store, ids[i], bound, d)
      ensures d.id in IdSet(Dedup(pool, {}))
    {
      assert d in pool;
      assert d.id in IdSet(pool);
    }
  }

  /** When an id recurs across events, the record kept is its first
      occurrence, and records come in first-seen order. */
  lemma ListingKeepsFirstOccurrences(ids: seq<EventId>, store: Store, bound: Bound)
    ensures var pool := Pooled(Queries(ids, store, bound));
      var r := ListTickets(List(ids), store, bound).value;
      && (forall k :: 0 <= k < |r| ==> FirstOfItsId(pool, r, k))
      && (forall k1, k2 :: 0 <= k1 < k2 < |r| ==> FirstSeenBefore(pool, r, k1, k2))
  {
    var pool := Pooled(Queries(ids, store, bound));
    DedupKeepsFirstOccurrences(pool, {});
    DedupKeepsFirstSeenOrder(pool, {});
  }

  /** What each event contributes: the documents of its page whose ids no
      earlier event has shown. */
  function Contributions(ids: seq<EventId>, store: Store, bound: Bound, seen: set<string>): (segs: seq<seq<Doc>>)
    ensures |segs| == |ids|
    decreases |ids|
  {
    if ids == [] then []
    else
      var page := EventPage(store, ids[0], bound);
      [Dedup(page, seen)] + Contributions(ids[1..], store, bound, seen + IdSet(page))
  }

  /** The listing splits, event by event, into contributions: each is made of
      documents of that event's page, is no longer than the page (so at most
      the limit), and is empty for a falsy id or a failed read. */
  lemma {:induction false} ListingPerEvent(ids: seq<EventId>, store: Store, bound: Bound)
    ensures var segs := Contributions(ids, store, bound, {});
      && Concat(segs) == ListTickets(List(ids), store, bound).value
      && (forall i :: 0 <= i < |ids| ==>
            (forall d :: d in segs[i] ==> OnPage(store, ids[i], bound, d))
            && |segs[i]| <= |EventPage(store, ids[i], bound)|
            && (bound.AtMost? ==> |segs[i]| <= bound.n)
            && (!Truthy(ids[i]) || FetchOf(store, ids[i].value).Failed? ==> segs[i] == []))
  {
    ContributionsConcat(ids, store, bound, {});
    var segs := Contributions(ids, store, bound, {});
    ContributionsFromPages(ids, store, bound, {});
    forall i | 0 <= i < |ids|
      ensures forall d :: d in segs[i] ==> OnPage(store, ids[i], bound, d)
      ensures |segs[i]| <= |EventPage(store, ids[i], bound)|
      ensures bound.AtMost? ==> |segs[i]| <= bound.n
      ensures !Truthy(ids[i]) || FetchOf(store, ids[i].value).Failed? ==> segs[i] == []
    {
      var page := EventPage(store, ids[i], bound);
      assert WithinPage(segs[i], page);
      if Truthy(ids[i]) && FetchOf(store, ids[i].value).Page? {
        assert page == Bounded(FetchOf(store, ids[i].value).docs, bound);
      }
    }
  }

  /** `seg` is drawn from `page` and is no longer than it. */
  ghost predicate WithinPage(seg: seq<Doc>, page: seq<Doc>) {
    |seg| <= |page| && forall k :: 0 <= k < |seg| ==> seg[k] in page
  }

  lemma {:induction false} ContributionsFromPages(ids: seq<EventId>, store: Store, bound: Bound, seen: set<string>)
    ensures var segs := Contributions(ids, store, bound, seen);
      forall i :: 0 <= i < |ids| ==> WithinPage(segs[i], EventPage(store, ids[i], bound))
    decreases |ids|
  {
    if ids != [] {
      var page := EventPage(store, ids[0], bound);
      var segs := Contributions(ids, store, bound, seen);
      ContributionsFromPages(ids[1..], store, bound, seen + IdSet(page));
      var later := Contributions(ids[1..], store, bound, seen + IdSet(page));
      assert segs[0] == Dedup(page, seen);
      forall i | 1 <= i < |ids|
        ensures WithinPage(segs[i], EventPage(store, ids[i], bound))
      {
        assert segs[i] == later[i - 1] && ids[i] == ids[1..][i - 1];
      }
    }
  }

  lemma {:induction false} ContributionsConcat(ids: seq<EventId>, store: Store, bound: Bound, seen: set<string>)
    ensures Concat(Contributions(ids, store, bound, seen)) == Dedup(Pooled(Queries(ids, store, bound)), seen)
    decreases |ids|
  {
    if ids != [] {
      var page := EventPage(store, ids[0], bound);
      var rest := Pooled(Queries(ids[1..], store, bound));
      PooledIsEventPages(ids, store, bound);
      DedupAppend(page, rest, seen);
      ContributionsConcat(ids[1..], store, bound, seen + IdSet(page));
      var segs := Contributions(ids, store, bound, seen);
      assert segs == [Dedup(page, seen)] + Contributions(ids[1..], store, bound, seen + IdSet(page));
      ConcatAppend([Dedup(page, seen)], Contributions(ids[1..], store, bound, seen + IdSet(page)));
      assert Concat([Dedup(page, seen)]) == Dedup(page, seen);
    }
  }

  /** A failed read contributes nothing, and the events after it are still
      listed: the result is the listing without that event. The same holds
      for a falsy event id, which is skipped. */
  lemma SkippedEventContributesNothing(a: seq<EventId>, e: EventId, b: seq<EventId>, store: Store, bound: Bound)
    requires !Truthy(e) || FetchOf(store, e.value).Failed?
    ensures ListTickets(List(a + [e] + b), store, bound) == ListTickets(List(a + b), store, bound)
  {
    QueriesAppend(a + [e], b, store, bound);
    QueriesAppend(a, [e], store, bound);
    QueriesAppend(a, b, store, bound);
    var qa := Queries(a, store, bound);
    var qe := Queries([e], store, bound);
    var qb := Queries(b, store, bound);
    PooledAppend(qa + qe, qb);
    PooledAppend(qa, qe);
    PooledAppend(qa, qb);
    assert [e][1..] == [];
    assert Pooled(qe) == [];
    assert Pooled(qa + qe) == Pooled(qa);
  }
}
