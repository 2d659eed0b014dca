/**
 `findTicketByBarcode`: the exact-match lookup. Event ids are tried in list
 order; in each event a `barcode` match is looked for first and a
 `wristband_barcode` match second, and the first hit ends the search.
 */
module Finder {
  import opened Tickets

  /** The success payload `{ ticket: doc.data(), id: doc.id }`. */
  datatype Found = Found(ticket: Fields, id: string)

  /** The two fields an exact-match query filters on. */
  datatype Key = Barcode | Wristband

  function KeyValue(d: Doc, key: Key): Option<string> {
    match key
    case Barcode => d.data.barcode
    case Wristband => d.data.wristband
  }

  function FoundOf(d: Doc): Found {
    Found(d.data, d.id)
  }

  /** `where(key, "==", value).limit(1)`: the position of the first document
      whose `key` field equals `value`, if any. */
  function FirstWhere(docs: seq<Doc>, key: Key, value: string): (r: Option<nat>)
    ensures r.Some? ==> r.value < |docs| && KeyValue(docs[r.value], key) == Some(value)
    ensures r.Some? ==> forall m :: 0 <= m < r.value ==> KeyValue(docs[m], key) != Some(value)
    ensures r.None? ==> forall m :: 0 <= m < |docs| ==> KeyValue(docs[m], key) != Some(value)
  {
    if docs == [] then None
    else if KeyValue(docs[0], key) == Some(value) then Some(0)
    else match FirstWhere(docs[1..], key, value)
      case None => None
      case Some(p) => Some(p + 1)
  }

  /** The loop over the event ids, once the request has been validated. A
      falsy id, or a store failure, raises out of the loop: the store client
      rejects an empty or missing collection name, and nothing catches it. */
  function FindIn(barcode: string, ids: seq<EventId>, store: Store): (r: Result<Found>)
    ensures r != Failure(InvalidArgument)
    decreases |ids|
  {
    if ids == [] then Failure(NotFound)
    else if !Truthy(ids[0]) then Failure(Unhandled)
    else match FetchOf(store, ids[0].value)
      case Failed => Failure(Unhandled)
      case Page(docs) =>
        match FirstWhere(docs, Barcode, barcode)
        case Some(p) => Success(FoundOf(docs[p]))
        case None =>
          match FirstWhere(docs, Wristband, barcode)
          case Some(p) => Success(FoundOf(docs[p]))
          case None => FindIn(barcode, ids[1..], store)
  }

  /** `findTicketByBarcode({barcode, eventIds})`. */
  function FindTicketByBarcode(barcode: Option<string>, eventIds: IdList, store: Store): (r: Result<Found>)
    ensures r == Failure(InvalidArgument) <==> !Given(barcode) || !eventIds.List?
  {
    if !Given(barcode) || !eventIds.List? then Failure(InvalidArgument)
    else FindIn(barcode.value, eventIds.ids, store)
  }

  // ---------------------------------------------------------------------------
  // An independent description of the outcome, in terms of which events hold a
  // hit and which can be read.

  /** `d` is a hit for `barcode`: either of its two barcode fields equals it. */
  predicate IsHit(d: Doc, barcode: string) {
    d.data.barcode == Some(barcode) || d.data.wristband == Some(barcode)
  }

  ghost predicate HasHit(docs: seq<Doc>, barcode: string) {
    exists k :: 0 <= k < |docs| && IsHit(docs[k], barcode)
  }

  /** The event id can be queried: it is truthy and reading its collection
      does not fail. */
  predicate Readable(store: Store, e: EventId) {
    Truthy(e) && FetchOf(store, e.value).Page?
  }

  function DocsOf(store: Store, e: EventId): seq<Doc>
    requires Readable(store, e)
  {
    FetchOf(store, e.value).docs
  }

  /** The events before position `i` are all readable and hold no hit. */
  ghost predicate MissedBefore(store: Store, ids: seq<EventId>, i: nat, barcode: string)
    requires i <= |ids|
  {
    forall j :: 0 <= j < i ==> Readable(store, ids[j]) && !HasHit(DocsOf(store, ids[j]), barcode)
  }

  /** `f` is what an event with collection `docs` answers: its first `barcode`
      match, or, when it has none, its first `wristband_barcode` match. */
  ghost predicate PreferredHit(docs: seq<Doc>, barcode: string, f: Found) {
    exists k :: 0 <= k < |docs| && f == FoundOf(docs[k]) &&
      (|| (docs[k].data.barcode == Some(barcode)
           && forall m :: 0 <= m < k ==> docs[m].data.barcode != Some(barcode))
       || (&& docs[k].data.wristband == Some(barcode)
           && (forall m :: 0 <= m < |docs| ==> docs[m].data.barcode != Some(barcode))
           && (forall m :: 0 <= m < k ==> docs[m].data.wristband != Some(barcode))))
  }

  /** The outcome of the loop, characterised: not-found exactly when every
      event was read and none holds a hit; an unhandled failure exactly when an
      unreadable event is reached before any hit; success exactly when some
      event with a hit is reached, and then the answer is that event's
      preferred hit. */
  lemma {:induction false} FindInOutcome(barcode: string, ids: seq<EventId>, store: Store)
    ensures FindIn(barcode, ids, store) == Failure(NotFound) <==> MissedBefore(store, ids, |ids|, barcode)
    ensures FindIn(barcode, ids, store) == Failure(Unhandled) <==>
            exists i :: 0 <= i < |ids| && MissedBefore(store, ids, i, barcode) && !Readable(store, ids[i])
    ensures FindIn(barcode, ids, store).Success? <==>
            exists i :: 0 <= i < |ids| && MissedBefore(store, ids, i, barcode)
                        && Readable(store, ids[i]) && HasHit(DocsOf(store, ids[i]), barcode)
    ensures forall i :: 0 <= i < |ids| && MissedBefore(store, ids, i, barcode)
                        && Readable(store, ids[i]) && HasHit(DocsOf(store, ids[i]), barcode) ==>
              FindIn(barcode, ids, store).Success? &&
              PreferredHit(DocsOf(store, ids[i]), barcode, FindIn(barcode, ids, store).value)
    decreases |ids|
  {
    var r := FindIn(barcode, ids, store);
    if ids == [] {
      return;
    }
    var e := ids[0];
    var tail := ids[1..];
    forall i | 1 <= i <= |ids|
      ensures MissedBefore(store, ids, i, barcode) <==>
              Readable(store, e) && !HasHit(DocsOf(store, e), barcode) && MissedBefore(store, tail, i - 1, barcode)
    {
      MissedShift(store, ids, i, barcode);
    }
    assert MissedBefore(store, ids, 0, barcode);
    if !Readable(store, e) {
      assert r == Failure(Unhandled);
      assert !MissedBefore(store, ids, |ids|, barcode);
      forall i | 0 <= i < |ids| && MissedBefore(store, ids, i, barcode)
        ensures !Readable(store, ids[i])
      {
        assert i == 0;
      }
      return;
    }
    var docs := DocsOf(store, e);
    if HasHit(docs, barcode) {
      HitHere(barcode, ids, store);
      assert !MissedBefore(store, ids, |ids|, barcode);
      forall i | 0 <= i < |ids| && MissedBefore(store, ids, i, barcode)
        ensures i == 0
      {
      }
    } else {
      MissHere(barcode, ids, store);
      FindInOutcome(barcode, tail, store);
      if r == Failure(Unhandled) {
        var i :| 0 <= i < |tail| && MissedBefore(store, tail, i, barcode) && !Readable(store, tail[i]);
        assert MissedBefore(store, ids, i + 1, barcode) && !Readable(store, ids[i + 1]);
      }
      if r.Success? {
        var i :| 0 <= i < |tail| && MissedBefore(store, tail, i, barcode)
                 && Readable(store, tail[i]) && HasHit(DocsOf(store, tail[i]), barcode);
        assert MissedBefore(store, ids, i + 1, barcode) && ids[i + 1] == tail[i];
      }
      forall i | 0 <= i < |ids| && MissedBefore(store, ids, i, barcode) && !Readable(store, ids[i])
        ensures r == Failure(Unhandled)
      {
        assert i != 0;
        assert MissedBefore(store, tail, i - 1, barcode) && tail[i - 1] == ids[i];
      }
      forall i | 0 <= i < |ids| && MissedBefore(store, ids, i, barcode)
                 && Readable(store, ids[i]) && HasHit(DocsOf(store, ids[i]), barcode)
        ensures r.Success? && PreferredHit(DocsOf(store, ids[i]), barcode, r.value)
      {
        assert i != 0;
        assert MissedBefore(store, tail, i - 1, barcode) && tail[i - 1] == ids[i];
      }
    }
  }

  /** A readable first event holding a hit answers with its preferred hit. */
  lemma HitHere(barcode: string, ids: seq<EventId>, store: Store)
    requires ids != [] && Readable(store, ids[0]) && HasHit(DocsOf(store, ids[0]), barcode)
    ensures FindIn(barcode, ids, store).Success?
    ensures PreferredHit(DocsOf(store, ids[0]), barcode, FindIn(barcode, ids, store).value)
  {
    var docs := DocsOf(store, ids[0]);
    var k :| 0 <= k < |docs| && IsHit(docs[k], barcode);
    var byBarcode := FirstWhere(docs, Barcode, barcode);
    var byWristband := FirstWhere(docs, Wristband, barcode);
    assert byBarcode.Some? || byWristband.Some? by {
      if byBarcode.None? {
        assert KeyValue(docs[k], Barcode) != Some(barcode);
      }
    }
    var p := if byBarcode.Some? then byBarcode.value else byWristband.value;
    assert FindIn(barcode, ids, store) == Success(FoundOf(docs[p]));
  }

  /** A readable first event without a hit passes the search on. */
  lemma MissHere(barcode: string, ids: seq<EventId>, store: Store)
    requires ids != [] && Readable(store, ids[0]) && !HasHit(DocsOf(store, ids[0]), barcode)
    ensures FindIn(barcode, ids, store) == FindIn(barcode, ids[1..], store)
  {
    var docs := DocsOf(store, ids[0]);
    forall p | 0 <= p < |docs|
      ensures !IsHit(docs[p], barcode)
    {
    }
  }

  /** Position 0 of `ids` and position `i - 1` of its tail line up. */
  lemma MissedShift(store: Store, ids: seq<EventId>, i: nat, barcode: string)
    requires 1 <= i <= |ids|
    ensures MissedBefore(store, ids, i, barcode) <==>
            && Readable(store, ids[0]) && !HasHit(DocsOf(store, ids[0]), barcode)
            && MissedBefore(store, ids[1..], i - 1, barcode)
  {
    if MissedBefore(store, ids, i, barcode) {
      forall j | 0 <= j < i - 1
        ensures Readable(store, ids[1..][j]) && !HasHit(DocsOf(store, ids[1..][j]), barcode)
      {
        assert ids[1..][j] == ids[j + 1];
      }
    }
  }

  /** Input validation comes first: a missing or empty barcode, or an
      `eventIds` that is missing or not an array, is rejected whatever the
      store holds; an empty array passes and yields not-found. */
  lemma FindRejectsBadRequests(barcode: Option<string>, eventIds: IdList, store: Store)
    ensures !Given(barcode) ==> FindTicketByBarcode(barcode, eventIds, store) == Failure(InvalidArgument)
    ensures !eventIds.List? ==> FindTicketByBarcode(barcode, eventIds, store) == Failure(InvalidArgument)
    ensures Given(barcode) && eventIds == List([]) ==>
              FindTicketByBarcode(barcode, eventIds, store) == Failure(NotFound)
  {
  }

  /** A ticket whose `barcode` is "ABC123" in the only listed event is found,
      with its own id. */
  lemma FindExample()
    ensures var t1 := Fields(Some("ABC123"), None, None, None, map[]);
      FindTicketByBarcode(Some("ABC123"), List([Some("e1")]), map["e1" := Page([Doc("t1", t1)])])
        == Success(Found(t1, "t1"))
  {
  }

  /** An earlier event's wristband match beats a later event's barcode match,
      and within one event a barcode match beats an earlier wristband match. */
  lemma FindPriorityExample()
    ensures var w := Doc("w", Fields(None, Some("X"), None, None, map[]));
      var b := Doc("b", Fields(Some("X"), None, None, None, map[]));
      && FindTicketByBarcode(Some("X"), List([Some("e1"), Some("e2")]),
                             map["e1" := Page([w]), "e2" := Page([b])]) == Success(FoundOf(w))
      && FindTicketByBarcode(Some("X"), List([Some("e1")]),
                             map["e1" := Page([w, b])]) == Success(FoundOf(b))
  {
    var w := Doc("w", Fields(None, Some("X"), None, None, map[]));
    var b := Doc("b", Fields(Some("X"), None, None, None, map[]));
    assert FirstWhere([w, b], Barcode, "X") == Some(1) by {
      assert [w, b][1..] == [b];
    }
  }
}
