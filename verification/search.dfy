/**
 `searchTicketsByBarcode`: case-insensitive partial matching over every
 document of every listed event, deduplicated by id at first match.
 */
module Search {
  import opened Tickets
  import opened Text
  import opened Aggregation

  // The five strings a document is compared against; a missing field reads
  // as the empty string.

  function BarcodeKey(d: Doc): string { Lower(OrEmpty(d.data.barcode)) }

  function WristbandKey(d: Doc): string { Lower(OrEmpty(d.data.wristband)) }

  function FirstNameKey(d: Doc): string { Lower(OrEmpty(d.data.firstName)) }

  function SurnameKey(d: Doc): string { Lower(OrEmpty(d.data.surname)) }

  function FullNameKey(d: Doc): string {
    Trim(Lower(FirstNameKey(d) + " " + SurnameKey(d)))
  }

  /** The search term: the input lower-cased, then trimmed. */
  function Term(searchInput: string): string {
    Trim(Lower(searchInput))
  }

  predicate Matches(term: string, d: Doc) {
    || Includes(BarcodeKey(d), term)
    || Includes(WristbandKey(d), term)
    || Includes(FirstNameKey(d), term)
    || Includes(SurnameKey(d), term)
    || Includes(FullNameKey(d), term)
  }

  /** The matching documents of one collection, in collection order. */
  function Filter(term: string, docs: seq<Doc>): (r: seq<Doc>)
    ensures |r| <= |docs|
    ensures forall d :: d in r <==> d in docs && Matches(term, d)
    decreases |docs|
  {
    if docs == [] then []
    else if Matches(term, docs[0]) then [docs[0]] + Filter(term, docs[1..])
    else Filter(term, docs[1..])
  }

  /** The matching documents of the truthy listed events, in event order and
      then collection order, duplicates included. Reading a collection that
      fails is not caught and fails the whole search. */
  function Candidates(term: string, ids: seq<EventId>, store: Store): (r: Result<seq<Doc>>)
    ensures r.Failure? ==> r.error == Unhandled
    ensures r.Success? ==> forall d :: d in r.value ==> Matches(term, d)
    decreases |ids|
  {
    if ids == [] then Success([])
    else if !Truthy(ids[0]) then Candidates(term, ids[1..], store)
    else match FetchOf(store, ids[0].value)
      case Failed => Failure(Unhandled)
      case Page(docs) =>
        match Candidates(term, ids[1..], store)
        case Failure(e) => Failure(e)
        case Success(rest) => Success(Filter(term, docs) + rest)
  }

  /** `searchTicketsByBarcode({searchInput, eventIds})`: the tickets, each id
      once, in the order of their first match. */
  function SearchTicketsByBarcode(searchInput: Option<string>, eventIds: IdList, store: Store): (r: Result<seq<Doc>>)
    ensures r == Failure(InvalidArgument) <==> !Given(searchInput) || !eventIds.List?
    ensures r.Failure? ==> r.error in {InvalidArgument, Unhandled}
    ensures r.Success? ==> DistinctIds(r.value)
    ensures r.Success? ==> forall k :: 0 <= k < |r.value| ==> Matches(Term(searchInput.value), r.value[k])
  {
    if !Given(searchInput) || !eventIds.List? then Failure(InvalidArgument)
    else
      var term := Term(searchInput.value);
      match Candidates(term, eventIds.ids, store)
      case Failure(e) => Failure(e)
      case Success(c) => Success(Dedup(c, {}))
  }

  // ---------------------------------------------------------------------------
  // Properties.

  /** `d` is a document of the readable collection of the truthy event id `e`. */
  ghost predicate InCollection(store: Store, e: EventId, d: Doc) {
    Truthy(e) && FetchOf(store, e.value).Page? && d in FetchOf(store, e.value).docs
  }

  /** The candidates are exactly the matching documents of the listed events,
      and they exist exactly when no truthy event's collection fails to read. */
  lemma {:induction false} CandidatesMembers(term: string, ids: seq<EventId>, store: Store)
    ensures Candidates(term, ids, store).Success? <==>
            forall i :: 0 <= i < |ids| && Truthy(ids[i]) ==> FetchOf(store, ids[i].value).Page?
    ensures Candidates(term, ids, store).Success? ==>
            forall d :: d in Candidates(term, ids, store).value <==>
              Matches(term, d) && exists i :: 0 <= i < |ids| && InCollection(store, ids[i], d)
    decreases |ids|
  {
    if ids != [] {
      var tail := ids[1..];
      CandidatesMembers(term, tail, store);
      assert forall i :: 0 <= i < |tail| ==> tail[i] == ids[i + 1];
      var r := Candidates(term, ids, store);
      if r.Success? {
        var c := r.value;
        var rest := Candidates(term, tail, store).value;
        forall d | d in c
          ensures Matches(term, d) && exists i :: 0 <= i < |ids| && InCollection(store, ids[i], d)
        {
          if d in rest {
            var i :| 0 <= i < |tail| && InCollection(store, tail[i], d);
            assert InCollection(store, ids[i + 1], d);
          } else {
            assert InCollection(store, ids[0], d);
          }
        }
        forall d | Matches(term, d) && exists i :: 0 <= i < |ids| && InCollection(store, ids[i], d)
          ensures d in c
        {
          var i :| 0 <= i < |ids| && InCollection(store, ids[i], d);
          if i > 0 {
            assert InCollection(store, tail[i - 1], d);
          }
        }
      }
    }
  }

  /** A successful search returns exactly one record for each id of a
      matching document of a listed event, and nothing else. */
  lemma SearchSoundAndComplete(searchInput: Option<string>, eventIds: IdList, store: Store)
    requires SearchTicketsByBarcode(searchInput, eventIds, store).Success?
    ensures var r := SearchTicketsByBarcode(searchInput, eventIds, store).value;
      forall k :: 0 <= k < |r| ==>
        exists i :: 0 <= i < |eventIds.ids| && InCollection(store, eventIds.ids[i], r[k])
    ensures var r := SearchTicketsByBarcode(searchInput, eventIds, store).value;
      forall i, d ::
        0 <= i < |eventIds.ids| && InCollection(store, eventIds.ids[i], d) && Matches(Term(searchInput.value), d)
        ==> d.id in IdSet(r)
  {
    var term := Term(searchInput.value);
    var ids := eventIds.ids;
    CandidatesMembers(term, ids, store);
    var c := Candidates(term, ids, store).value;
    var r := Dedup(c, {});
    DedupIds(c, {});
    forall i, d | 0 <= i < |ids| && InCollection(store, ids[i], d) && Matches(term, d)
      ensures d.id in IdSet(r)
    {
      assert d in c;
      assert d.id in IdSet(c);
    }
  }

  /** A search fails, once its input is valid, exactly when some truthy
      listed event's collection fails to read. */
  lemma SearchFailsOnlyOnStoreErrors(searchInput: Option<string>, eventIds: IdList, store: Store)
    requires Given(searchInput) && eventIds.List?
    ensures SearchTicketsByBarcode(searchInput, eventIds, store).Failure? <==>
            exists i :: 0 <= i < |eventIds.ids| && Truthy(eventIds.ids[i])
                        && FetchOf(store, eventIds.ids[i].value).Failed?
  {
    CandidatesMembers(Term(searchInput.value), eventIds.ids, store);
  }

  /** When an id recurs, the record kept is its first matching occurrence, in
      event order and then collection order, and the records come in the
      order of those first matches. */
  lemma SearchKeepsFirstMatch(searchInput: Option<string>, eventIds: IdList, store: Store)
    requires SearchTicketsByBarcode(searchInput, eventIds, store).Success?
    ensures var c := Candidates(Term(searchInput.value), eventIds.ids, store);
      var r := SearchTicketsByBarcode(searchInput, eventIds, store).value;
      && c.Success?
      && (forall k :: 0 <= k < |r| ==> FirstOfItsId(c.value, r, k))
      && (forall k1, k2 :: 0 <= k1 < k2 < |r| ==> FirstSeenBefore(c.value, r, k1, k2))
  {
    var c := Candidates(Term(searchInput.value), eventIds.ids, store).value;
    DedupKeepsFirstOccurrences(c, {});
    DedupKeepsFirstSeenOrder(c, {});
  }

  /** A search input made only of white space (say "   ") passes validation
      and then matches every document of every listed event. */
  lemma BlankSearchMatchesAll(searchInput: Option<string>, eventIds: IdList, store: Store)
    requires Given(searchInput) && forall i :: 0 <= i < |searchInput.value| ==> IsJsSpace(searchInput.value[i])
    requires SearchTicketsByBarcode(searchInput, eventIds, store).Success?
    ensures var r := SearchTicketsByBarcode(searchInput, eventIds, store).value;
      forall i, d :: 0 <= i < |eventIds.ids| && InCollection(store, eventIds.ids[i], d) ==> d.id in IdSet(r)
  {
    BlankTerm(searchInput.value);
    forall d: Doc
      ensures Matches("", d)
    {
      EmptyIncludedEverywhere(BarcodeKey(d));
    }
    SearchSoundAndComplete(searchInput, eventIds, store);
  }

  /** Lower-casing leaves white space alone, and trimming removes all of it. */
  lemma BlankTerm(s: string)
    requires forall i :: 0 <= i < |s| ==> IsJsSpace(s[i])
    ensures Term(s) == ""
  {
    LowerPointwise(s);
    assert Lower(s) == s;
  }

  /** Falsy event ids are skipped: removing one changes nothing. */
  lemma {:induction false} CandidatesSkipFalsy(term: string, a: seq<EventId>, e: EventId, b: seq<EventId>, store: Store)
    requires !Truthy(e)
    ensures Candidates(term, a + [e] + b, store) == Candidates(term, a + b, store)
    decreases |a|
  {
    if a == [] {
      assert a + [e] + b == [e] + b;
      assert ([e] + b)[1..] == b;
      assert a + b == b;
    } else {
      assert (a + [e] + b)[0] == a[0] && (a + b)[0] == a[0];
      assert (a + [e] + b)[1..] == a[1..] + [e] + b;
      assert (a + b)[1..] == a[1..] + b;
      CandidatesSkipFalsy(term, a[1..], e, b, store);
    }
  }

  lemma SearchSkipsFalsyIds(searchInput: Option<string>, a: seq<EventId>, e: EventId, b: seq<EventId>, store: Store)
    requires !Truthy(e)
    ensures SearchTicketsByBarcode(searchInput, List(a + [e] + b), store) ==
            SearchTicketsByBarcode(searchInput, List(a + b), store)
  {
    if Given(searchInput) {
      CandidatesSkipFalsy(Term(searchInput.value), a, e, b, store);
    }
  }

  /** The second lower-casing of the full name changes nothing: the full name
      is the trimmed join of the lower-cased first name and surname. */
  lemma FullNameIsJoinedNames(d: Doc)
    ensures FullNameKey(d) == Trim(FirstNameKey(d) + " " + SurnameKey(d))
  {
    var f := FirstNameKey(d);
    var s := SurnameKey(d);
    assert Lower(f + " " + s) == f + " " + s by {
      LowerAppend(f + " ", s);
      LowerAppend(f, " ");
      assert Lower(" ") == " ";
      LowerIdempotent(OrEmpty(d.data.firstName));
      LowerIdempotent(OrEmpty(d.data.surname));
    }
  }

  // ---------------------------------------------------------------------------
  // Worked examples.

  function Attendee(id: string, first: string, last: string): Doc {
    Doc(id, Fields(None, None, Some(first), Some(last), map[]))
  }

  /** "Jo Smith" finds Jo Smith through the joined full name only: neither
      name alone contains the term. */
  lemma FullNameExample()
    ensures Term("Jo Smith") == "jo smith"
    ensures Matches(Term("Jo Smith"), Attendee("t1", "Jo", "Smith"))
    ensures !Includes(FirstNameKey(Attendee("t1", "Jo", "Smith")), "jo smith")
    ensures !Includes(SurnameKey(Attendee("t1", "Jo", "Smith")), "jo smith")
  {
    var t := Attendee("t1", "Jo", "Smith");
    TermJoSmith();
    JoSmithNames();
    JoSmithFullName();
    assert Includes(FullNameKey(t), "jo smith") by {
      assert "jo smith" <= "jo smith";
    }
  }

  /** The search term typed as "Jo Smith". */
  lemma TermJoSmith()
    ensures Term("Jo Smith") == "jo smith"
  {
    assert Lower("Jo Smith") == "jo smith" by {
      assert Lower("Jo Smith") == [LowerChar('J')] + Lower("o Smith");
      assert Lower("o Smith") == "o" + Lower(" Smith");
      assert Lower(" Smith") == " " + Lower("Smith");
      assert Lower("Smith") == "smith";
    }
    TrimJoSmith();
  }

  /** "jo smith" has no white space to trim. */
  lemma TrimJoSmith()
    ensures Trim("jo smith") == "jo smith"
  {
    TrimKeepsUnpadded("jo smith");
  }

  /** The first-name and surname keys of the attendee Jo Smith. */
  lemma JoSmithNames()
    ensures FirstNameKey(Attendee("t1", "Jo", "Smith")) == "jo"
    ensures SurnameKey(Attendee("t1", "Jo", "Smith")) == "smith"
  {
    assert Lower("Jo") == "jo";
    assert Lower("Smith") == "smith";
  }

  /** The full-name key of the attendee Jo Smith joins the two names. */
  lemma JoSmithFullName()
    ensures FullNameKey(Attendee("t1", "Jo", "Smith")) == "jo smith"
  {
    var t := Attendee("t1", "Jo", "Smith");
    JoSmithNames();
    FullNameIsJoinedNames(t);
    assert "jo" + " " + "smith" == "jo smith";
    TrimJoSmith();
  }

  /** Matching ignores case: "ana" finds Ana Smith through the first name. */
  lemma CaseInsensitiveExample()
    ensures Matches(Term("ana"), Attendee("t2", "Ana", "Smith"))
  {
    assert Term("ana") == "ana" by {
      assert Lower("ana") == "ana";
      assert Trim("ana") == "ana" by {
        TrimKeepsUnpadded("ana");
      }
    }
    assert FirstNameKey(Attendee("t2", "Ana", "Smith")) == "ana" by {
      assert Lower("Ana") == "ana";
    }
    assert Includes("ana", "ana");
  }
}
