# Ticket lookup service: a Dafny model

This project models the selection and aggregation logic of five remote-callable
functions. They look up "ticket" documents stored per event in a document store:

- `findTicketByBarcode` is an exact-match lookup. Events are tried in list
  order. In each event a `barcode` match beats a `wristband_barcode` match.
- `searchTicketsByBarcode` is a case-insensitive substring search. It matches
  on barcode, wristband barcode, first name, surname and the joined full name.
  Each id is returned once, at its first match.
- `loadPaginatedTickets`, `fetchInitialTickets` and `fetchAllTickets` are the
  listings. They share one loop: falsy event ids are skipped and each event's
  page is read. A document is emitted the first time its id is seen. A failed
  read (the `get()` of the event's query) contributes nothing, and the loop
  goes on. The query itself is built outside the `try`; see "Left out".

The document store is a pure input, `Store = map<string, Fetch>`. It maps an
event id to `Page(docs)`, the collection in the order the operation's query
returns it, or to `Failed`, a read that raises. An event that is not a key has
an empty collection. Request fields are modelled in the same way:

- `barcode` and `searchInput` are `Option<string>`. `Given` is JavaScript
  truthiness: a missing, null or empty value is not `Given`, and index.js:10
  and :62 reject it.
- `eventIds` is an `IdList`: `Absent`, `NotAList`, or `List` of
  `Option<string>` entries. An entry is `Truthy` unless it is null, undefined
  or `""`.

Errors are a plain datatype:

- `InvalidArgument` and `NotFound` are the two `HttpsError` kinds.
- `Unhandled` is an exception the function does not catch, so the whole call
  fails.

Modules, one per part of `index.js`:

- `Tickets` holds the data model.
- `Text` holds ASCII `toLowerCase`, JavaScript `trim` and `includes`. It also
  holds `OccursIn`, an independent specification of `includes`.
- `Aggregation` holds the first-seen deduplication by id that the search (a
  `Map` keyed by id) and the listings (a `Set` of seen ids) share. It also
  holds the listings' loop over one page, which keeps that set.
- `Finder`, `Search` and `Listing` hold the five operations.

The code checks less than its own messages suggest, and the model follows
the code:

- No operation checks that `eventIds` is non-empty. The listings' message
  (index.js:118) even says "must be a non-empty array", but an empty array
  passes validation. The finder then answers not-found, and the search and
  listings answer an empty list.
- The finder does not skip falsy event ids, unlike the search and the listings.
  It passes them to `collection(...)`, which throws for an empty or missing
  name. Nothing catches that, so the model answers `Unhandled`.
- A failed read fails the whole call in the finder and the search. In the
  listings it is caught and the event contributes nothing.

## Model

| member | source | states |
|---|---|---|
| `Text.LeadingSpace` | index.js:69 | the run that `trim` removes at the front: every character before the count is JavaScript white space, and the one at the count is not |
| `Text.TrailingSpace` | index.js:69 | the run that `trim` removes at the back, symmetrically |
| `Text.Trim` | index.js:69 | `trim` never lengthens its input, and its result is empty or neither starts nor ends with JavaScript white space |
| `Text.TrimIsStripped` | index.js:69 | `trim` yields the infix of its input that starts where the leading white space ends; everything before and after it is white space, so nothing else is removed |
| `Text.TrimKeepsUnpadded` | index.js:69 | `trim` returns a non-empty string unchanged when neither end is white space |
| `Text.LowerPointwise` | index.js:69 | `toLowerCase` keeps the length and lower-cases each character on its own (ASCII letters only; see "Left out") |
| `Text.LowerAppend` | index.js:92 | lower-casing a concatenation lower-cases each part |
| `Text.LowerIdempotent` | index.js:92 | lower-casing an already lower-cased string changes nothing |
| `Text.IncludesIff` | index.js:96-100 | `includes` returns true exactly when the needle occurs at some offset of the haystack, in both directions |
| `Aggregation.Dedup` | index.js:139-147 | first-seen dedup returns pairwise-distinct ids, each record drawn from the input and none of them already seen, and is no longer than its input |
| `Aggregation.DedupIds` | index.js:139-147 | the ids kept are exactly the input's ids that were not already seen |
| `Aggregation.DedupKeepsFirstOccurrences` | index.js:143-146 | every kept record is the first document of the input carrying its id |
| `Aggregation.DedupKeepsFirstSeenOrder` | index.js:143-146 | kept records come in the order in which their ids first appear |
| `Aggregation.DedupAppend` | index.js:122-151 | carrying the seen-id set across events is the same as deduplicating the concatenated pages |
| `Aggregation.DedupSnoc` | index.js:143-146 | one `forEach` step pushes the document exactly when its id is not among the ids seen so far |
| `Aggregation.AddPage` | index.js:139-147 | the `snapshot.forEach` body over one page appends exactly the page's first-seen documents whose ids were not already seen, and adds the page's ids to the seen set |
| `Finder.FirstWhere` | index.js:27-30 | `where(field, "==", v).limit(1)` yields the first document whose field equals `v`, or none when no document's field does |
| `Finder.FindIn` | index.js:17-55 | the per-event loop never raises invalid-argument; its outcome is characterised by `Finder.FindInOutcome` |
| `Finder.FindTicketByBarcode` | index.js:10-15 | invalid-argument exactly when the barcode is missing or empty, or `eventIds` is missing or not an array |
| `Finder.FindInOutcome` | index.js:17-55 | not-found exactly when every listed event was read and none has a `barcode` or `wristband_barcode` equal to the input; unhandled failure exactly when an unreadable or falsy entry comes before any hit; success exactly when some event with a hit is reached first, and then the answer is that event's first `barcode` match, or its first `wristband_barcode` match when it has no `barcode` match, with that record's own id |
| `Finder.FindRejectsBadRequests` | index.js:10-15 | bad requests are rejected whatever the store holds; an empty `eventIds` array passes validation and yields not-found |
| `Finder.FindExample` | index.js:26-38 | a ticket with barcode "ABC123" in the only listed event is returned as `{ticket, id: "t1"}` |
| `Finder.FindPriorityExample` | index.js:17-49 | an earlier event's wristband match beats a later event's barcode match; within one event a barcode match beats an earlier wristband match |
| `Search.Filter` | index.js:95-101 | a document is kept exactly when it is in the collection and matches the term |
| `Search.Candidates` | index.js:72-107 | the documents gathered across events all match the term, and gathering fails only by an unhandled store error |
| `Search.SearchTicketsByBarcode` | index.js:59-110 | invalid-argument exactly when the search input is missing or empty, or `eventIds` is missing or not an array; any other failure is an unhandled store error; returned ids are pairwise distinct and every record matches the lower-cased, trimmed term |
| `Search.CandidatesMembers` | index.js:72-106 | the gathered documents are exactly the matching documents of the truthy listed events, and they exist exactly when no truthy event's read fails |
| `Search.SearchSoundAndComplete` | index.js:84-109 | every returned record is a document of a listed event, and every matching document of a listed event has its id returned |
| `Search.SearchFailsOnlyOnStoreErrors` | index.js:82 | a valid search fails exactly when reading some truthy listed event fails |
| `Search.SearchKeepsFirstMatch` | index.js:102-104 | for a recurring id, the record kept is its first matching occurrence in event order and then collection order, and records come in first-match order |
| `Search.BlankSearchMatchesAll` | index.js:69 | a search input of only white space passes validation and then returns every document of every listed event |
| `Search.BlankTerm` | index.js:69 | an input made only of white space lower-cases and trims to the empty term |
| `Search.CandidatesSkipFalsy` | index.js:73 | a falsy event id contributes nothing to the gathered documents |
| `Search.SearchSkipsFalsyIds` | index.js:73 | removing a falsy event id does not change the search result |
| `Search.FullNameIsJoinedNames` | index.js:90-92 | the full name is the trimmed join, with one space, of the lower-cased first name and surname; the second lower-casing is a no-op |
| `Search.FullNameExample` | index.js:92-100 | "Jo Smith" matches first name "Jo" and surname "Smith" through the full name, though neither name alone contains it |
| `Search.CaseInsensitiveExample` | index.js:88-101 | "ana" matches the attendee "Ana Smith" whatever the case |
| `Listing.Bounded` | index.js:133-134 | `.limit(n)` keeps a prefix of the ordered collection of at most `n` documents, and the whole collection when it is no longer than `n` or when there is no limit |
| `Listing.Aggregate` | index.js:122-153 | the listing output has pairwise-distinct ids, and its ids are exactly the ids on the pages read |
| `Listing.ListTickets` | index.js:115-153 | invalid-argument exactly when `eventIds` is missing or not an array; otherwise the call succeeds with pairwise-distinct ids |
| `Listing.LoadPaginatedTickets` | index.js:112-154 | invalid-argument exactly when `eventIds` is missing or not an array; otherwise distinct ids, at most `limit` per entry of `eventIds` |
| `Listing.FetchInitialTickets` | index.js:156-198 | as the paginated listing with a fixed limit of 10 per entry |
| `Listing.FetchAllTickets` | index.js:200-241 | invalid-argument exactly when `eventIds` is missing or not an array; otherwise distinct ids, and every document of every readable truthy listed event has its id listed |
| `Listing.CollectTickets` | index.js:122-153 | the loop with `seenIds` and `resultTickets`, which skips falsy ids and swallows failed reads, computes exactly the first-seen dedup of the pages read |
| `Listing.CollectStep` | index.js:125-150 | one pass of the outer loop walks the entry's page, empty for a falsy id or a failed read, with the ids seen so far, which keeps the result equal to the dedup of the pages read |
| `Listing.PooledIsEventPages` | index.js:125-150 | the documents a listing reads are the first entry's page followed by those of the remaining entries |
| `Listing.PooledWithinBound` | index.js:134 | with `limit(n)`, the pages read hold at most `n` documents per entry of `eventIds` |
| `Listing.ListingSoundAndComplete` | index.js:125-151 | every listed record is on the page of some listed event, and every document on such a page has its id listed, failed reads elsewhere notwithstanding |
| `Listing.ListingKeepsFirstOccurrences` | index.js:139-147 | for a recurring id, the record kept is its first occurrence across events, and records come in first-seen order |
| `Listing.ListingPerEvent` | index.js:125-151 | the output splits, entry by entry, into contributions drawn from that entry's page; each is no longer than the page and at most the limit, and it is empty for a falsy id or a failed read |
| `Listing.SkippedEventContributesNothing` | index.js:125-150 | a falsy id or a failed read can be removed from `eventIds` without changing the listing, so later events are still processed and returned |

## Left out

- The document store's own semantics: collection paths, query execution,
  `orderBy("created_at")` (including that it drops documents lacking the
  field), the default document order, and what `limit` does with a missing,
  zero or negative value. Each operation takes the event's collection as an
  already ordered sequence, and `limit` as a `nat`.
- Errors while building a listing's query. Each listing builds its query
  outside the `try` (index.js:128-134, 172-178, 216-221), so a throw there
  escapes the `catch` and fails the whole call. Two inputs reach it: a missing
  or non-integer `limit`, and a truthy event id that is not a valid collection
  name. The model gives `limit` as a `nat` and treats every truthy id as a
  valid name, so `Fetch.Failed` stands only for the `get()` at index.js:137.
- Per-query failures in the finder. A read failure is modelled per event, so
  the `barcode` and `wristband_barcode` queries of one event fail or succeed
  together.
- Non-string values: a numeric `barcode`, or a non-string field that would make
  `toLowerCase` throw. Request fields and document fields are strings or
  absent.
- `Text.Lower`: lower-cases ASCII letters only. JavaScript's Unicode case
  mapping tables are not reproduced. `trim` uses JavaScript's full white-space
  and line-terminator set.
- `Text.LowerPointwise`: states the character mapping of the ASCII-only
  `Text.Lower`, so it says nothing about non-ASCII letters.
- `Listing.LoadPaginatedTickets`: the ensures bounds the total at `limit`
  times the number of entries. The per-event bound is stated by
  `Listing.ListingPerEvent`.
- `Listing.FetchInitialTickets`: the same, with 10 in place of `limit`.
- Logging, timing (`console.log`, `Date.now`, `toFixed`), `async`/`await`,
  Cloud Functions transport and the `HttpsError` wire format, including its
  messages.
