/**
 The data the ticket lookup service reads: ticket documents, the per-event
 collections of the document store, the request fields the callable functions
 receive, and the two ways a call can end (a value or a categorized error).
 */
module Tickets {

  datatype Option<+T> = None | Some(value: T)

  /** The caller-facing error kinds. `Unhandled` stands for an exception the
      store client raises that the function does not catch, which fails the
      whole call. */
  datatype Error = InvalidArgument | NotFound | Unhandled

  datatype Result<+T> = Success(value: T) | Failure(error: Error)

  /** The fields of a ticket document that the service looks at; a field that
      is absent (or null) in the document is `None`. Every other field of the
      document is carried along unchanged in `rest`. */
  datatype Fields = Fields(
    barcode: Option<string>,
    wristband: Option<string>,
    firstName: Option<string>,
    surname: Option<string>,
    rest: map<string, string>)

  /** A document of an event's collection together with its store-assigned id.
      The records the search and the listings return, `{...data, id}`, are
      exactly such pairs. */
  datatype Doc = Doc(id: string, data: Fields)

  /** What reading one event's collection yields: its documents, in the order
      the query returns them, or a failure of the store. */
  datatype Fetch = Page(docs: seq<Doc>) | Failed

  /** The document store, as far as this service sees it: event id to the
      result of reading that event's collection. An event that is not a key
      has an empty collection. */
  type Store = map<string, Fetch>

  /** An entry of the caller's `eventIds` array; `None` is null or undefined. */
  type EventId = Option<string>

  /** The `eventIds` request field: missing (or another falsy value), present
      but not an array, or an array. */
  datatype IdList = Absent | NotAList | List(ids: seq<EventId>)

  /** JavaScript truthiness of an event id entry: null, undefined and "" are
      falsy. */
  predicate Truthy(e: EventId) {
    e.Some? && e.value != ""
  }

  /** JavaScript truthiness of a string request field such as `barcode`. */
  predicate Given(s: Option<string>) {
    s.Some? && s.value != ""
  }

  function FetchOf(store: Store, event: string): Fetch {
    if event in store then store[event] else Page([])
  }

  /** The documents a fetch contributes: none when it failed. */
  function PageDocs(f: Fetch): seq<Doc> {
    if f.Page? then f.docs else []
  }

  /** `x ?? ""` */
  function OrEmpty(s: Option<string>): string {
    if s.Some? then s.value else ""
  }
}
