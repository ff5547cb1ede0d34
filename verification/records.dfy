/**
 * The two row types of the hosted store (`styles` and `dreams`), what a
 * service call can throw, and the files a user picks in the browser.
 */
module Records {
  import opened Wrappers

  /** Timestamps are ISO-8601 text as the store returns them. */
  type Timestamp = string

  /** A design token of the styleguide catalogue. */
  datatype Style = Style(
    id: string,
    category: string,
    name: string,
    value: string,
    description: Option<string>,
    cssClass: Option<string>,
    createdAt: Timestamp,
    updatedAt: Timestamp)

  /** A user's dream and the media attached to it. */
  datatype Dream = Dream(
    id: string,
    userId: Option<string>,
    title: string,
    photoUrl: Option<string>,
    videoUrl: Option<string>,
    videoStatus: Option<string>,
    videoPrompt: Option<string>,
    errorMessage: Option<string>,
    createdAt: Timestamp,
    updatedAt: Timestamp)

  /**
   * A thrown value. `ErrorInstance` passes `err instanceof Error`;
   * `PlainObject` is an error object of the store client that does not.
   * Both carry a `message`.
   */
  datatype Exception = ErrorInstance(message: string) | PlainObject(message: string)

  /** `err instanceof Error ? err.message : fallback`, the pattern every catch block uses. */
  function MessageOr(e: Exception, fallback: string): string {
    match e
    case ErrorInstance(m) => m
    case PlainObject(_) => fallback
  }

  /** JavaScript truthiness of an optional string: present and non-empty. */
  predicate Truthy(u: Option<string>) {
    u.Some? && u.value != ""
  }

  /** A file chosen in an `<input type="file">`; only its name reaches the model. */
  datatype File = File(name: string)

  /** What the store assigns to an inserted row: its key and its creation time. */
  datatype RowStamp = RowStamp(id: string, at: Timestamp)

  /**
   * What the store raises when `.single()` finds no row to return, e.g. an
   * update whose `id` matches nothing. Its text belongs to the store's
   * REST layer and varies between versions; the model fixes one.
   */
  const NoSingleRow: Exception := PlainObject("JSON object requested, multiple (or no) rows returned")
}
