/**
 * The blog's entities as the Go code declares them (lib.go:18-100): the post
 * type, the errors it returns, a content piece, a cached URL preview, and the
 * rows of the three SQLite tables they are stored in (lib.go:571-598).
 */
module Blog {
  import opened Optional
  import opened GoStrings
  import opened GoNumbers

  type Identifier = string

  /** A `time.Time`, as nanoseconds since the Unix epoch. */
  type Time = int

  /** The zero `time.Time` (January 1 of year 1, UTC), left in fields a query does not fill. */
  const ZeroTime: Time := -62_135_596_800 * 1_000_000_000

  /** `time.Time.Unix`: whole seconds since the epoch, rounded down. */
  function UnixSeconds(t: Time): int {
    t / 1_000_000_000
  }

  /**
   * `PostType`. `TypeAll` is a filter value only; `TypeStatus` is used by
   * server.go and belongs to a later revision of the constants.
   */
  datatype PostType = TypeDefault | TypeRepost | TypeHeart | TypeStatus | TypeAll

  datatype Error =
    | ErrURIUsed
    | ErrContentNotFound
    | ErrInvalidID
      /** `sql.ErrNoRows` from a single-row query. */
    | ErrNoRows
      /** The `http.Get` or `htmlinfo.Parse` behind a preview failed. */
    | ErrFetch
      /** An INSERT rejected by the `content` table's primary key. */
    | ErrConstraint
    | ErrMissingResponseURL
    | ErrNoAuth
    | ErrDateParse
    | ErrInvalidImageSize(size: string)

  datatype Result<+T> = Ok(value: T) | Err(error: Error)

  /** What a form handler answers: the error page, or a redirect with its status code. */
  datatype Reply = Failure(error: Error) | Redirect(status: int, location: string)

  /** `URLPreview`, one row of the `url_preview` table. */
  datatype URLPreview = URLPreview(
    oembedHTML: string,
    snippet: string,
    thumbnailURL: string,
    title: string,
    url: string,
    dateCrawled: Time)

  /** The preview with every field empty, as an unmatched LEFT JOIN scans it. */
  const EmptyPreview := URLPreview("", "", "", "", "", ZeroTime)

  /**
   * `IsFulfilled`: a preview is worth showing when it has a URL and either both
   * a title and a snippet, or embed markup.
   */
  predicate IsFulfilled(p: URLPreview)
    ensures IsFulfilled(p) ==> p.url != ""
    ensures p.url != "" && p.oembedHTML != "" ==> IsFulfilled(p)
    ensures p.url != "" && p.title != "" && p.snippet != "" ==> IsFulfilled(p)
    ensures IsFulfilled(p) && p.oembedHTML == "" ==> p.title != "" && p.snippet != ""
  {
    if p.url == "" then false
    else if p.title != "" && p.snippet != "" then true
    else if p.oembedHTML != "" then true
    else false
  }

  /** One row of the `content` table. */
  datatype ContentRow = ContentRow(
    title: string,
    body: string,
    snippet: string,
    date: Time,
    dateCreated: Time,
    id: Identifier,
    responseTo: string,
    postType: PostType,
    uri: string)

  /** One row of the `tag` table, which has no key: duplicates are separate rows. */
  datatype TagRow = TagRow(id: Identifier, value: string)

  /** `ContentPiece` as lib.go declares it, with its tags and its joined preview. */
  datatype ContentPiece = ContentPiece(
    body: string,
    snippet: string,
    dateCreated: Time,
    date: Time,
    id: Identifier,
    responseToURL: string,
    title: string,
    postType: PostType,
    uri: string,
    responseToURLPreview: Option<URLPreview>,
    tags: seq<string>)

  /** A heart or a repost must respond to a url; both form handlers reject one that does not. */
  predicate LacksResponseURL(c: ContentPiece) {
    c.responseToURL == "" && (c.postType == TypeHeart || c.postType == TypeRepost)
  }

  /**
   * The uri both form handlers store a piece under: its own when it has one,
   * else the slug of its title (`slugOf` stands for `slug.Make`), else the
   * current Unix time in decimal.
   */
  function DerivedURI(c: ContentPiece, slugOf: string -> string, now: Time): (uri: string)
    ensures c.uri != "" ==> uri == c.uri
    ensures c.uri == "" && c.title != "" ==> uri == slugOf(c.title)
    ensures c.uri == "" && c.title == "" ==> uri == FormatInt(UnixSeconds(now))
  {
    if c.uri != "" then c.uri
    else if c.title != "" then slugOf(c.title)
    else FormatInt(UnixSeconds(now))
  }

  /** `TagString`: the tags as the editor shows them, separated by ", ". */
  function TagString(c: ContentPiece): (s: string)
    ensures c.tags == [] ==> s == ""
    ensures |c.tags| == 1 ==> s == c.tags[0]
  {
    Join(c.tags, ", ")
  }
}
