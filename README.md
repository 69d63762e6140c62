# A verified model of a single-author blog's content store

The blog keeps its posts ("content pieces") in three SQLite tables. These
are `content` (keyed by `id`, with a `uri` column the schema does not
constrain), `tag` (unkeyed `(id, value)` rows) and `url_preview` (keyed by
`url`). A post can respond to a URL. The blog then scrapes that page once and
caches a preview of it. On top of the store sit the paginated listing, the
editor's POST handler and the image thumbnail cache.

This project models that core in Dafny:

- `lib.go` becomes the store. `Store.ContentStore` is a class whose three
  fields are the tables. Its methods change them step by step as the Go
  functions do. Each method is proved to leave exactly the state a function
  in `StoreSpec` describes. The properties are proved as lemmas about those
  functions: URI uniqueness is preserved, the errors and their causes, the
  refetch rule, tag read-back and the scope of an update.
- `main.go` is an earlier revision with no tag table, a fixed page size of 50
  and a password field. It becomes `Legacy`. Its specification is
  `StoreSpec`'s with the tag table left out, so the lib.go proofs carry over.
- `server.go` becomes `Server`: query parsing, `GetPage`, the POST `/post`
  normalisation and dispatch with rollback, `IsImage` and the thumbnail file
  name.
- The support modules model the Go library behaviour the code relies on:
  - `GoStrings`: `strings.TrimSpace`, `Split`, `Join`, `ToLower`.
  - `GoNumbers`: `strconv.Atoi`/`FormatInt`, 64-bit wrap-around and the
    ceiling division behind `math.Ceil`.
  - `GoPaths`: `filepath.Ext`/`Base`/`Dir`.
  - `Tables`: the SQL statements as functions over table values.
  - `Preview`: the merge in `ScrapURLPreview`.
  - `Paging`: `PageInfo`.

Where the code departs from what its names suggest (page size, tag filter,
post types), the model follows the code:

- The listing's page arithmetic uses `ItemCount`/`ItemTotal` rather than a
  page size, and never reads `ItemLimit`.
- The count query ignores the tag filter.
- `lib.go` declares no `TypeStatus`; `server.go` uses one, so `PostType`
  includes it.

## Model

| member | source | states |
|---|---|---|
| Blog.IsFulfilled | lib.go:78-89 | a preview is fulfilled only with a url; a url with oEmbed markup, or with a title and a snippet, suffices; a fulfilled preview without markup has both title and snippet |
| Blog.TagString | lib.go:61-63 | no tags give ""; a single tag is shown as itself; for longer lists the ", " separator is stated by Tables.EditedTagsRoundTrip |
| Blog.DerivedURI | server.go:245-251 | a given uri is kept; an empty one becomes the slug of a non-empty title, else the decimal Unix time |
| Preview.MergePreview | lib.go:547-567 | each preview field's source: page title/description first, oEmbed markup and thumbnail or else the first Open Graph image, Open Graph url/title/description last; crawl date is now |
| Preview.ScrapURLPreview | lib.go:534-569 | fails (fetch error) exactly when fetching or parsing failed, otherwise yields the merged preview |
| Preview.OembedPageIsFulfilled | lib.go:553-557 | a page with oEmbed markup gives a fulfilled preview whenever its resulting url is non-empty |
| Paging.PageInfo.constructor | lib.go:91-100 | the zero PageInfo: every number 0, default type, no tag, the zero time |
| Paging.PageInfo.HasPrevious | lib.go:102-104 | there is a previous page iff current > 1; with NeighboursArePages, iff the previous page number is at least 1 |
| Paging.PageInfo.HasNext | lib.go:106-108 | there is a next page iff current < total; with NeighboursArePages, iff the next page number is within the total |
| Paging.PageInfo.CalculateTotal | lib.go:110-114 | total is the ceiling of ItemCount/ItemTotal (for ItemTotal ≠ 0); previous and next are current∓1 with 64-bit wrap-around |
| Paging.NeighboursArePages | lib.go:102-114 | after CalculateTotal, HasPrevious iff Previous ≥ 1 and HasNext iff Next ≤ Total, for every current page away from the 64-bit extremes |
| Paging.ClampedCount | lib.go:146-150 | ItemCount is min(count, 50): at most 50, at most the count, and one of the two |
| Paging.OnePageForAnyCount | lib.go:146-152 | for every positive count, ceil(min(count,50)/count) = 1: the listing always reports one page |
| Tables.CountURI | lib.go:470-484 | the number of rows with exactly that uri; zero iff no row has it |
| Tables.FindURI | lib.go:243-292 | the first row index with the uri, or none iff no row has it |
| Tables.FindAppended | lib.go:303-347 | a row appended with a fresh uri is found by that uri at its position |
| Tables.Revised | lib.go:415-426 | the UPDATE sets title, body, snippet, date, response_to, uri and type and keeps id and date_created |
| Tables.NewRow | lib.go:331-347 | the INSERT: the piece's title, body, snippet, date, response url, type and uri, the new id, and now as date_created |
| Tables.UpdateRows | lib.go:415-436 | same length; only rows of the id are revised; ids and id-uniqueness kept; no row of the id changes nothing |
| Tables.RemoveRows | lib.go:448-458 | DELETE FROM content WHERE id: every remaining row is a stored row of another id, every row of another id remains, and the table shrinks by the number of rows with the id |
| Tables.CountId | lib.go:454-462 | the rows a statement on one id touches: none iff the id is not stored, at most one while ids are unique |
| Tables.RemoveAbsentId | lib.go:448-464 | deleting an id no row has changes nothing |
| Tables.RemoveRowsKeepsUnique | lib.go:448-458 | deleting keeps ids and uris unique |
| Tables.InsertKeepsURIsUnique | lib.go:304-347 | appending a row whose uri is free keeps uris unique |
| Tables.UpdateRowsKeepURIsUnique | lib.go:382-436 | an update whose uri is free or held only by its own id keeps uris unique |
| Tables.TagRowsFor | lib.go:351-355 | one (id, TrimSpace(tag)) row per tag, in order, duplicates and blanks kept |
| Tables.WithoutId | lib.go:371-379 | DELETE FROM tag WHERE id: a row remains iff it was stored and belongs to another id |
| Tables.ReplaceTags | lib.go:437-444 | after delete-then-insert, the id's tag values are the trimmed tags; other ids' values unchanged |
| Tables.AddTags | lib.go:351-355 | after inserting for a fresh id, its tag values are the trimmed tags; others unchanged |
| Tables.ReadTags | lib.go:294-296 | "" reads as no tags; otherwise the split on ',' joins back to the aggregate |
| Tables.ReadTagsRoundTrip | lib.go:260-296 | comma-free values concatenated with ',' read back as themselves, except [""] reads back as [] |
| Tables.TrimmedTagsReadBack | lib.go:351-355 | comma-free stored tags read back as their trimmed values, a single blank tag as none |
| Tables.EditedTagsRoundTrip | lib.go:61-63 | the tag string the editor shows, split on ',', is the tags with one space in front of every tag but the first (so the separator is ", "); trimmed as the handler and InsertTag do, it gives back the trimmed tags of any non-empty list of comma-free tags |
| Tables.GroupConcat | lib.go:170 | the tag aggregate of a piece: its tag values in table order joined by "," |
| Tables.JoinedPreview | lib.go:255-299 | the LEFT JOIN gives a preview iff response_to ≠ "", the cached row (crawl date not selected) or all-empty fields |
| Tables.PieceOf | lib.go:243-299 | a scanned row keeps id, uri, response url, dates and type; preview set iff a response url; tags read from the aggregate |
| Tables.CountTagPositive | lib.go:175-190 | a piece joins the tag filter iff a tag row (id, tag) exists |
| Tables.Joined | lib.go:154-190 | every selected row is a stored row that passes the filters (and, under a tag filter, has a matching tag row) |
| Tables.JoinedRowSound | lib.go:154-190 | a selected row is stored, dated ≤ now, of the filtered type and, under a tag filter, has a matching tag row |
| Tables.JoinedWithoutTagIsCounted | lib.go:132-190 | without a tag filter the listing selects exactly as many rows as the count query counts |
| Tables.CountVisible | lib.go:133-145 | the count query: rows dated ≤ now of the filtered type, tag filter ignored |
| Tables.InsertByDate | lib.go:191-193 | insertion keeps date-descending order, one row longer, headed by x or by the old head |
| Tables.InsertByDateAdds | lib.go:191-193 | inserting into a newest-first table adds exactly the one row: the multiset grows by x and nothing else |
| Tables.SortByDateDesc | lib.go:191-193 | ORDER BY date DESC: sorted newest first and a permutation of its input |
| Tables.Window | lib.go:194-196 | LIMIT/OFFSET: a contiguous slice from the (non-negative) offset of exactly min(limit, rows left) rows; a negative limit takes every row left; an offset past the end gives none |
| Tables.WindowSorted | lib.go:191-196 | a LIMIT/OFFSET window of a newest-first result is newest first |
| Tables.ListingSound | lib.go:154-196 | listed rows are stored, dated ≤ now, of the filtered type, carry the filtered tag, newest first; there are min(limit, selected rows after the offset) of them |
| Tables.Listing | lib.go:154-196 | the listing query: the filtered rows, sorted newest first, then the LIMIT/OFFSET window |
| Tables.VisibleRowsJoined | lib.go:154-190 | every visible row is listed when no tag is asked for |
| StoreSpec.RowAtURI | lib.go:243-292 | the row a lookup by uri finds: none iff no row has the uri, else a stored row with it |
| StoreSpec.Lookup | lib.go:243-301 | GetContent: not found iff no row has the uri; otherwise a stored piece with that uri, preview iff a response url, tags read from the tag table |
| StoreSpec.Cached | lib.go:507-532 | PutURLPreview: p is stored under p.url, keys gain p.url, every other entry unchanged |
| StoreSpec.CachedTwice | lib.go:507-532 | putting the same preview twice equals putting it once |
| StoreSpec.CachedKeepsKeys | lib.go:507-532 | every cached preview stays stored under its own url |
| StoreSpec.AfterScrape | lib.go:319-329 | without a successful scrape the cache is unchanged; a successful one stores the merged preview under the merged url (PutURLPreview of the scraped page); keys only grow; url-keying kept |
| StoreSpec.ScrapesOnCreate | lib.go:318-320 | create scrapes iff the piece has a response url with no cached preview |
| StoreSpec.ScrapesOnUpdate | lib.go:393-395 | update scrapes iff the url is non-empty, it changed against the row at the new uri or rescrape is set, and it is uncached or rescrape is set |
| StoreSpec.RedirectedPreviewRefetches | lib.go:318-329 | when Open Graph names another url, the preview is cached under that url and the response url stays uncached, so the next create responding to it scrapes again |
| StoreSpec.NewURIDoesNotRefetch | lib.go:394-413 | moving a piece to a uri no row holds never refetches without rescrape, even if its response url changed |
| StoreSpec.CachedPreviewIsKept | lib.go:394-413 | with a cached preview, an update scrapes iff rescrape is set and the response url is non-empty |
| StoreSpec.CreateOutcomes | lib.go:303-357 | the errors of CreateContent, each iff its cause: taken uri (nothing written), failed fetch of an uncached url (nothing written), new id already stored; success returns the new id |
| StoreSpec.CreateSpec | lib.go:303-357 | CreateContent as a function: uri check, scrape, then the INSERT of NewRow and its tag rows, or the primary-key error |
| StoreSpec.CreateKeepsConsistent | lib.go:303-357 | create keeps ids unique, every tag row owned by a piece, previews keyed by url |
| StoreSpec.CreateKeepsURIsUnique | lib.go:304-347 | create keeps uris unique, which only the availability check ensures |
| StoreSpec.CreateReadBack | lib.go:303-357 | after a create, GetContent by the uri finds the new row; its tag values are the trimmed tags; other pieces' tags unchanged; comma-free tags read back |
| StoreSpec.UpdateOutcomes | lib.go:381-446 | the errors of UpdateContent and their exact causes: empty id, uri held by another id, failed scrape, no row with the id; which of them write nothing |
| StoreSpec.UpdateSpec | lib.go:381-446 | UpdateContent as a function: id check, uri check, scrape, then ApplySpec |
| StoreSpec.ApplySpec | lib.go:415-444 | the UPDATE: rows of the id revised; not found unless exactly one row has the id, otherwise its tags replaced |
| StoreSpec.HeldByOther | lib.go:385-391 | the uri check fails iff the row at the uri belongs to another id |
| StoreSpec.UpdateKeepsConsistent | lib.go:381-446 | update keeps the store consistent |
| StoreSpec.NotHeldByOther | lib.go:385-391 | when the uri check passes, every row holding the uri is the piece's own |
| StoreSpec.UpdateKeepsURIsUnique | lib.go:382-436 | update keeps uris unique |
| StoreSpec.UpdateScope | lib.go:415-444 | a successful update keeps every row's id and creation date, changes only the piece's own row, and replaces its tags by the trimmed tags |
| StoreSpec.DeleteOutcomes | lib.go:448-464 | delete fails, changing nothing, iff no row has the id; never touches previews; afterwards no row has the id |
| StoreSpec.DeleteSpec | lib.go:448-464 | DeleteContent as a function: the id's rows removed; not found when there were none, otherwise its tag rows removed too |
| StoreSpec.DeleteKeepsConsistent | lib.go:448-464 | delete keeps the store consistent, dropping the id's tag rows too |
| StoreSpec.DeletedIsNotFound | lib.go:448-464 | after a delete the old uri is not found, and uris stay unique |
| Store.ListingOffset | lib.go:196 | (Current-1)*ItemCount in 64-bit arithmetic, exact when nothing overflows |
| Store.ScanRows | lib.go:209-239 | the rows loop scans every selected row, in order, into its piece |
| Store.FillPage | lib.go:146-152 | ItemTotal is the count, ItemCount min(count, 50), Total 1 for a positive count (a next page iff current < 1), previous and next current∓1 wrapped to 64 bits |
| Store.ScannedListingSound | lib.go:154-239 | the scanned pieces are at most limit, dated ≤ now, of the filtered type, carry the filtered tag, newest first |
| Store.ContentStore.constructor | lib.go:571-598 | freshly created tables are empty and consistent |
| Store.ContentStore.Rollback | server.go:271-275 | rolling back restores the tables as the transaction found them |
| Store.ContentStore.IsAvailableURI | lib.go:470-484 | available iff no row has exactly this uri |
| Store.ContentStore.GetURLPreview | lib.go:486-505 | found iff cached, otherwise no-rows; a found preview has the asked url |
| Store.ContentStore.PutURLPreview | lib.go:507-532 | the cache becomes Cached(old, p) and stays keyed by url |
| Store.ContentStore.InsertTag | lib.go:359-369 | appends one tag row with the trimmed value |
| Store.ContentStore.InsertTags | lib.go:351-355 | the tag loop appends TagRowsFor(id, tags) |
| Store.ContentStore.DeleteTags | lib.go:371-379 | removes exactly the id's tag rows |
| Store.ContentStore.ScrapeIfNeeded | lib.go:318-329 | fails iff a scrape is due and the fetch failed, then the cache is unchanged; otherwise the cache is AfterScrape of the old one |
| Store.ContentStore.UpdateScrapes | lib.go:393-395 | decides to scrape exactly as ScrapesOnUpdate: a non-empty url that changed against the stored piece or rescrape, and no cached preview or rescrape |
| Store.ContentStore.ApplyUpdate | lib.go:415-444 | the content table is UpdateRows of the old one; ErrContentNotFound iff the id is not on exactly one row, then the tags are untouched; else the id's tags are replaced by the trimmed tags |
| Store.ContentStore.ScrapeAndApply | lib.go:393-444 | once the id and uri checks pass, the scrape decision, the fetch and the UPDATE give exactly UpdateSpec's tables and result |
| Store.ContentStore.GetContent | lib.go:243-301 | returns Lookup of the current tables; fails iff the uri is available |
| Store.ContentStore.CreateContent | lib.go:303-357 | the tables and result are exactly CreateSpec's; the store stays consistent |
| Store.ContentStore.UpdateContent | lib.go:381-446 | the tables and result are exactly UpdateSpec's; the store stays consistent |
| Store.ContentStore.DeleteContent | lib.go:448-464 | the tables and result are exactly DeleteSpec's; the store stays consistent |
| Store.ContentStore.GetContents | lib.go:131-241 | ItemTotal is the tag-blind count, ItemCount = min(count, 50), Total = 1 for a positive count (so no next page from page 1); the pieces are the listing window, at most 50, dated ≤ now, filtered by type and tag, newest first |
| Legacy.LegacyLookup | main.go:338-390 | GetContent of main.go: not found iff no row has the uri; no tags; preview iff a response url, all-empty when none is cached |
| Legacy.LegacyCreateSpec | main.go:392-440 | main.go's CreateContent: CreateSpec on the store without a tag table |
| Legacy.LegacyUpdateSpec | main.go:442-500 | main.go's UpdateContent: UpdateSpec on the store without a tag table |
| Legacy.LegacyDeleteSpec | main.go:502-518 | main.go's DeleteContent: DeleteSpec on the store without a tag table |
| Legacy.LegacyCreateProperties | main.go:392-440 | the only errors are a taken uri, a failed fetch and a duplicate new id, each iff its cause (uri held; uri free, url uncached and fetch failed; uri free, no failed fetch, id stored); taken uri and failed fetch write nothing; success appends exactly one row with the new id, found by its uri; consistency and uri uniqueness kept |
| Legacy.LegacyUpdateProperties | main.go:442-500 | the only errors are empty id, uri held by another id, failed fetch and no row with the id, each iff its cause in that order; errors leave the content table unchanged; success keeps ids and creation dates and touches only the piece's row; uri uniqueness kept |
| Legacy.LegacyDeleteProperties | main.go:502-518 | fails, changing nothing, iff no row has the id; previews untouched; afterwards the old uri is not found |
| Legacy.LegacyOffset | main.go:296-306 | (page-1)*50 in 64-bit arithmetic, exact when nothing overflows |
| Legacy.LegacyListingSound | main.go:275-306 | at most 50 rows, each stored and dated before the start of today, newest first; page 1 is the 50 newest published rows, or all of them when fewer are published |
| Legacy.LegacyListing | main.go:276-306 | the listing query of main.go: rows dated before today, newest first, 50 from (page-1)*50 |
| Legacy.PageZeroListsPageOne | main.go:128-136 | page 0 (a non-numeric parameter) lists exactly what page 1 lists |
| Legacy.AllPage | main.go:128-135 | a non-numeric page gives 0, a number ≤ 0 gives 1, a positive number is kept |
| Legacy.LegacyStore.Rollback | main.go:225-229 | rolling back restores the tables as the transaction found them |
| Legacy.LegacyStore.IsAvailableURI | main.go:524-538 | available iff no row has exactly this uri |
| Legacy.LegacyStore.GetURLPreview | main.go:540-559 | found iff cached, otherwise no-rows |
| Legacy.LegacyStore.PutURLPreview | main.go:561-586 | the cache becomes Cached(old, p): exactly p under p.url, other urls untouched, idempotent by StoreSpec.CachedTwice |
| Legacy.LegacyStore.ScrapeIfNeeded | main.go:407-418 | fails iff a scrape is due and the fetch failed, then the cache is unchanged; otherwise the cache is AfterScrape of the old one |
| Legacy.LegacyStore.UpdateScrapes | main.go:455-457 | decides to scrape exactly as ScrapesOnUpdate of the widened store |
| Legacy.LegacyStore.ApplyUpdate | main.go:477-499 | the content table is UpdateRows of the old one; ErrContentNotFound iff the id is not on exactly one row |
| Legacy.LegacyStore.ScrapeAndApply | main.go:455-499 | once the id and uri checks pass, the scrape decision, the fetch and the UPDATE give exactly LegacyUpdateSpec's tables and result |
| Legacy.LegacyStore.GetContent | main.go:338-390 | returns LegacyLookup of the current tables |
| Legacy.LegacyStore.CreateContent | main.go:392-440 | the tables and result are exactly LegacyCreateSpec's; the store stays consistent |
| Legacy.LegacyStore.UpdateContent | main.go:442-500 | the tables and result are exactly LegacyUpdateSpec's; the store stays consistent |
| Legacy.LegacyStore.DeleteContent | main.go:502-518 | the tables and result are exactly LegacyDeleteSpec's; the store stays consistent |
| Legacy.LegacyStore.GetContents | main.go:275-336 | the pieces of the listing window, at most 50, dated before today, without tags, newest first |
| Legacy.PreparedProperties | main.go:183-205 | wrong password, unparsable date, heart/repost without url are rejected; only the date and uri change; uri kept, slugged or the Unix time |
| Legacy.Prepared | main.go:183-205 | the corrected normalisation: password, date, response url and uri steps, rejecting an unparsable date |
| Legacy.PreparedAsWritten | main.go:183-205 | the normalisation as written: an unparsable date is reported but the bound date is kept |
| Legacy.DateParseFailureIsIgnored | main.go:188-192 | as written, an unparsable date is reported yet the payload goes on with the bound date; with a parsed date both versions agree |
| Legacy.DispatchedKeepsInvariants | main.go:213-228 | whatever the transaction type, consistency and uri uniqueness are kept |
| Legacy.Dispatched | main.go:213-224 | the transaction-type switch: "DELETE" deletes, "UPDATE" updates (rescrape iff "on"), anything else creates |
| Legacy.Normalise | main.go:183-205 | the password, date, response-url and uri steps yield exactly Prepared |
| Legacy.Run | main.go:213-224 | the transaction-type switch leaves the store valid with exactly the Dispatched outcome |
| Legacy.PostContent | main.go:173-239 | an error reply leaves the tables unchanged (rollback); success redirects 301 to /content/uri with the dispatched outcome; uri uniqueness kept |
| Server.Query | server.go:52-72 | the parameter's value, "" when absent |
| Server.ParseQueryInt | server.go:38-47 | the value Atoi accepts (signs and leading zeros included) when it is at least min, the default when Atoi rejects it or it is below min; never below min when the default is not |
| Server.ParseQueryIntOfFormatted | server.go:38-47 | a decimal 64-bit number is returned unless below min, in which case the default |
| Server.NamedType | server.go:58-70 | "post" selects the default type, "repost" reposts, "heart" hearts, "status" statuses; every other value names all types |
| Server.NamedTypesDiffer | server.go:60-69 | different names select different types |
| Server.GetPage | server.go:49-79 | current ≥ 1 (default 1), 1 ≤ ItemLimit ≤ 50 (default 10), type from the parameter or all, the tag, and the author's date filter |
| Server.PreparedProperties | server.go:230-251 | missing date or time means now; tags are the comma split (count+1 pieces, joining back, "" gives [""]); heart/repost without url rejected; uri kept, slugged or the Unix time |
| Server.Prepared | server.go:230-251 | the corrected normalisation: date (now when missing), tags split on ',', response url and uri steps, rejecting an unparsable date |
| Server.PreparedAsWritten | server.go:230-251 | the normalisation as written: an unparsable date is reported but the bound date is kept |
| Server.DateParseFailureIsIgnored | server.go:230-236 | as written, an unparsable date is reported yet the payload goes on with the bound date |
| Server.CreatedTagsReadBack | server.go:238 | tags posted as a tag string read back as its trimmed comma pieces; a blank tag string reads back as no tags |
| Server.Location | server.go:258-262 | a delete redirects to "./", anything else to the piece |
| Server.DispatchedKeepsInvariants | server.go:258-270 | whatever the transaction type, consistency and uri uniqueness are kept |
| Server.Dispatched | server.go:258-270 | the transaction-type switch: "DELETE" deletes, "UPDATE" updates (rescrape iff "on"), anything else creates |
| Server.Normalise | server.go:230-251 | the date, tag, response-url and uri steps yield exactly Prepared |
| Server.Run | server.go:258-270 | the transaction-type switch leaves the store valid with exactly the Dispatched outcome |
| Server.PostPost | server.go:218-285 | unauthorised posts are refused; an error reply leaves the tables unchanged (rollback); success redirects 302 to Location with the dispatched outcome; uri uniqueness kept |
| Server.IsImage | server.go:418-421 | an image name contains a dot |
| Server.IsImageByExtension | server.go:418-421 | whatever precedes it, a name is an image iff its lower-cased last extension is .jpg, .jpeg or .png |
| Server.CachedImagePath | server.go:423-433 | an error iff the size is not an integer |
| Server.CachedImageOfFile | server.go:423-433 | the thumbnail of dir+stem+ext is dir+stem_size_ext: same directory, same extension, an image iff the original is |

## Left out

- The network fetch and HTML parsing behind `ScrapURLPreview` are not modelled. Their result is an input, `None` for a failure.
- `uuid.NewV4` is a parameter, the new id. A duplicate id is the primary key's `ErrConstraint`.
- `slug.Make` is a function parameter `slugOf`.
- `time.Now` is a parameter `now`, one per operation.
- `time.Parse` is a parameter `parsed`. `AddDate(999, 1, 1)` is a parameter `later`.
- Database and driver errors are not modelled: statement preparation, scanning, commit failure, and a `GetURLPreview` error other than no-rows. Each operation fails only for the reasons it names.
- SQLite's order of equal dates under `ORDER BY date DESC` is not modelled; the model keeps table order. `GROUP_CONCAT` order is also not modelled; it is taken as table order.
- Dates are compared as instants. main.go's `date <= DATE('now')` compares text, which keeps exactly the times before the start of the current day; the model takes that start as a parameter, `dayStart`.
- Paging.PageInfo.CalculateTotal: for `ItemTotal == 0` the float quotient 0/0 is not a number, and `Total` is left unspecified. Otherwise `math.Ceil` on floats is modelled as exact integer ceiling division.
- `strings.ToLower` is modelled for ASCII letters only.
- `filepath.Dir`/`Join` path cleaning is not modelled: the thumbnail path is the directory prefix as written plus the new name, which agrees for clean paths.
- Routing and rendering are not modelled: gin, HTML templates, JSON replies (`?json`), `HandleError`/`HandleSend` and logging.
- Sessions and login are not modelled: `IsAuthorized` is a boolean input.
- Files are not modelled: upload, directory listing, serving, image decoding and resizing (floating point).
- Startup is not modelled: flags, opening a database file, `CreateSample`, and main.go's removal of a piece stored under the empty uri. `PrepareDb` is modelled only on an empty database, as the store's constructor.
- `PageInfo.QueryString` and the `/` and `/post/:uri` read handlers are not modelled.
- `ItemLimit` and `DateFilter` are set by `GetPage` but not read by lib.go's `GetContents`. That function filters by its own clock.
- Concurrency and the single-connection pool are not modelled.
- The store functions write the new id into the caller's piece (`c.ID = ...`). This side effect is not modelled.
- Request binding failures (`ShouldBind`) are not modelled.
- SQLite column affinity is not modelled. The schema declares the text columns `STRING`, which SQLite gives NUMERIC affinity, so numeric-looking text such as a tag or uri " 007 " or "1.50" is stored and compared as a number and read back in canonical form ("7", "1.5"). The model treats every value as a byte string, so its read-back lemmas (Tables.TrimmedTagsReadBack, StoreSpec.CreateReadBack, Server.CreatedTagsReadBack) and its uri comparisons (Tables.CountURI, IsAvailableURI) hold only for values SQLite keeps as text.
- Tables.EditedTagsRoundTrip: stated for non-empty lists of comma-free tags, because the code itself changes the others: a tag holding a comma posts back as two tags, and an empty list shows as "" and posts back as one blank tag.
- Paging.NeighboursArePages: excludes the two extreme 64-bit page numbers, where `Current-1` or `Current+1` wraps around.

## Findings

| source | as written | input that shows it | evidently intended | confidence | as-written member | corrected member |
|---|---|---|---|---|---|---|
| server.go:230-236 | a date that does not parse is reported with `HandleError`, but the handler does not return and goes on to store the piece with the date the form bound | date "2020-13-45", time "10:00", an authorised post with a title | reject the request without writing | high (not executed) | Server.PreparedAsWritten, shown by Server.DateParseFailureIsIgnored | Server.Prepared, used by Server.PostPost |
| main.go:188-192 | the same missing `return` after a failed date parse | date "yesterday", time "10:00", the right password | reject the request without writing | high (not executed) | Legacy.PreparedAsWritten, shown by Legacy.DateParseFailureIsIgnored | Legacy.Prepared, used by Legacy.PostContent |
