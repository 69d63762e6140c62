/**
 * main.go: the earlier revision of the blog. Its store has the same
 * `content` and `url_preview` tables as lib.go's, the same lookups, preview
 * rules and checks, and no `tag` table; its listing has a fixed page size
 * of 50 and shows what was published before today; its editor form carries
 * a password instead of relying on a session.
 *
 * main.go's create, update and delete run the same statements as lib.go's
 * minus those on the `tag` table, so their specification is `StoreSpec`'s
 * with the tag table left out: started from an empty one (`Widened`) and
 * dropped afterwards (`Narrowed`). The properties proved there carry over.
 */
module Legacy {
  import opened Optional
  import opened Blog
  import opened GoNumbers
  import opened Preview
  import opened Tables
  import opened StoreSpec
  import opened Store

  /** The two tables of main.go. */
  datatype LegacySnapshot = LegacySnapshot(content: seq<ContentRow>, previews: map<string, URLPreview>)

  datatype LegacyOutcome<T> = LegacyOutcome(result: T, after: LegacySnapshot)

  /** lib.go's store with an empty tag table. */
  function Widened(s: LegacySnapshot): Snapshot {
    Snapshot(s.content, [], s.previews)
  }

  function Narrowed(t: Snapshot): LegacySnapshot {
    LegacySnapshot(t.content, t.previews)
  }

  /** The primary keys of the two tables. */
  ghost predicate LegacyConsistent(s: LegacySnapshot) {
    IdsUnique(s.content) && KeyedByURL(s.previews)
  }

  lemma WidenedConsistent(s: LegacySnapshot)
    requires LegacyConsistent(s)
    ensures Consistent(Widened(s))
  {
  }

  /**
   * `GetContent` of main.go: the row at the uri with its joined preview, or
   * content not found; there are no tags to read.
   */
  function LegacyLookup(s: LegacySnapshot, uri: string): (r: Result<ContentPiece>)
    ensures r.Err? <==> forall k | 0 <= k < |s.content| :: s.content[k].uri != uri
    ensures r.Err? ==> r.error == ErrContentNotFound
    ensures r.Ok? ==> r.value.uri == uri && r.value.id in Ids(s.content) && r.value.tags == []
    ensures r.Ok? ==> (r.value.responseToURLPreview.Some? <==> r.value.responseToURL != "")
    ensures r.Ok? && r.value.responseToURL != "" && r.value.responseToURL !in s.previews ==>
              r.value.responseToURLPreview == Some(EmptyPreview)
  {
    Lookup(Widened(s), uri)
  }

  /** `CreateContent` of main.go. */
  function LegacyCreateSpec(s: LegacySnapshot, c: ContentPiece, newId: Identifier, now: Time,
                            fetched: Option<HTMLInfo>): LegacyOutcome<Result<Identifier>>
  {
    var o := CreateSpec(Widened(s), c, newId, now, fetched);
    LegacyOutcome(o.result, Narrowed(o.after))
  }

  /** `UpdateContent` of main.go. */
  function LegacyUpdateSpec(s: LegacySnapshot, c: ContentPiece, rescrape: bool, now: Time,
                            fetched: Option<HTMLInfo>): LegacyOutcome<Option<Error>>
  {
    var o := UpdateSpec(Widened(s), c, rescrape, now, fetched);
    LegacyOutcome(o.result, Narrowed(o.after))
  }

  /** `DeleteContent` of main.go. */
  function LegacyDeleteSpec(s: LegacySnapshot, id: Identifier): LegacyOutcome<Option<Error>> {
    var o := DeleteSpec(Widened(s), id);
    LegacyOutcome(o.result, Narrowed(o.after))
  }

  /**
   * `CreateContent` of main.go: a taken uri fails before any write; a
   * needed fetch that fails writes nothing; a new id already stored breaks
   * the primary key; otherwise exactly one row with the new id is appended,
   * which the uri then finds, without tags. The keys and the uniqueness of
   * uris are kept.
   */
  lemma LegacyCreateProperties(s: LegacySnapshot, c: ContentPiece, newId: Identifier, now: Time,
                               fetched: Option<HTMLInfo>)
    requires LegacyConsistent(s)
    ensures var o := LegacyCreateSpec(s, c, newId, now, fetched);
            && (o.result.Ok? || o.result.error in {ErrURIUsed, ErrFetch, ErrConstraint})
            && (o.result == Err(ErrURIUsed) <==> exists k | 0 <= k < |s.content| :: s.content[k].uri == c.uri)
            && (o.result == Err(ErrFetch) <==>
                  CountURI(s.content, c.uri) == 0 && ScrapesOnCreate(s.previews, c) && fetched.None?)
            && (o.result == Err(ErrConstraint) <==>
                  CountURI(s.content, c.uri) == 0 && !(ScrapesOnCreate(s.previews, c) && fetched.None?)
                  && newId in Ids(s.content))
            && (o.result == Err(ErrURIUsed) || o.result == Err(ErrFetch) ==> o.after == s)
            && (o.result.Err? ==> o.after.content == s.content)
            && (o.result.Ok? ==> o.result.value == newId && newId !in Ids(s.content)
                                 && o.after.content == s.content + [NewRow(c, newId, now)])
            && (o.result.Ok? ==> LegacyLookup(o.after, c.uri).Ok? && LegacyLookup(o.after, c.uri).value.id == newId)
            && LegacyConsistent(o.after)
            && (URIsUnique(s.content) ==> URIsUnique(o.after.content))
  {
    var w := Widened(s);
    WidenedConsistent(s);
    CreateOutcomes(w, c, newId, now, fetched);
    CreateKeepsConsistent(w, c, newId, now, fetched);
    if URIsUnique(s.content) {
      CreateKeepsURIsUnique(w, c, newId, now, fetched);
    }
    if CreateSpec(w, c, newId, now, fetched).result.Ok? {
      FindAppended(s.content, NewRow(c, newId, now));
    }
  }

  /**
   * `UpdateContent` of main.go: its errors and what produces them; the first
   * two write nothing, and no error changes the content table; a success
   * rewrites only the piece's own row, keeping its id and creation date. The
   * keys and the uniqueness of uris are kept.
   */
  lemma LegacyUpdateProperties(s: LegacySnapshot, c: ContentPiece, rescrape: bool, now: Time,
                               fetched: Option<HTMLInfo>)
    requires LegacyConsistent(s)
    ensures var o := LegacyUpdateSpec(s, c, rescrape, now, fetched);
            var scrapes := ScrapesOnUpdate(s.content, s.previews, c, rescrape);
            && (o.result.None? || o.result.value in {ErrInvalidID, ErrURIUsed, ErrFetch, ErrContentNotFound})
            && (o.result == Some(ErrInvalidID) <==> c.id == "")
            && (o.result == Some(ErrURIUsed) <==> c.id != "" && HeldByOther(s.content, c.uri, c.id))
            && (o.result == Some(ErrFetch) <==>
                  c.id != "" && !HeldByOther(s.content, c.uri, c.id) && scrapes && fetched.None?)
            && (o.result == Some(ErrContentNotFound) <==>
                  c.id != "" && !HeldByOther(s.content, c.uri, c.id) && !(scrapes && fetched.None?)
                  && c.id !in Ids(s.content))
            && (o.result == Some(ErrInvalidID) || o.result == Some(ErrURIUsed) ==> o.after == s)
            && (o.result.Some? ==> o.after.content == s.content)
            && (o.result.None? ==>
                  && |o.after.content| == |s.content|
                  && forall k | 0 <= k < |s.content| ::
                       && o.after.content[k].id == s.content[k].id
                       && o.after.content[k].dateCreated == s.content[k].dateCreated
                       && (s.content[k].id != c.id ==> o.after.content[k] == s.content[k]))
            && LegacyConsistent(o.after)
            && (URIsUnique(s.content) ==> URIsUnique(o.after.content))
  {
    var w := Widened(s);
    WidenedConsistent(s);
    UpdateOutcomes(w, c, rescrape, now, fetched);
    UpdateKeepsConsistent(w, c, rescrape, now, fetched);
    if URIsUnique(s.content) {
      UpdateKeepsURIsUnique(w, c, rescrape, now, fetched);
    }
    if UpdateSpec(w, c, rescrape, now, fetched).result.None? {
      UpdateScope(w, c, rescrape, now, fetched);
    }
  }

  /**
   * `DeleteContent` of main.go: it fails, changing nothing, exactly when no
   * row has the id; it never touches the preview cache; afterwards no row
   * has the id and its uri is not found.
   */
  lemma LegacyDeleteProperties(s: LegacySnapshot, id: Identifier)
    requires LegacyConsistent(s)
    ensures var o := LegacyDeleteSpec(s, id);
            && (o.result.None? <==> id in Ids(s.content))
            && (o.result.Some? ==> o.result.value == ErrContentNotFound && o.after == s)
            && o.after.previews == s.previews
            && (forall k | 0 <= k < |o.after.content| :: o.after.content[k].id != id)
            && LegacyConsistent(o.after)
            && (URIsUnique(s.content) ==>
                  && URIsUnique(o.after.content)
                  && forall k | 0 <= k < |s.content| && s.content[k].id == id ::
                       LegacyLookup(o.after, s.content[k].uri) == Err(ErrContentNotFound))
  {
    var w := Widened(s);
    WidenedConsistent(s);
    DeleteOutcomes(w, id);
    DeleteKeepsConsistent(w, id);
    if id !in Ids(s.content) {
      RemoveAbsentId(s.content, id);
    }
    if URIsUnique(s.content) {
      forall k | 0 <= k < |s.content| && s.content[k].id == id
        ensures LegacyLookup(LegacyDeleteSpec(s, id).after, s.content[k].uri) == Err(ErrContentNotFound)
        ensures URIsUnique(LegacyDeleteSpec(s, id).after.content)
      {
        DeletedIsNotFound(w, id, k);
      }
      if id !in Ids(s.content) {
        assert LegacyDeleteSpec(s, id).after == s;
      } else {
        var k :| 0 <= k < |s.content| && s.content[k].id == id;
        DeletedIsNotFound(w, id, k);
      }
    }
  }

  // ---------------------------------------------------------------- listing

  /** The offset `(page-1)*50` of main.go's listing query, in Go's 64-bit arithmetic. */
  function LegacyOffset(page: int): (o: int)
    ensures IsInt64(o)
    ensures IsInt64(page - 1) && IsInt64((page - 1) * 50) ==> o == (page - 1) * 50
  {
    ListingOffset(page, 50)
  }

  /**
   * main.go's listing query: `date <= DATE('now')` compares the stored time
   * text with today's date text, which holds exactly for the times before
   * the start of the current day, `dayStart`. That is lib.go's query with
   * the cutoff one nanosecond earlier, every type, no tag and no tag table;
   * 50 rows from `LegacyOffset(page)`, newest first.
   */
  function LegacyListing(rows: seq<ContentRow>, dayStart: Time, page: int): seq<ContentRow> {
    Listing(rows, [], dayStart - 1, TypeAll, "", 50, LegacyOffset(page))
  }

  /**
   * At most 50 stored rows, each published before today, newest first; the
   * first page holds the 50 newest published rows, or all of them when fewer
   * are published.
   */
  lemma LegacyListingSound(rows: seq<ContentRow>, dayStart: Time, page: int)
    ensures var r := LegacyListing(rows, dayStart, page);
            && |r| <= 50
            && SortedByDateDesc(r)
            && (forall x | x in r :: x in rows && x.date < dayStart)
            && (page == 1 ==> r == SortByDateDesc(Joined(rows, [], dayStart - 1, TypeAll, ""))[..|r|])
            && (page == 1 ==> var n := |Joined(rows, [], dayStart - 1, TypeAll, "")|;
                              |r| == if n < 50 then n else 50)
  {
    ListingSound(rows, [], dayStart - 1, TypeAll, "", 50, LegacyOffset(page));
  }

  /** Page 0, which a non-numeric `page` parameter leaves, lists exactly what page 1 does. */
  lemma PageZeroListsPageOne(rows: seq<ContentRow>, dayStart: Time)
    ensures LegacyListing(rows, dayStart, 0) == LegacyListing(rows, dayStart, 1)
  {
    assert LegacyOffset(0) == -50;
    assert LegacyOffset(1) == 0;
  }

  /**
   * The page number of the `/all` handler: `Atoi` of the parameter, 1 for a
   * number up to 0, and 0 when it is not a number.
   */
  method AllPage(pageStr: string) returns (page: int)
    ensures IsInt64(page) && page >= 0
    ensures Atoi(pageStr).None? ==> page == 0
    ensures Atoi(pageStr).Some? ==> page >= 1
    ensures Atoi(pageStr).Some? && Atoi(pageStr).value <= 0 ==> page == 1
    ensures Atoi(pageStr).Some? && Atoi(pageStr).value >= 1 ==> page == Atoi(pageStr).value
  {
    page := 0;
    var parsed := Atoi(pageStr);
    if parsed.Some? {
      page := parsed.value;
      if page <= 0 {
        page := 1;
      }
    }
  }

  // ------------------------------------------------------------------ store

  class LegacyStore {
    var content: seq<ContentRow>
    var previews: map<string, URLPreview>

    function State(): LegacySnapshot
      reads this
    {
      LegacySnapshot(content, previews)
    }

    ghost predicate Valid()
      reads this
    {
      LegacyConsistent(State())
    }

    constructor ()
      ensures content == [] && previews == map[]
      ensures Valid()
    {
      content, previews := [], map[];
    }

    /** `tx.Rollback`. */
    method Rollback(s: LegacySnapshot)
      modifies this
      ensures State() == s
    {
      content, previews := s.content, s.previews;
    }

    /** `IsAvailableURI`: no stored piece has exactly this uri. */
    function IsAvailableURI(uri: string): (ok: bool)
      reads this
      ensures ok <==> forall k | 0 <= k < |content| :: content[k].uri != uri
    {
      CountURI(content, uri) == 0
    }

    /** `GetURLPreview`: the cached preview of a url, or no rows. */
    function GetURLPreview(url: string): (r: Result<URLPreview>)
      reads this
      ensures r.Ok? <==> url in previews
      ensures r.Err? ==> r.error == ErrNoRows
      ensures Valid() && r.Ok? ==> r.value.url == url
    {
      if url in previews then Ok(previews[url]) else Err(ErrNoRows)
    }

    /**
     * `PutURLPreview`: the row of `p.url` is deleted and `p` inserted, so the
     * cache afterwards is `Cached(old cache, p)`; putting twice is putting once
     * (`CachedTwice`).
     */
    method PutURLPreview(p: URLPreview)
      modifies this`previews
      ensures previews == Cached(old(previews), p)
      ensures old(Valid()) ==> Valid()
    {
      previews := previews[p.url := p];
    }

    /**
     * The fetch both `CreateContent` and `UpdateContent` of main.go run once they decide
     * a preview is needed: scrape the url and cache the result, or report
     * that the fetch failed.
     */
    method ScrapeIfNeeded(url: string, scrapes: bool, now: Time, fetched: Option<HTMLInfo>)
      returns (failed: bool)
      modifies this`previews
      ensures failed <==> scrapes && fetched.None?
      ensures failed ==> previews == old(previews)
      ensures !failed ==> previews == AfterScrape(old(previews), scrapes, url, fetched, now)
    {
      failed := false;
      if scrapes {
        var p := ScrapURLPreview(url, fetched, now);
        if p.Err? {
          return true;
        }
        PutURLPreview(p.value);
      }
    }

    /**
     * The refetch decision of `UpdateContent`, from the row `x` found at the
     * piece's uri: the response url changed or a rescrape is forced, and no
     * preview is cached unless a rescrape is forced.
     */
    method UpdateScrapes(c: ContentPiece, rescrape: bool, x: Result<ContentPiece>) returns (scrapes: bool)
      requires x == GetContent(c.uri)
      ensures scrapes == ScrapesOnUpdate(content, previews, c, rescrape)
    {
      ghost var found := RowAtURI(content, c.uri);
      assert x.Ok? <==> found.Some?;
      assert x.Ok? ==> x.value.responseToURL == found.value.responseTo;
      var changed := c.responseToURL != "" && ((x.Ok? && c.responseToURL != x.value.responseToURL) || rescrape);
      scrapes := changed && (GetURLPreview(c.responseToURL).Err? || rescrape);
    }

    /** `GetContent`: fails exactly when the uri is available. */
    function GetContent(uri: string): (r: Result<ContentPiece>)
      reads this
      ensures r == LegacyLookup(State(), uri)
      ensures r.Err? <==> IsAvailableURI(uri)
    {
      LegacyLookup(State(), uri)
    }

    method CreateContent(c: ContentPiece, newId: Identifier, now: Time, fetched: Option<HTMLInfo>)
      returns (r: Result<Identifier>)
      requires Valid()
      modifies this
      ensures Valid()
      ensures LegacyOutcome(r, State()) == LegacyCreateSpec(old(State()), c, newId, now, fetched)
    {
      ghost var start := State();
      WidenedConsistent(start);
      CreateKeepsConsistent(Widened(start), c, newId, now, fetched);
      if !IsAvailableURI(c.uri) {
        return Err(ErrURIUsed);
      }
      var failed := ScrapeIfNeeded(c.responseToURL, c.responseToURL != "" && GetURLPreview(c.responseToURL).Err?, now, fetched);
      if failed {
        return Err(ErrFetch);
      }
      assert previews == AfterScrape(start.previews, ScrapesOnCreate(start.previews, c), c.responseToURL, fetched, now);
      if CountId(content, newId) != 0 {
        return Err(ErrConstraint);
      }
      content := content + [NewRow(c, newId, now)];
      r := Ok(newId);
    }

    method UpdateContent(c: ContentPiece, rescrape: bool, now: Time, fetched: Option<HTMLInfo>)
      returns (err: Option<Error>)
      requires Valid()
      modifies this
      ensures Valid()
      ensures LegacyOutcome(err, State()) == LegacyUpdateSpec(old(State()), c, rescrape, now, fetched)
    {
      ghost var start := State();
      WidenedConsistent(start);
      UpdateKeepsConsistent(Widened(start), c, rescrape, now, fetched);
      if c.id == "" {
        return Some(ErrInvalidID);
      }
      var x := GetContent(c.uri);
      if x.Ok? && x.value.id != c.id {
        return Some(ErrURIUsed);
      }
      err := ScrapeAndApply(c, rescrape, now, fetched, x);
    }

    /** `UpdateContent` once the id and the uri have passed their checks. */
    method ScrapeAndApply(c: ContentPiece, rescrape: bool, now: Time, fetched: Option<HTMLInfo>,
                          x: Result<ContentPiece>) returns (err: Option<Error>)
      requires c.id != "" && !HeldByOther(content, c.uri, c.id) && x == GetContent(c.uri)
      modifies this
      ensures LegacyOutcome(err, State()) == LegacyUpdateSpec(old(State()), c, rescrape, now, fetched)
    {
      var scrapes := UpdateScrapes(c, rescrape, x);
      var failed := ScrapeIfNeeded(c.responseToURL, scrapes, now, fetched);
      if failed {
        return Some(ErrFetch);
      }
      err := ApplyUpdate(c);
    }

    /** The UPDATE statement of `UpdateContent`: unless it touched exactly one row the piece is reported missing. */
    method ApplyUpdate(c: ContentPiece) returns (err: Option<Error>)
      modifies this`content
      ensures var o := ApplySpec(Widened(old(State())), c); LegacyOutcome(err, State()) == LegacyOutcome(o.result, Narrowed(o.after))
    {
      var affected := CountId(content, c.id);
      content := UpdateRows(content, c);
      if affected != 1 {
        return Some(ErrContentNotFound);
      }
      err := None;
    }

    method DeleteContent(c: ContentPiece) returns (err: Option<Error>)
      requires Valid()
      modifies this`content
      ensures Valid()
      ensures LegacyOutcome(err, State()) == LegacyDeleteSpec(old(State()), c.id)
    {
      LegacyDeleteProperties(State(), c.id);
      var affected := CountId(content, c.id);
      content := RemoveRows(content, c.id);
      if affected == 0 {
        return Some(ErrContentNotFound);
      }
      err := None;
    }

    /** `GetContents` of main.go: one page of 50 published pieces, newest first, without tags. */
    method GetContents(page: int, dayStart: Time) returns (xs: seq<ContentPiece>)
      ensures var rows := LegacyListing(content, dayStart, page);
              |xs| == |rows| && forall k | 0 <= k < |rows| :: xs[k] == PieceOf(rows[k], [], previews)
      ensures |xs| <= 50
      ensures forall k | 0 <= k < |xs| :: xs[k].date < dayStart && xs[k].tags == []
      ensures forall i, j | 0 <= i < j < |xs| :: xs[i].date >= xs[j].date
    {
      var rows := LegacyListing(content, dayStart, page);
      LegacyListingSound(content, dayStart, page);
      xs := ScanRows(rows, [], previews);
      forall k | 0 <= k < |xs|
        ensures xs[k].date < dayStart
      {
        assert rows[k] in rows;
      }
    }
  }

  // ------------------------------------------------------- the POST handler

  /**
   * The form of POST `/content`: the piece, the transaction type, the
   * password typed in and the "rescrape" box. The date and time strings of
   * the form reach the model only through what `time.Parse` makes of them.
   */
  datatype LegacyPayload = LegacyPayload(piece: ContentPiece, transactionType: string,
                                         password: string, rescrape: string)

  /**
   * The payload normalisation of POST `/content`, with `parsed` the result of
   * `time.Parse("2006-01-02 15:04", date + " " + time)`: a wrong password,
   * an unparsable date and a heart or repost without response url are
   * rejected; the parsed date is taken and an empty uri derived.
   */
  function Prepared(res: LegacyPayload, password: string, parsed: Option<Time>, now: Time,
                    slugOf: string -> string): Result<LegacyPayload>
  {
    if res.password != password then Err(ErrNoAuth)
    else if parsed.None? then Err(ErrDateParse)
    else if LacksResponseURL(res.piece) then Err(ErrMissingResponseURL)
    else
      var dated := res.piece.(date := parsed.value);
      Ok(res.(piece := dated.(uri := DerivedURI(dated, slugOf, now))))
  }

  /**
   * The same normalisation as main.go writes it: the date-parse error is
   * reported but the handler goes on with the date the form bound.
   */
  function PreparedAsWritten(res: LegacyPayload, password: string, parsed: Option<Time>, now: Time,
                             slugOf: string -> string): Result<LegacyPayload>
  {
    if res.password != password then Err(ErrNoAuth)
    else
      var dated := if parsed.Some? then res.piece.(date := parsed.value) else res.piece;
      if LacksResponseURL(dated) then Err(ErrMissingResponseURL)
      else Ok(res.(piece := dated.(uri := DerivedURI(dated, slugOf, now))))
  }

  /**
   * What the normalisation accepts and what it changes: only the date,
   * set to the parsed one, and the uri, kept when given, else the slug of
   * the title, else the current Unix time, which reads back as that number.
   */
  lemma PreparedProperties(res: LegacyPayload, password: string, parsed: Option<Time>, now: Time,
                           slugOf: string -> string)
    ensures var r := Prepared(res, password, parsed, now, slugOf);
            && (r == Err(ErrNoAuth) <==> res.password != password)
            && (r.Ok? <==> res.password == password && parsed.Some? && !LacksResponseURL(res.piece))
            && (r.Ok? ==> r.value == res.(piece := res.piece.(date := parsed.value, uri := r.value.piece.uri)))
            && (r.Ok? && res.piece.uri != "" ==> r.value.piece.uri == res.piece.uri)
            && (r.Ok? && res.piece.uri == "" && res.piece.title != "" ==> r.value.piece.uri == slugOf(res.piece.title))
            && (r.Ok? && res.piece.uri == "" && res.piece.title == "" && IsInt64(UnixSeconds(now)) ==>
                  Atoi(r.value.piece.uri) == Some(UnixSeconds(now)))
  {
    if res.piece.uri == "" && res.piece.title == "" && IsInt64(UnixSeconds(now)) {
      AtoiFormatInt(UnixSeconds(now));
    }
  }

  /**
   * When the date parses, main.go's normalisation is the corrected one; when
   * it does not, main.go reports the error yet accepts the payload with the
   * date the form bound, which then reaches the store.
   */
  lemma DateParseFailureIsIgnored(res: LegacyPayload, password: string, now: Time, slugOf: string -> string)
    requires res.password == password && !LacksResponseURL(res.piece)
    ensures Prepared(res, password, None, now, slugOf) == Err(ErrDateParse)
    ensures PreparedAsWritten(res, password, None, now, slugOf).Ok?
    ensures PreparedAsWritten(res, password, None, now, slugOf).value.piece.date == res.piece.date
    ensures forall d :: PreparedAsWritten(res, password, Some(d), now, slugOf) == Prepared(res, password, Some(d), now, slugOf)
  {
  }

  /** The dispatch on the transaction type: "DELETE", "UPDATE", anything else creates. */
  function Dispatched(s: LegacySnapshot, p: LegacyPayload, newId: Identifier, now: Time,
                      fetched: Option<HTMLInfo>): LegacyOutcome<Option<Error>>
  {
    if p.transactionType == "DELETE" then LegacyDeleteSpec(s, p.piece.id)
    else if p.transactionType == "UPDATE" then LegacyUpdateSpec(s, p.piece, p.rescrape == "on", now, fetched)
    else
      var o := LegacyCreateSpec(s, p.piece, newId, now, fetched);
      LegacyOutcome(if o.result.Ok? then None else Some(o.result.error), o.after)
  }

  /** Whatever the form asks for, the keys and the uniqueness of uris are kept. */
  lemma DispatchedKeepsInvariants(s: LegacySnapshot, p: LegacyPayload, newId: Identifier, now: Time,
                                  fetched: Option<HTMLInfo>)
    requires LegacyConsistent(s)
    ensures LegacyConsistent(Dispatched(s, p, newId, now, fetched).after)
    ensures URIsUnique(s.content) ==> URIsUnique(Dispatched(s, p, newId, now, fetched).after.content)
  {
    if p.transactionType == "DELETE" {
      LegacyDeleteProperties(s, p.piece.id);
    } else if p.transactionType == "UPDATE" {
      LegacyUpdateProperties(s, p.piece, p.rescrape == "on", now, fetched);
    } else {
      LegacyCreateProperties(s, p.piece, newId, now, fetched);
    }
  }

  /** The normalisation of the form as the handler performs it, one field at a time. */
  method Normalise(res: LegacyPayload, password: string, parsed: Option<Time>, now: Time,
                   slugOf: string -> string) returns (r: Result<LegacyPayload>)
    ensures r == Prepared(res, password, parsed, now, slugOf)
  {
    var p := res;
    if p.password != password {
      return Err(ErrNoAuth);
    }
    if parsed.None? {
      return Err(ErrDateParse);
    }
    p := p.(piece := p.piece.(date := parsed.value));
    if LacksResponseURL(p.piece) {
      return Err(ErrMissingResponseURL);
    }
    if p.piece.uri == "" {
      if p.piece.title != "" {
        p := p.(piece := p.piece.(uri := slugOf(p.piece.title)));
      } else {
        p := p.(piece := p.piece.(uri := FormatInt(UnixSeconds(now))));
      }
    }
    r := Ok(p);
  }

  /** The switch on the transaction type, run against the store. */
  method Run(store: LegacyStore, p: LegacyPayload, newId: Identifier, now: Time, fetched: Option<HTMLInfo>)
    returns (err: Option<Error>)
    requires store.Valid()
    modifies store
    ensures store.Valid()
    ensures LegacyOutcome(err, store.State()) == Dispatched(old(store.State()), p, newId, now, fetched)
  {
    if p.transactionType == "DELETE" {
      err := store.DeleteContent(p.piece);
    } else if p.transactionType == "UPDATE" {
      err := store.UpdateContent(p.piece, p.rescrape == "on", now, fetched);
    } else {
      var r := store.CreateContent(p.piece, newId, now, fetched);
      err := if r.Ok? then None else Some(r.error);
    }
  }

  /**
   * POST `/content`: normalise the form, run the operation in a transaction,
   * roll it back on an error, and otherwise redirect (301) to the piece.
   */
  method PostContent(store: LegacyStore, res: LegacyPayload, password: string, parsed: Option<Time>,
                     now: Time, slugOf: string -> string, newId: Identifier, fetched: Option<HTMLInfo>)
    returns (reply: Reply)
    requires store.Valid()
    modifies store
    ensures store.Valid()
    ensures reply.Failure? ==> store.State() == old(store.State())
    ensures old(URIsUnique(store.content)) ==> URIsUnique(store.content)
    ensures match Prepared(res, password, parsed, now, slugOf)
            case Err(e) => reply == Failure(e)
            case Ok(p) =>
              var o := Dispatched(old(store.State()), p, newId, now, fetched);
              if o.result.Some? then reply == Failure(o.result.value)
              else reply == Redirect(301, "/content/" + p.piece.uri) && store.State() == o.after
  {
    var prepared := Normalise(res, password, parsed, now, slugOf);
    if prepared.Err? {
      return Failure(prepared.error);
    }
    var p := prepared.value;
    var start := store.State();
    DispatchedKeepsInvariants(start, p, newId, now, fetched);
    var err := Run(store, p, newId, now, fetched);
    if err.Some? {
      store.Rollback(start);
      return Failure(err.value);
    }
    reply := Redirect(301, "/content/" + p.piece.uri);
  }
}
