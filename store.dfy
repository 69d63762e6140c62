/**
 * The content store of lib.go as an object whose fields are the `content`,
 * `tag` and `url_preview` tables. Each operation changes the tables step by
 * step as the Go function does, so a failure can leave earlier writes
 * behind; the caller undoes them with `Rollback` (see the `Server` module).
 * Every operation is proved to leave the tables its specification in
 * `StoreSpec` describes.
 */
module Store {
  import opened Optional
  import opened Blog
  import opened GoNumbers
  import opened GoStrings
  import opened Preview
  import opened Tables
  import opened Paging
  import opened StoreSpec

  /** The offset `(Current-1)*ItemCount` of the listing query, in Go's 64-bit arithmetic. */
  function ListingOffset(current: int, itemCount: int): (o: int)
    ensures IsInt64(o)
    ensures IsInt64(current - 1) && IsInt64((current - 1) * itemCount) ==> o == (current - 1) * itemCount
  {
    Wrap64(Wrap64(current - 1) * itemCount)
  }

  /** The `rows.Next` loop of a listing: each selected row scanned into a piece, in order. */
  method ScanRows(rows: seq<ContentRow>, tags: seq<TagRow>, previews: map<string, URLPreview>)
    returns (xs: seq<ContentPiece>)
    ensures |xs| == |rows|
    ensures forall k | 0 <= k < |rows| :: xs[k] == PieceOf(rows[k], tags, previews)
  {
    xs := [];
    for i := 0 to |rows|
      invariant |xs| == i
      invariant forall k | 0 <= k < i :: xs[k] == PieceOf(rows[k], tags, previews)
    {
      xs := xs + [PieceOf(rows[i], tags, previews)];
    }
  }

  class ContentStore {
    var content: seq<ContentRow>
    var tags: seq<TagRow>
    var previews: map<string, URLPreview>

    function State(): Snapshot
      reads this
    {
      Snapshot(content, tags, previews)
    }

    ghost predicate Valid()
      reads this
    {
      Consistent(State())
    }

    /** Freshly prepared, empty tables. */
    constructor ()
      ensures content == [] && tags == [] && previews == map[]
      ensures Valid()
    {
      content, tags, previews := [], [], map[];
    }

    /** `tx.Rollback`: the tables return to what they were when the transaction began. */
    method Rollback(s: Snapshot)
      modifies this
      ensures State() == s
    {
      content, tags, previews := s.content, s.tags, s.previews;
    }

    /** `IsAvailableURI`: no stored piece has exactly this uri. */
    function IsAvailableURI(uri: string): (ok: bool)
      reads this
      ensures ok <==> forall k | 0 <= k < |content| :: content[k].uri != uri
    {
      CountURI(content, uri) == 0
    }

    /** `GetURLPreview`: the cached preview of a url, or no rows. */
    function GetURLPreview(url: string): (r: Result<URLPreview>)
      reads this
      ensures r.Ok? <==> url in previews
      ensures r.Err? ==> r.error == ErrNoRows
      ensures Valid() && r.Ok? ==> r.value.url == url
    {
      if url in previews then Ok(previews[url]) else Err(ErrNoRows)
    }

    /** `PutURLPreview`: the cache afterwards is `Cached(old cache, p)`. */
    method PutURLPreview(p: URLPreview)
      modifies this`previews
      ensures previews == Cached(old(previews), p)
      ensures old(Valid()) ==> Valid()
    {
      previews := previews[p.url := p];
    }

    /**
     * The fetch both `CreateContent` and `UpdateContent` run once they decide
     * a preview is needed: scrape the url and cache the result, or report
     * that the fetch failed.
     */
    method ScrapeIfNeeded(url: string, scrapes: bool, now: Time, fetched: Option<HTMLInfo>)
      returns (failed: bool)
      modifies this`previews
      ensures failed <==> scrapes && fetched.None?
      ensures failed ==> previews == old(previews)
      ensures !failed ==> previews == AfterScrape(old(previews), scrapes, url, fetched, now)
    {
      failed := false;
      if scrapes {
        var p := ScrapURLPreview(url, fetched, now);
        if p.Err? {
          return true;
        }
        PutURLPreview(p.value);
      }
    }

    /**
     * The refetch decision of `UpdateContent`, from the row `x` found at the
     * piece's uri: the response url changed or a rescrape is forced, and no
     * preview is cached unless a rescrape is forced.
     */
    method UpdateScrapes(c: ContentPiece, rescrape: bool, x: Result<ContentPiece>) returns (scrapes: bool)
      requires x == GetContent(c.uri)
      ensures scrapes == ScrapesOnUpdate(content, previews, c, rescrape)
    {
      ghost var found := RowAtURI(content, c.uri);
      assert x.Ok? <==> found.Some?;
      assert x.Ok? ==> x.value.responseToURL == found.value.responseTo;
      var changed := c.responseToURL != "" && ((x.Ok? && c.responseToURL != x.value.responseToURL) || rescrape);
      scrapes := changed && (GetURLPreview(c.responseToURL).Err? || rescrape);
    }

    /** `InsertTag`: one more tag row, its value trimmed. */
    method InsertTag(id: Identifier, tag: string)
      modifies this`tags
      ensures tags == old(tags) + [TagRow(id, TrimSpace(tag))]
    {
      tags := tags + [TagRow(id, TrimSpace(tag))];
    }

    /** The loop over a piece's tags that both `CreateContent` and `UpdateContent` run. */
    method InsertTags(id: Identifier, values: seq<string>)
      modifies this`tags
      ensures tags == old(tags) + TagRowsFor(id, values)
    {
      for i := 0 to |values|
        invariant tags == old(tags) + TagRowsFor(id, values[..i])
      {
        TagRowsForSnoc(id, values, i);
        InsertTag(id, values[i]);
      }
      assert values[..|values|] == values;
    }

    /** `DeleteTags`: every tag row of `id` goes, the others stay in order. */
    method DeleteTags(id: Identifier)
      modifies this`tags
      ensures tags == WithoutId(old(tags), id)
    {
      tags := WithoutId(tags, id);
    }

    /** `GetContent`: fails exactly when the uri is available. */
    function GetContent(uri: string): (r: Result<ContentPiece>)
      reads this
      ensures r == Lookup(State(), uri)
      ensures r.Err? <==> IsAvailableURI(uri)
    {
      Lookup(State(), uri)
    }

    /**
     * `CreateContent`, with `newId` the identifier `uuid.NewV4` draws, `now`
     * the clock and `fetched` what fetching and parsing the response url
     * yields.
     */
    method CreateContent(c: ContentPiece, newId: Identifier, now: Time, fetched: Option<HTMLInfo>)
      returns (r: Result<Identifier>)
      requires Valid()
      modifies this
      ensures Valid()
      ensures Outcome(r, State()) == CreateSpec(old(State()), c, newId, now, fetched)
    {
      CreateKeepsConsistent(State(), c, newId, now, fetched);
      if !IsAvailableURI(c.uri) {
        return Err(ErrURIUsed);
      }
      var failed := ScrapeIfNeeded(c.responseToURL, c.responseToURL != "" && GetURLPreview(c.responseToURL).Err?, now, fetched);
      if failed {
        return Err(ErrFetch);
      }
      if CountId(content, newId) != 0 {
        return Err(ErrConstraint);
      }
      content := content + [NewRow(c, newId, now)];
      InsertTags(newId, c.tags);
      r := Ok(newId);
    }

    /**
     * `UpdateContent`: `rescrape` is the editor's "rescrape" box and `fetched`
     * what a scrape of the response url yields.
     */
    method UpdateContent(c: ContentPiece, rescrape: bool, now: Time, fetched: Option<HTMLInfo>)
      returns (err: Option<Error>)
      requires Valid()
      modifies this
      ensures Valid()
      ensures Outcome(err, State()) == UpdateSpec(old(State()), c, rescrape, now, fetched)
    {
      UpdateKeepsConsistent(State(), c, rescrape, now, fetched);
      if c.id == "" {
        return Some(ErrInvalidID);
      }
      var x := GetContent(c.uri);
      if x.Ok? && x.value.id != c.id {
        return Some(ErrURIUsed);
      }
      err := ScrapeAndApply(c, rescrape, now, fetched, x);
    }

    /** `UpdateContent` once the id and the uri have passed their checks. */
    method ScrapeAndApply(c: ContentPiece, rescrape: bool, now: Time, fetched: Option<HTMLInfo>,
                          x: Result<ContentPiece>) returns (err: Option<Error>)
      requires c.id != "" && !HeldByOther(content, c.uri, c.id) && x == GetContent(c.uri)
      modifies this
      ensures Outcome(err, State()) == UpdateSpec(old(State()), c, rescrape, now, fetched)
    {
      var scrapes := UpdateScrapes(c, rescrape, x);
      var failed := ScrapeIfNeeded(c.responseToURL, scrapes, now, fetched);
      if failed {
        return Some(ErrFetch);
      }
      err := ApplyUpdate(c);
    }

    /**
     * The UPDATE statement of `UpdateContent` and what follows it: unless it
     * touched exactly one row the piece is reported missing, otherwise the
     * piece's tags are replaced.
     */
    method ApplyUpdate(c: ContentPiece) returns (err: Option<Error>)
      modifies this`content, this`tags
      ensures Outcome(err, State()) == ApplySpec(old(State()), c)
    {
      var affected := CountId(content, c.id);
      content := UpdateRows(content, c);
      if affected != 1 {
        return Some(ErrContentNotFound);
      }
      DeleteTags(c.id);
      InsertTags(c.id, c.tags);
      err := None;
    }

    /** `DeleteContent`: only the id of `c` is used. */
    method DeleteContent(c: ContentPiece) returns (err: Option<Error>)
      requires Valid()
      modifies this`content, this`tags
      ensures Valid()
      ensures Outcome(err, State()) == DeleteSpec(old(State()), c.id)
    {
      DeleteKeepsConsistent(State(), c.id);
      var affected := CountId(content, c.id);
      content := RemoveRows(content, c.id);
      if affected == 0 {
        return Some(ErrContentNotFound);
      }
      DeleteTags(c.id);
      err := None;
    }

    /**
     * `GetContents`: counts the visible rows (ignoring the tag filter), fills
     * in the page, then reads one window of the listing, newest first.
     */
    method GetContents(page: PageInfo, now: Time) returns (xs: seq<ContentPiece>)
      modifies page`itemCount, page`itemTotal, page`total, page`previous, page`next
      ensures page.itemTotal == CountVisible(content, now, page.postType)
      ensures page.itemCount == ClampedCount(page.itemTotal)
      ensures page.itemTotal > 0 ==> page.total == 1
      ensures page.itemTotal > 0 ==> (page.HasNext() <==> page.current < 1)
      ensures page.previous == Wrap64(page.current - 1) && page.next == Wrap64(page.current + 1)
      ensures var rows := Listing(content, tags, now, page.postType, page.tag, page.itemCount,
                                  ListingOffset(page.current, page.itemCount));
              |xs| == |rows| && forall k | 0 <= k < |rows| :: xs[k] == PieceOf(rows[k], tags, previews)
      ensures |xs| <= 50 && |xs| <= page.itemTotal
      ensures forall k | 0 <= k < |xs| :: xs[k].date <= now
      ensures page.postType != TypeAll ==> forall k | 0 <= k < |xs| :: xs[k].postType == page.postType
      ensures page.tag != "" ==> forall k | 0 <= k < |xs| :: TagRow(xs[k].id, page.tag) in tags
      ensures forall i, j | 0 <= i < j < |xs| :: xs[i].date >= xs[j].date
    {
      var count := CountVisible(content, now, page.postType);
      FillPage(page, count);
      var limit, offset := page.itemCount, ListingOffset(page.current, page.itemCount);
      var rows := Listing(content, tags, now, page.postType, page.tag, limit, offset);
      xs := ScanRows(rows, tags, previews);
      ScannedListingSound(content, tags, previews, now, page.postType, page.tag, limit, offset, xs);
    }
  }

  /**
   * The page arithmetic of `GetContents` once it has counted the matching
   * rows: `ItemCount` is the count capped at 50, `ItemTotal` the count, and
   * the page total, computed from those two, is 1 for every positive count.
   */
  method FillPage(page: PageInfo, count: nat)
    modifies page`itemCount, page`itemTotal, page`total, page`previous, page`next
    ensures page.itemTotal == count && page.itemCount == ClampedCount(count)
    ensures count > 0 ==> page.total == 1 && (page.HasNext() <==> page.current < 1)
    ensures page.previous == Wrap64(page.current - 1) && page.next == Wrap64(page.current + 1)
  {
    if count >= 50 {
      page.itemCount := 50;
    } else {
      page.itemCount := count;
    }
    page.itemTotal := count;
    page.CalculateTotal();
    if count > 0 {
      OnePageForAnyCount(count);
    }
  }

  /**
   * The pieces scanned from one window of the listing keep what the listing
   * guarantees: at most `limit`, published by `now`, of the filtered type,
   * carrying the filtered tag, newest first.
   */
  lemma ScannedListingSound(content: seq<ContentRow>, tags: seq<TagRow>, previews: map<string, URLPreview>,
                            now: Time, postType: PostType, tag: string, limit: int, offset: int,
                            xs: seq<ContentPiece>)
    requires var rows := Listing(content, tags, now, postType, tag, limit, offset);
             |xs| == |rows| && forall k | 0 <= k < |rows| :: xs[k] == PieceOf(rows[k], tags, previews)
    ensures limit >= 0 ==> |xs| <= limit
    ensures forall k | 0 <= k < |xs| :: xs[k].date <= now && (postType == TypeAll || xs[k].postType == postType)
    ensures tag != "" ==> forall k | 0 <= k < |xs| :: TagRow(xs[k].id, tag) in tags
    ensures forall i, j | 0 <= i < j < |xs| :: xs[i].date >= xs[j].date
  {
    var rows := Listing(content, tags, now, postType, tag, limit, offset);
    ListingSound(content, tags, now, postType, tag, limit, offset);
    forall k | 0 <= k < |xs|
      ensures xs[k].date <= now && (postType == TypeAll || xs[k].postType == postType)
      ensures tag != "" ==> TagRow(xs[k].id, tag) in tags
    {
      assert rows[k] in rows;
    }
  }
}
