/**
 * What the content store of lib.go does to its three tables, as functions
 * from the tables before a statement sequence to its result and the tables
 * after it, and the properties lib.go relies on, proved about those functions:
 * which error each operation returns and when, that uris stay unique
 * although the schema does not enforce it, how tags are replaced and read
 * back, and when a preview is fetched.
 */
module StoreSpec {
  import opened Optional
  import opened Blog
  import opened GoStrings
  import opened Preview
  import opened Tables

  /** The three tables at one moment, as a transaction sees them when it begins. */
  datatype Snapshot = Snapshot(content: seq<ContentRow>, tags: seq<TagRow>, previews: map<string, URLPreview>)

  /** What an operation returns, with the tables it leaves behind. */
  datatype Outcome<T> = Outcome(result: T, after: Snapshot)

  /** Every preview is stored under its own url, the primary key of `url_preview`. */
  ghost predicate KeyedByURL(previews: map<string, URLPreview>) {
    forall u | u in previews :: previews[u].url == u
  }

  /**
   * What every operation keeps: content ids are unique (the primary key),
   * every tag row belongs to a stored piece, and previews are keyed by url.
   */
  ghost predicate Consistent(s: Snapshot) {
    && IdsUnique(s.content)
    && (forall t | t in s.tags :: t.id in Ids(s.content))
    && KeyedByURL(s.previews)
  }

  // ---------------------------------------------------------------- lookups

  /** The row a single-row lookup by uri finds, if any. */
  function RowAtURI(rows: seq<ContentRow>, uri: string): (r: Option<ContentRow>)
    ensures r.None? <==> forall k | 0 <= k < |rows| :: rows[k].uri != uri
    ensures r.Some? ==> r.value in rows && r.value.uri == uri
  {
    match FindURI(rows, uri)
    case None => None
    case Some(k) => Some(rows[k])
  }

  /**
   * `GetContent`: the piece stored under `uri` with its tags and joined
   * preview, or `ErrContentNotFound` when no row has that uri.
   */
  function Lookup(s: Snapshot, uri: string): (r: Result<ContentPiece>)
    ensures r.Err? <==> forall k | 0 <= k < |s.content| :: s.content[k].uri != uri
    ensures r.Err? ==> r.error == ErrContentNotFound
    ensures r.Ok? ==> r.value.uri == uri && r.value.id in Ids(s.content)
    ensures r.Ok? ==> (r.value.responseToURLPreview.Some? <==> r.value.responseToURL != "")
    ensures r.Ok? ==> r.value.tags == ReadTags(GroupConcat(s.tags, r.value.id))
  {
    match RowAtURI(s.content, uri)
    case None => Err(ErrContentNotFound)
    case Some(row) => Ok(PieceOf(row, s.tags, s.previews))
  }

  // --------------------------------------------------------------- previews

  /** `PutURLPreview`: any preview under `p.url` is deleted, then `p` inserted. */
  function Cached(previews: map<string, URLPreview>, p: URLPreview): (m: map<string, URLPreview>)
    ensures p.url in m && m[p.url] == p
    ensures m.Keys == previews.Keys + {p.url}
    ensures forall u | u in previews && u != p.url :: m[u] == previews[u]
  {
    previews[p.url := p]
  }

  /** Storing the same preview twice leaves the cache as storing it once. */
  lemma CachedTwice(previews: map<string, URLPreview>, p: URLPreview)
    ensures Cached(Cached(previews, p), p) == Cached(previews, p)
  {
  }

  /** Storing a preview keeps previews keyed by url. */
  lemma CachedKeepsKeys(previews: map<string, URLPreview>, p: URLPreview)
    requires KeyedByURL(previews)
    ensures KeyedByURL(Cached(previews, p))
  {
  }

  /**
   * The cache after a scrape of `url` that was attempted when `scrapes` holds:
   * the merged preview is stored under its own url, which Open Graph may have
   * changed away from `url`.
   */
  function AfterScrape(previews: map<string, URLPreview>, scrapes: bool, url: string,
                       fetched: Option<HTMLInfo>, now: Time): (m: map<string, URLPreview>)
    ensures !scrapes || fetched.None? ==> m == previews
    ensures scrapes && fetched.Some? ==> m == Cached(previews, MergePreview(url, fetched.value, now))
    ensures previews.Keys <= m.Keys
    ensures KeyedByURL(previews) ==> KeyedByURL(m)
  {
    if scrapes && fetched.Some? then Cached(previews, MergePreview(url, fetched.value, now))
    else previews
  }

  /** `CreateContent` scrapes when the piece responds to a url with no cached preview. */
  predicate ScrapesOnCreate(previews: map<string, URLPreview>, c: ContentPiece) {
    c.responseToURL != "" && c.responseToURL !in previews
  }

  /**
   * A preview is cached under the url the page names for itself: when Open
   * Graph names another url, the response url stays uncached, so the next
   * piece responding to it is scraped again.
   */
  lemma RedirectedPreviewRefetches(previews: map<string, URLPreview>, c: ContentPiece,
                                   info: HTMLInfo, now: Time)
    requires ScrapesOnCreate(previews, c)
    requires MergePreview(c.responseToURL, info, now).url != c.responseToURL
    ensures var m := AfterScrape(previews, true, c.responseToURL, Some(info), now);
            && MergePreview(c.responseToURL, info, now).url in m
            && c.responseToURL !in m
            && ScrapesOnCreate(m, c)
  {
  }

  /**
   * The refetch rule of `UpdateContent`: a response url, and either a forced
   * rescrape or a change of url against the row found at the piece's NEW uri,
   * and either a forced rescrape or no cached preview.
   */
  predicate ScrapesOnUpdate(rows: seq<ContentRow>, previews: map<string, URLPreview>,
                            c: ContentPiece, rescrape: bool) {
    && c.responseToURL != ""
    && (rescrape || (RowAtURI(rows, c.uri).Some? && RowAtURI(rows, c.uri).value.responseTo != c.responseToURL))
    && (rescrape || c.responseToURL !in previews)
  }

  /**
   * Changing a piece's response url together with its uri, to a uri no row
   * holds yet, does not refetch unless a rescrape is forced: the comparison
   * is made against the row at the new uri, and there is none.
   */
  lemma NewURIDoesNotRefetch(rows: seq<ContentRow>, previews: map<string, URLPreview>, c: ContentPiece)
    requires forall k | 0 <= k < |rows| :: rows[k].uri != c.uri
    ensures !ScrapesOnUpdate(rows, previews, c, false)
  {
  }

  /** A cached preview is refetched exactly when a rescrape is forced. */
  lemma CachedPreviewIsKept(rows: seq<ContentRow>, previews: map<string, URLPreview>, c: ContentPiece, rescrape: bool)
    requires c.responseToURL in previews
    ensures ScrapesOnUpdate(rows, previews, c, rescrape) <==> rescrape && c.responseToURL != ""
  {
  }

  // ----------------------------------------------------------------- create

  /**
   * `CreateContent` with `newId` the identifier `uuid.NewV4` draws, `now` the
   * clock and `fetched` what fetching and parsing the response url yields:
   * a taken uri fails before any write; a missing preview is scraped and
   * stored; then the row is inserted (failing on a duplicate id) and one
   * trimmed tag row per tag appended. Earlier writes stay on a later failure.
   */
  function CreateSpec(s: Snapshot, c: ContentPiece, newId: Identifier, now: Time,
                      fetched: Option<HTMLInfo>): Outcome<Result<Identifier>>
  {
    if CountURI(s.content, c.uri) != 0 then Outcome(Err(ErrURIUsed), s)
    else if ScrapesOnCreate(s.previews, c) && fetched.None? then Outcome(Err(ErrFetch), s)
    else
      var previews := AfterScrape(s.previews, ScrapesOnCreate(s.previews, c), c.responseToURL, fetched, now);
      if CountId(s.content, newId) != 0 then Outcome(Err(ErrConstraint), s.(previews := previews))
      else Outcome(Ok(newId), Snapshot(s.content + [NewRow(c, newId, now)],
                                       s.tags + TagRowsFor(newId, c.tags), previews))
  }

  /**
   * The results of `CreateContent`: the uri check comes first and writes
   * nothing; a failed fetch writes nothing; no failure touches the content
   * or tag table; success returns the new id.
   */
  lemma CreateOutcomes(s: Snapshot, c: ContentPiece, newId: Identifier, now: Time, fetched: Option<HTMLInfo>)
    ensures var o := CreateSpec(s, c, newId, now, fetched);
            && (o.result.Ok? || o.result.error in {ErrURIUsed, ErrFetch, ErrConstraint})
            && (o.result == Err(ErrURIUsed) <==> exists k | 0 <= k < |s.content| :: s.content[k].uri == c.uri)
            && (o.result == Err(ErrURIUsed) ==> o.after == s)
            && (o.result == Err(ErrFetch) <==>
                  CountURI(s.content, c.uri) == 0 && ScrapesOnCreate(s.previews, c) && fetched.None?)
            && (o.result == Err(ErrFetch) ==> o.after == s)
            && (o.result == Err(ErrConstraint) <==>
                  CountURI(s.content, c.uri) == 0 && !(ScrapesOnCreate(s.previews, c) && fetched.None?)
                  && newId in Ids(s.content))
            && (o.result.Err? ==> o.after.content == s.content && o.after.tags == s.tags)
            && (o.result.Ok? ==> o.result.value == newId && newId !in Ids(s.content))
            && (o.result != Err(ErrURIUsed) ==>
                  o.after.previews == AfterScrape(s.previews, ScrapesOnCreate(s.previews, c), c.responseToURL, fetched, now))
  {
  }

  /** `CreateContent` keeps the store consistent. */
  lemma CreateKeepsConsistent(s: Snapshot, c: ContentPiece, newId: Identifier, now: Time, fetched: Option<HTMLInfo>)
    requires Consistent(s)
    ensures Consistent(CreateSpec(s, c, newId, now, fetched).after)
  {
    var o := CreateSpec(s, c, newId, now, fetched);
    if o.result.Ok? {
      var row := NewRow(c, newId, now);
      var rows := s.content + [row];
      assert o.after.content == rows && o.after.tags == s.tags + TagRowsFor(newId, c.tags);
      assert newId !in Ids(s.content);
      assert Ids(rows) == Ids(s.content) + {newId} by {
        assert forall k | 0 <= k < |s.content| :: rows[k] == s.content[k];
        assert rows[|s.content|] == row;
      }
      forall i, j | 0 <= i < j < |rows|
        ensures rows[i].id != rows[j].id
      {
        assert rows[i] == s.content[i];
        if j < |s.content| {
          assert rows[j] == s.content[j];
        }
      }
      forall t | t in o.after.tags
        ensures t.id in Ids(rows)
      {
        if t !in s.tags {
          var k :| 0 <= k < |TagRowsFor(newId, c.tags)| && TagRowsFor(newId, c.tags)[k] == t;
        }
      }
    } else {
      assert o.after.content == s.content && o.after.tags == s.tags;
    }
  }

  /**
   * URI uniqueness survives `CreateContent`: the schema does not enforce it,
   * the check before the INSERT does.
   */
  lemma CreateKeepsURIsUnique(s: Snapshot, c: ContentPiece, newId: Identifier, now: Time, fetched: Option<HTMLInfo>)
    requires URIsUnique(s.content)
    ensures URIsUnique(CreateSpec(s, c, newId, now, fetched).after.content)
  {
    if CreateSpec(s, c, newId, now, fetched).result.Ok? {
      InsertKeepsURIsUnique(s.content, NewRow(c, newId, now));
    }
  }

  /**
   * After a successful create, looking the piece up by its uri finds the new
   * row, whose tags are the trimmed tags it was given, in order; comma-free
   * tags read back as themselves, except that a single blank tag reads back
   * as none. Other pieces keep their tags.
   */
  lemma CreateReadBack(s: Snapshot, c: ContentPiece, newId: Identifier, now: Time, fetched: Option<HTMLInfo>)
    requires Consistent(s)
    requires CreateSpec(s, c, newId, now, fetched).result.Ok?
    ensures var a := CreateSpec(s, c, newId, now, fetched).after;
            && Lookup(a, c.uri) == Ok(PieceOf(NewRow(c, newId, now), a.tags, a.previews))
            && Lookup(a, c.uri).value.id == newId
            && TagValues(a.tags, newId) == Trimmed(c.tags)
            && (forall x | x != newId :: TagValues(a.tags, x) == TagValues(s.tags, x))
            && ((forall k | 0 <= k < |c.tags| :: ',' !in c.tags[k]) ==>
                  Lookup(a, c.uri).value.tags == if Trimmed(c.tags) == [""] then [] else Trimmed(c.tags))
  {
    var a := CreateSpec(s, c, newId, now, fetched).after;
    FindAppended(s.content, NewRow(c, newId, now));
    forall t | t in s.tags
      ensures t.id != newId
    {
    }
    forall x
      ensures TagValues(a.tags, x) == if x == newId then Trimmed(c.tags) else TagValues(s.tags, x)
    {
      AddTags(s.tags, newId, c.tags, x);
    }
    if forall k | 0 <= k < |c.tags| :: ',' !in c.tags[k] {
      TrimmedTagsReadBack(c.tags);
    }
  }

  // ----------------------------------------------------------------- update

  /** `UpdateContent`'s uri check fails: the row found at the piece's uri has another id. */
  predicate HeldByOther(rows: seq<ContentRow>, uri: string, id: Identifier) {
    RowAtURI(rows, uri).Some? && RowAtURI(rows, uri).value.id != id
  }

  /**
   * `UpdateContent`: an empty id and a uri held by another piece fail before
   * any write; a scrape, when the refetch rule asks for one, may fail next;
   * then the UPDATE runs, and unless it touched exactly one row the tags
   * are left alone and the piece is reported missing; otherwise the tags of
   * the id are replaced.
   */
  function UpdateSpec(s: Snapshot, c: ContentPiece, rescrape: bool, now: Time,
                      fetched: Option<HTMLInfo>): Outcome<Option<Error>>
  {
    if c.id == "" then Outcome(Some(ErrInvalidID), s)
    else if HeldByOther(s.content, c.uri, c.id) then Outcome(Some(ErrURIUsed), s)
    else
      var scrapes := ScrapesOnUpdate(s.content, s.previews, c, rescrape);
      if scrapes && fetched.None? then Outcome(Some(ErrFetch), s)
      else
        ApplySpec(s.(previews := AfterScrape(s.previews, scrapes, c.responseToURL, fetched, now)), c)
  }

  /**
   * The UPDATE statement and what follows it: unless it touched exactly one
   * row the piece is reported missing, otherwise the tags of the id are
   * replaced.
   */
  function ApplySpec(s: Snapshot, c: ContentPiece): Outcome<Option<Error>> {
    var rows := UpdateRows(s.content, c);
    if CountId(s.content, c.id) != 1 then Outcome(Some(ErrContentNotFound), s.(content := rows))
    else Outcome(None, Snapshot(rows, WithoutId(s.tags, c.id) + TagRowsFor(c.id, c.tags), s.previews))
  }

  /**
   * The results of `UpdateContent` on a consistent store: each error and the
   * condition that produces it; no failure changes the content or tag
   * table, and the first two change nothing at all.
   */
  lemma UpdateOutcomes(s: Snapshot, c: ContentPiece, rescrape: bool, now: Time, fetched: Option<HTMLInfo>)
    requires Consistent(s)
    ensures var o := UpdateSpec(s, c, rescrape, now, fetched);
            var scrapes := ScrapesOnUpdate(s.content, s.previews, c, rescrape);
            && (o.result.None? || o.result.value in {ErrInvalidID, ErrURIUsed, ErrFetch, ErrContentNotFound})
            && (o.result == Some(ErrInvalidID) <==> c.id == "")
            && (o.result == Some(ErrURIUsed) <==> c.id != "" && HeldByOther(s.content, c.uri, c.id))
            && (o.result == Some(ErrFetch) <==>
                  c.id != "" && !HeldByOther(s.content, c.uri, c.id) && scrapes && fetched.None?)
            && (o.result == Some(ErrContentNotFound) <==>
                  c.id != "" && !HeldByOther(s.content, c.uri, c.id) && !(scrapes && fetched.None?)
                  && c.id !in Ids(s.content))
            && (o.result == Some(ErrInvalidID) || o.result == Some(ErrURIUsed) ==> o.after == s)
            && (o.result.Some? ==> o.after.content == s.content && o.after.tags == s.tags)
            && (o.result.None? || o.result == Some(ErrContentNotFound) || o.result == Some(ErrFetch) ==>
                  o.after.previews == AfterScrape(s.previews, scrapes, c.responseToURL, fetched, now))
  {
    var o := UpdateSpec(s, c, rescrape, now, fetched);
    if o.result == Some(ErrContentNotFound) {
      assert c.id !in Ids(s.content);
      assert UpdateRows(s.content, c) == s.content;
    }
  }

  /** `UpdateContent` keeps the store consistent. */
  lemma UpdateKeepsConsistent(s: Snapshot, c: ContentPiece, rescrape: bool, now: Time, fetched: Option<HTMLInfo>)
    requires Consistent(s)
    ensures Consistent(UpdateSpec(s, c, rescrape, now, fetched).after)
  {
  }

  /** Under unique uris, a uri not held by another id is held by no row but those of `id`. */
  lemma NotHeldByOther(rows: seq<ContentRow>, uri: string, id: Identifier)
    requires URIsUnique(rows) && !HeldByOther(rows, uri, id)
    ensures forall k | 0 <= k < |rows| && rows[k].uri == uri :: rows[k].id == id
  {
    forall k | 0 <= k < |rows| && rows[k].uri == uri
      ensures rows[k].id == id
    {
      var j := FindURI(rows, uri).value;
      assert j == k;
    }
  }

  /**
   * URI uniqueness survives `UpdateContent`: the new uri is either free or
   * found on the piece's own row, which the check before the UPDATE ensures.
   */
  lemma UpdateKeepsURIsUnique(s: Snapshot, c: ContentPiece, rescrape: bool, now: Time, fetched: Option<HTMLInfo>)
    requires Consistent(s) && URIsUnique(s.content)
    ensures URIsUnique(UpdateSpec(s, c, rescrape, now, fetched).after.content)
  {
    if c.id != "" && !HeldByOther(s.content, c.uri, c.id) {
      NotHeldByOther(s.content, c.uri, c.id);
      UpdateRowsKeepURIsUnique(s.content, c);
    }
  }

  /**
   * A successful update rewrites only the piece's own row, keeping its id
   * and creation date, and replaces its tags by the trimmed tags given,
   * leaving every other piece's tags as they were.
   */
  lemma UpdateScope(s: Snapshot, c: ContentPiece, rescrape: bool, now: Time, fetched: Option<HTMLInfo>)
    requires UpdateSpec(s, c, rescrape, now, fetched).result.None?
    ensures var a := UpdateSpec(s, c, rescrape, now, fetched).after;
            && |a.content| == |s.content|
            && (forall k | 0 <= k < |s.content| ::
                  && a.content[k].id == s.content[k].id
                  && a.content[k].dateCreated == s.content[k].dateCreated
                  && (s.content[k].id != c.id ==> a.content[k] == s.content[k]))
            && (forall x :: TagValues(a.tags, x) == if x == c.id then Trimmed(c.tags) else TagValues(s.tags, x))
  {
    var scrapes := ScrapesOnUpdate(s.content, s.previews, c, rescrape);
    var cached := s.(previews := AfterScrape(s.previews, scrapes, c.responseToURL, fetched, now));
    assert UpdateSpec(s, c, rescrape, now, fetched) == ApplySpec(cached, c);
    var a := ApplySpec(cached, c).after;
    assert a.content == UpdateRows(s.content, c);
    assert a.tags == WithoutId(s.tags, c.id) + TagRowsFor(c.id, c.tags);
    forall x
      ensures TagValues(a.tags, x) == if x == c.id then Trimmed(c.tags) else TagValues(s.tags, x)
    {
      ReplaceTags(s.tags, c.id, c.tags, x);
    }
  }

  // ----------------------------------------------------------------- delete

  /**
   * `DeleteContent`: the rows of the id are deleted; when there were none the
   * piece is reported missing, otherwise its tag rows are deleted too.
   */
  function DeleteSpec(s: Snapshot, id: Identifier): Outcome<Option<Error>> {
    var rows := RemoveRows(s.content, id);
    if CountId(s.content, id) == 0 then Outcome(Some(ErrContentNotFound), s.(content := rows))
    else Outcome(None, Snapshot(rows, WithoutId(s.tags, id), s.previews))
  }

  /**
   * The results of `DeleteContent`: it fails, changing nothing, exactly when
   * no row has the id, and it never touches the preview cache.
   */
  lemma DeleteOutcomes(s: Snapshot, id: Identifier)
    ensures var o := DeleteSpec(s, id);
            && (o.result.None? <==> id in Ids(s.content))
            && (o.result.Some? ==> o.result.value == ErrContentNotFound && o.after == s)
            && o.after.previews == s.previews
            && (o.result.None? ==> forall k | 0 <= k < |o.after.content| :: o.after.content[k].id != id)
  {
    if id !in Ids(s.content) {
      RemoveAbsentId(s.content, id);
    }
  }

  /** `DeleteContent` keeps the store consistent. */
  lemma DeleteKeepsConsistent(s: Snapshot, id: Identifier)
    requires Consistent(s)
    ensures Consistent(DeleteSpec(s, id).after)
  {
    var rest := RemoveRows(s.content, id);
    RemoveRowsKeepsUnique(s.content, id);
    if id in Ids(s.content) {
      forall t | t in WithoutId(s.tags, id)
        ensures t.id in Ids(rest)
      {
        var j :| 0 <= j < |s.content| && s.content[j].id == t.id;
        var m :| 0 <= m < |rest| && rest[m] == s.content[j];
      }
    } else {
      RemoveAbsentId(s.content, id);
    }
  }

  /**
   * With unique uris, a deleted piece is gone: looking up the uri of any row
   * that had the id finds nothing afterwards, and uris stay unique.
   */
  lemma DeletedIsNotFound(s: Snapshot, id: Identifier, k: int)
    requires URIsUnique(s.content) && 0 <= k < |s.content| && s.content[k].id == id
    ensures Lookup(DeleteSpec(s, id).after, s.content[k].uri) == Err(ErrContentNotFound)
    ensures URIsUnique(DeleteSpec(s, id).after.content)
  {
    RemoveRowsKeepsUnique(s.content, id);
    var rest := RemoveRows(s.content, id);
    forall m | 0 <= m < |rest|
      ensures rest[m].uri != s.content[k].uri
    {
      var j :| 0 <= j < |s.content| && s.content[j] == rest[m];
      assert j != k;
    }
  }
}
