/**
 * The three SQLite tables as values, and the queries and statements of lib.go
 * written as functions over them: the lookups, the per-id UPDATE and DELETE,
 * the tag aggregation, the preview join, and the filtered, ordered and paged
 * listing of `GetContents`.
 */
module Tables {
  import opened Optional
  import opened Blog
  import opened GoStrings

  // ---------------------------------------------------------------- content

  /** The `content` table's primary key: no two rows share an id. */
  predicate IdsUnique(rows: seq<ContentRow>) {
    forall i, j | 0 <= i < j < |rows| :: rows[i].id != rows[j].id
  }

  /** The property the store keeps without help from the schema: no two rows share a uri. */
  predicate URIsUnique(rows: seq<ContentRow>) {
    forall i, j | 0 <= i < j < |rows| :: rows[i].uri != rows[j].uri
  }

  function Ids(rows: seq<ContentRow>): set<Identifier> {
    set k | 0 <= k < |rows| :: rows[k].id
  }

  /** `SELECT COUNT(uri) FROM content WHERE uri = ?`. */
  function CountURI(rows: seq<ContentRow>, uri: string): (n: nat)
    ensures n == 0 <==> forall k | 0 <= k < |rows| :: rows[k].uri != uri
  {
    if rows == [] then 0
    else (if rows[0].uri == uri then 1 else 0) + CountURI(rows[1..], uri)
  }

  /** How many rows a statement `... WHERE id = ?` touches. */
  function CountId(rows: seq<ContentRow>, id: Identifier): (n: nat)
    ensures n == 0 <==> id !in Ids(rows)
    ensures IdsUnique(rows) ==> n <= 1
  {
    if rows == [] then 0
    else
      var n := (if rows[0].id == id then 1 else 0) + CountId(rows[1..], id);
      assert Ids(rows) == {rows[0].id} + Ids(rows[1..]);
      n
  }

  /** The row a single-row `SELECT ... WHERE uri = ?` scans: the first one with that uri. */
  function FindURI(rows: seq<ContentRow>, uri: string): (r: Option<nat>)
    ensures r.None? <==> forall k | 0 <= k < |rows| :: rows[k].uri != uri
    ensures r.Some? ==> r.value < |rows| && rows[r.value].uri == uri
    ensures r.Some? ==> forall k | 0 <= k < r.value :: rows[k].uri != uri
  {
    if rows == [] then None
    else if rows[0].uri == uri then Some(0)
    else match FindURI(rows[1..], uri)
      case None => None
      case Some(k) => Some(k + 1)
  }

  /** A row appended under a uri no row had is the one a lookup by that uri finds. */
  lemma {:induction false} FindAppended(rows: seq<ContentRow>, row: ContentRow)
    requires forall k | 0 <= k < |rows| :: rows[k].uri != row.uri
    ensures FindURI(rows + [row], row.uri) == Some(|rows|)
  {
    if rows != [] {
      var all := rows + [row];
      assert all[0] == rows[0] && all[1..] == rows[1..] + [row];
      FindAppended(rows[1..], row);
    }
  }

  /** The new row `CreateContent` inserts for piece `c`. */
  function NewRow(c: ContentPiece, id: Identifier, now: Time): ContentRow {
    ContentRow(c.title, c.body, c.snippet, c.date, now, id, c.responseToURL, c.postType, c.uri)
  }

  /** A row after `UPDATE content SET title, body, snippet, date, response_to, uri, type`. */
  function Revised(row: ContentRow, c: ContentPiece): (r: ContentRow)
    ensures r.id == row.id && r.dateCreated == row.dateCreated
    ensures r.uri == c.uri && r.responseTo == c.responseToURL && r.postType == c.postType
    ensures r.title == c.title && r.body == c.body && r.snippet == c.snippet && r.date == c.date
  {
    row.(title := c.title, body := c.body, snippet := c.snippet, date := c.date,
         responseTo := c.responseToURL, uri := c.uri, postType := c.postType)
  }

  /** The table after `UPDATE content SET ... WHERE id = c.id`. */
  function UpdateRows(rows: seq<ContentRow>, c: ContentPiece): (r: seq<ContentRow>)
    ensures |r| == |rows|
    ensures forall k | 0 <= k < |rows| :: r[k] == (if rows[k].id == c.id then Revised(rows[k], c) else rows[k])
    ensures Ids(r) == Ids(rows)
    ensures IdsUnique(rows) ==> IdsUnique(r)
    ensures c.id !in Ids(rows) ==> r == rows
  {
    seq(|rows|, k requires 0 <= k < |rows| => if rows[k].id == c.id then Revised(rows[k], c) else rows[k])
  }

  /** The table after `DELETE FROM content WHERE id = ?`. */
  function RemoveRows(rows: seq<ContentRow>, id: Identifier): (r: seq<ContentRow>)
    ensures forall k | 0 <= k < |r| :: r[k].id != id && r[k] in rows
    ensures forall k | 0 <= k < |rows| && rows[k].id != id :: rows[k] in r
    ensures |r| + CountId(rows, id) == |rows|
  {
    if rows == [] then []
    else if rows[0].id == id then RemoveRows(rows[1..], id)
    else [rows[0]] + RemoveRows(rows[1..], id)
  }

  /** A DELETE whose id no row has leaves the table as it was. */
  lemma {:induction false} RemoveAbsentId(rows: seq<ContentRow>, id: Identifier)
    requires forall k | 0 <= k < |rows| :: rows[k].id != id
    ensures RemoveRows(rows, id) == rows
  {
    if rows != [] {
      RemoveAbsentId(rows[1..], id);
      assert rows == [rows[0]] + rows[1..];
    }
  }

  /** Removing rows keeps the rest in order, so it keeps both uniqueness properties. */
  lemma {:induction false} RemoveRowsKeepsUnique(rows: seq<ContentRow>, id: Identifier)
    ensures IdsUnique(rows) ==> IdsUnique(RemoveRows(rows, id))
    ensures URIsUnique(rows) ==> URIsUnique(RemoveRows(rows, id))
  {
    if rows != [] {
      RemoveRowsKeepsUnique(rows[1..], id);
      var rest := RemoveRows(rows[1..], id);
      if rows[0].id != id {
        forall y | y in rest
          ensures IdsUnique(rows) ==> y.id != rows[0].id
          ensures URIsUnique(rows) ==> y.uri != rows[0].uri
        {
          HeadIsApart(rows, y);
        }
        if IdsUnique(rows) {
          ConsKeepsIdsUnique(rows[0], rest);
        }
        if URIsUnique(rows) {
          ConsKeepsURIsUnique(rows[0], rest);
        }
      }
    }
  }

  /** Under either uniqueness property, no later row shares its key with the first. */
  lemma HeadIsApart(rows: seq<ContentRow>, x: ContentRow)
    requires rows != [] && x in rows[1..]
    ensures IdsUnique(rows) ==> x.id != rows[0].id
    ensures URIsUnique(rows) ==> x.uri != rows[0].uri
  {
    var m :| 0 <= m < |rows[1..]| && rows[1..][m] == x;
    assert rows[m + 1] == x;
  }

  lemma ConsKeepsIdsUnique(x: ContentRow, rest: seq<ContentRow>)
    requires IdsUnique(rest) && forall y | y in rest :: y.id != x.id
    ensures IdsUnique([x] + rest)
  {
    var r := [x] + rest;
    forall i, j | 0 <= i < j < |r|
      ensures r[i].id != r[j].id
    {
      assert r[j] == rest[j - 1];
      if i > 0 {
        assert r[i] == rest[i - 1];
      }
    }
  }

  lemma ConsKeepsURIsUnique(x: ContentRow, rest: seq<ContentRow>)
    requires URIsUnique(rest) && forall y | y in rest :: y.uri != x.uri
    ensures URIsUnique([x] + rest)
  {
    var r := [x] + rest;
    forall i, j | 0 <= i < j < |r|
      ensures r[i].uri != r[j].uri
    {
      assert r[j] == rest[j - 1];
      if i > 0 {
        assert r[i] == rest[i - 1];
      }
    }
  }

  /**
   * Inserting a row whose uri no row has keeps uris unique: the check of
   * `CreateContent` before its INSERT is what the invariant rests on.
   */
  lemma InsertKeepsURIsUnique(rows: seq<ContentRow>, row: ContentRow)
    requires URIsUnique(rows)
    requires CountURI(rows, row.uri) == 0
    ensures URIsUnique(rows + [row])
  {
  }

  /**
   * Rewriting the rows of one id keeps uris unique when the new uri is either
   * free or held only by that id, which is what `UpdateContent` checks.
   */
  lemma {:induction false} UpdateRowsKeepURIsUnique(rows: seq<ContentRow>, c: ContentPiece)
    requires URIsUnique(rows) && IdsUnique(rows)
    requires forall k | 0 <= k < |rows| && rows[k].uri == c.uri :: rows[k].id == c.id
    ensures URIsUnique(UpdateRows(rows, c)) && IdsUnique(UpdateRows(rows, c))
  {
    var r := UpdateRows(rows, c);
    forall i, j | 0 <= i < j < |r|
      ensures r[i].uri != r[j].uri && r[i].id != r[j].id
    {
      assert rows[i].id != rows[j].id;
    }
  }

  // -------------------------------------------------------------------- tag

  /** The rows `InsertTag` adds for each tag of a piece, in order: its value trimmed. */
  function TagRowsFor(id: Identifier, tags: seq<string>): (r: seq<TagRow>)
    ensures |r| == |tags|
    ensures forall k | 0 <= k < |tags| :: r[k] == TagRow(id, TrimSpace(tags[k]))
  {
    seq(|tags|, k requires 0 <= k < |tags| => TagRow(id, TrimSpace(tags[k])))
  }

  /** One more tag inserted: one more row at the end. */
  lemma TagRowsForSnoc(id: Identifier, tags: seq<string>, i: int)
    requires 0 <= i < |tags|
    ensures TagRowsFor(id, tags[..i + 1]) == TagRowsFor(id, tags[..i]) + [TagRow(id, TrimSpace(tags[i]))]
  {
    var a := TagRowsFor(id, tags[..i + 1]);
    var b := TagRowsFor(id, tags[..i]) + [TagRow(id, TrimSpace(tags[i]))];
    assert |a| == |b|;
    forall k | 0 <= k < |a| ensures a[k] == b[k] {
      assert tags[..i + 1][k] == tags[k];
      if k < i {
        assert tags[..i][k] == tags[k];
      }
    }
  }

  function Trimmed(tags: seq<string>): (r: seq<string>)
    ensures |r| == |tags| && forall k | 0 <= k < |tags| :: r[k] == TrimSpace(tags[k])
  {
    seq(|tags|, k requires 0 <= k < |tags| => TrimSpace(tags[k]))
  }
  /**
   * The editor shows the tags joined by ", " and the handler splits what is
   * posted back on ',': a non-empty list of comma-free tags comes back with
   * one space in front of every tag but the first, and so, once trimmed for
   * storage, as its own trimmed tags.
   */
  lemma EditedTagsRoundTrip(c: ContentPiece)
    requires c.tags != [] && forall k | 0 <= k < |c.tags| :: ',' !in c.tags[k]
    ensures Split(TagString(c), ',') == [c.tags[0]] + Prefixed(c.tags[1..], " ")
    ensures Trimmed(Split(TagString(c), ',')) == Trimmed(c.tags)
  {
    var ys := [c.tags[0]] + Prefixed(c.tags[1..], " ");
    JoinCommaSpace(c.tags);
    forall k | 0 <= k < |ys|
      ensures ',' !in ys[k] && TrimSpace(ys[k]) == TrimSpace(c.tags[k])
    {
      if k > 0 {
        assert ys[k] == " " + c.tags[k];
        TrimSpaceAfterSpace(c.tags[k]);
      }
    }
    SplitJoin(ys, ',');
  }


  /** The table after `DELETE FROM tag WHERE id = ?`. */
  function WithoutId(rows: seq<TagRow>, id: Identifier): (r: seq<TagRow>)
    ensures forall t | t in r :: t in rows && t.id != id
    ensures forall t | t in rows && t.id != id :: t in r
  {
    if rows == [] then []
    else if rows[0].id == id then WithoutId(rows[1..], id)
    else [rows[0]] + WithoutId(rows[1..], id)
  }

  /** The values of the tag rows of one id, in table order. */
  function TagValues(rows: seq<TagRow>, id: Identifier): seq<string> {
    if rows == [] then []
    else if rows[0].id == id then [rows[0].value] + TagValues(rows[1..], id)
    else TagValues(rows[1..], id)
  }

  lemma {:induction false} TagValuesAppend(a: seq<TagRow>, b: seq<TagRow>, id: Identifier)
    ensures TagValues(a + b, id) == TagValues(a, id) + TagValues(b, id)
  {
    if a == [] {
      assert a + b == b;
    } else {
      assert (a + b)[0] == a[0] && (a + b)[1..] == a[1..] + b;
      TagValuesAppend(a[1..], b, id);
    }
  }

  lemma {:induction false} TagValuesOfRowsFor(id: Identifier, tags: seq<string>, x: Identifier)
    ensures TagValues(TagRowsFor(id, tags), x) == if x == id then Trimmed(tags) else []
  {
    if tags != [] {
      var rows := TagRowsFor(id, tags);
      var rest := TagRowsFor(id, tags[1..]);
      assert rows[1..] == rest;
      assert rows[0] == TagRow(id, TrimSpace(tags[0]));
      TagValuesOfRowsFor(id, tags[1..], x);
      if x == id {
        assert TagValues(rows, x) == [TrimSpace(tags[0])] + TagValues(rest, x);
        assert Trimmed(tags) == [TrimSpace(tags[0])] + Trimmed(tags[1..]);
      } else {
        assert TagValues(rows, x) == TagValues(rest, x);
      }
    }
  }

  lemma {:induction false} TagValuesWithoutId(rows: seq<TagRow>, id: Identifier, x: Identifier)
    ensures TagValues(WithoutId(rows, id), x) == if x == id then [] else TagValues(rows, x)
  {
    if rows != [] {
      TagValuesWithoutId(rows[1..], id, x);
    }
  }

  /**
   * Replacing the tags of `id` (delete, then one trimmed row per tag, as
   * `UpdateContent` does) leaves exactly the trimmed tags, in order and with
   * duplicates and empty strings kept, under `id`, and every other id's tags
   * as they were.
   */
  lemma ReplaceTags(rows: seq<TagRow>, id: Identifier, tags: seq<string>, x: Identifier)
    ensures TagValues(WithoutId(rows, id) + TagRowsFor(id, tags), x)
            == if x == id then Trimmed(tags) else TagValues(rows, x)
  {
    TagValuesAppend(WithoutId(rows, id), TagRowsFor(id, tags), x);
    TagValuesWithoutId(rows, id, x);
    TagValuesOfRowsFor(id, tags, x);
  }

  /** Appending the tags of a new id (as `CreateContent` does) when that id had no rows. */
  lemma AddTags(rows: seq<TagRow>, id: Identifier, tags: seq<string>, x: Identifier)
    requires forall t | t in rows :: t.id != id
    ensures TagValues(rows + TagRowsFor(id, tags), x)
            == if x == id then Trimmed(tags) else TagValues(rows, x)
  {
    TagValuesAppend(rows, TagRowsFor(id, tags), x);
    TagValuesOfRowsFor(id, tags, x);
    if x == id {
      NoTagValues(rows, id);
    }
  }

  lemma {:induction false} NoTagValues(rows: seq<TagRow>, id: Identifier)
    requires forall t | t in rows :: t.id != id
    ensures TagValues(rows, id) == []
  {
    if rows != [] {
      NoTagValues(rows[1..], id);
    }
  }

  /** `(SELECT IFNULL(GROUP_CONCAT(value, ","), "") FROM tag WHERE id = ?)`. */
  function GroupConcat(rows: seq<TagRow>, id: Identifier): string {
    Join(TagValues(rows, id), ",")
  }

  /** How a piece's tags are read back from the aggregate: no tags for "", else a split on ','. */
  function ReadTags(concat: string): (tags: seq<string>)
    ensures concat == "" <==> tags == []
    ensures tags != [] ==> Join(tags, ",") == concat
  {
    if concat == "" then []
    else
      JoinSplit(concat, ',');
      Split(concat, ',')
  }

  lemma JoinEmpty(vs: seq<string>, sep: string)
    requires sep != ""
    requires Join(vs, sep) == ""
    ensures vs == [] || vs == [""]
  {
  }

  /**
   * Comma-free tag values read back as themselves, except that a single empty
   * tag reads back as no tags at all.
   */
  lemma ReadTagsRoundTrip(vs: seq<string>)
    requires forall k | 0 <= k < |vs| :: ',' !in vs[k]
    ensures ReadTags(Join(vs, ",")) == if vs == [""] then [] else vs
  {
    var s := Join(vs, ",");
    if s == "" {
      JoinEmpty(vs, ",");
    } else {
      assert vs != [];
      SplitJoin(vs, ',');
    }
  }

  /**
   * The tags a piece was stored with read back as their trimmed values when
   * none holds a comma, except that a single blank tag reads back as none.
   */
  lemma TrimmedTagsReadBack(tags: seq<string>)
    requires forall k | 0 <= k < |tags| :: ',' !in tags[k]
    ensures ReadTags(Join(Trimmed(tags), ","))
            == if Trimmed(tags) == [""] then [] else Trimmed(tags)
  {
    var vs := Trimmed(tags);
    forall k | 0 <= k < |vs|
      ensures ',' !in vs[k]
    {
      assert vs[k] == TrimSpace(tags[k]);
    }
    ReadTagsRoundTrip(vs);
  }

  // ---------------------------------------------------------------- preview

  /**
   * The preview a piece carries after `LEFT JOIN url_preview ON response_to = url`
   * and `IFNULL(..., "")`: none when the piece responds to nothing, the empty
   * preview when no row joins, and otherwise the cached row (its crawl date is
   * not selected and stays the zero time).
   */
  function JoinedPreview(previews: map<string, URLPreview>, responseTo: string): (r: Option<URLPreview>)
    ensures r.Some? <==> responseTo != ""
    ensures r.Some? && responseTo in previews ==> r.value == previews[responseTo].(dateCrawled := ZeroTime)
    ensures r.Some? && responseTo !in previews ==> r.value == EmptyPreview
  {
    if responseTo == "" then None
    else if responseTo in previews then Some(previews[responseTo].(dateCrawled := ZeroTime))
    else Some(EmptyPreview)
  }

  /** The piece a row of the content query scans into. */
  function PieceOf(row: ContentRow, tags: seq<TagRow>, previews: map<string, URLPreview>): (c: ContentPiece)
    ensures c.id == row.id && c.uri == row.uri && c.responseToURL == row.responseTo
    ensures c.date == row.date && c.dateCreated == row.dateCreated && c.postType == row.postType
    ensures c.responseToURLPreview.Some? <==> c.responseToURL != ""
    ensures c.tags == ReadTags(GroupConcat(tags, row.id))
  {
    ContentPiece(row.body, row.snippet, row.dateCreated, row.date, row.id, row.responseTo,
                 row.title, row.postType, row.uri,
                 JoinedPreview(previews, row.responseTo), ReadTags(GroupConcat(tags, row.id)))
  }

  // ---------------------------------------------------------------- listing

  /** The WHERE clause both queries of `GetContents` share: published by `now`, of the filtered type. */
  predicate Visible(row: ContentRow, now: Time, postType: PostType) {
    row.date <= now && (postType == TypeAll || row.postType == postType)
  }

  /** The count query of `GetContents`; it does not look at the tag filter. */
  function CountVisible(rows: seq<ContentRow>, now: Time, postType: PostType): nat {
    if rows == [] then 0
    else (if Visible(rows[0], now, postType) then 1 else 0) + CountVisible(rows[1..], now, postType)
  }

  function CountTag(tags: seq<TagRow>, id: Identifier, tag: string): nat {
    if tags == [] then 0
    else (if tags[0] == TagRow(id, tag) then 1 else 0) + CountTag(tags[1..], id, tag)
  }

  lemma {:induction false} CountTagPositive(tags: seq<TagRow>, id: Identifier, tag: string)
    ensures CountTag(tags, id, tag) > 0 <==> TagRow(id, tag) in tags
  {
    if tags != [] {
      CountTagPositive(tags[1..], id, tag);
    }
  }

  /**
   * How often a row comes out of the listing query's joins: once when it is
   * visible and no tag is asked for; with `INNER JOIN tag ... AND t3.value = ?`
   * once per matching tag row, so a tag stored twice lists its piece twice.
   */
  function Multiplicity(row: ContentRow, tags: seq<TagRow>, now: Time, postType: PostType, tag: string): nat {
    if !Visible(row, now, postType) then 0
    else if tag == "" then 1
    else CountTag(tags, row.id, tag)
  }

  function Repeat(row: ContentRow, n: nat): (r: seq<ContentRow>)
    ensures |r| == n && forall k | 0 <= k < n :: r[k] == row
  {
    seq(n, k => row)
  }

  /** The rows the listing query selects before ordering, in table order. */
  function Joined(rows: seq<ContentRow>, tags: seq<TagRow>, now: Time, postType: PostType, tag: string): (r: seq<ContentRow>)
    ensures forall x | x in r :: x in rows && Multiplicity(x, tags, now, postType, tag) > 0
  {
    if rows == [] then []
    else Repeat(rows[0], Multiplicity(rows[0], tags, now, postType, tag)) + Joined(rows[1..], tags, now, postType, tag)
  }

  /** Without a tag filter the listing selects exactly the rows the count query counts. */
  lemma {:induction false} JoinedWithoutTagIsCounted(rows: seq<ContentRow>, tags: seq<TagRow>, now: Time, postType: PostType)
    ensures |Joined(rows, tags, now, postType, "")| == CountVisible(rows, now, postType)
  {
    if rows != [] {
      JoinedWithoutTagIsCounted(rows[1..], tags, now, postType);
    }
  }

  predicate SortedByDateDesc(rows: seq<ContentRow>) {
    forall i, j | 0 <= i < j < |rows| :: rows[i].date >= rows[j].date
  }

  /** Puts `x` in front of the first row that is not newer than it. */
  function InsertByDate(x: ContentRow, rows: seq<ContentRow>): (r: seq<ContentRow>)
    requires SortedByDateDesc(rows)
    ensures |r| == |rows| + 1
    ensures r[0] == x || (rows != [] && r[0] == rows[0])
    ensures SortedByDateDesc(r)
  {
    if rows == [] || rows[0].date <= x.date then [x] + rows
    else
      var rest := InsertByDate(x, rows[1..]);
      var r := [rows[0]] + rest;
      assert rest[0].date <= rows[0].date;
      assert forall k | 1 <= k < |r| :: r[k].date <= r[1].date;
      r
  }

  /** Insertion adds exactly the one row. */
  lemma {:induction false} InsertByDateAdds(x: ContentRow, rows: seq<ContentRow>)
    requires SortedByDateDesc(rows)
    ensures multiset(InsertByDate(x, rows)) == multiset(rows) + multiset{x}
  {
    if rows != [] && rows[0].date > x.date {
      InsertByDateAdds(x, rows[1..]);
      assert rows == [rows[0]] + rows[1..];
    }
  }

  /**
   * `ORDER BY date DESC`: newest first, a permutation of its input. Rows of
   * the same date keep their table order here.
   */
  function SortByDateDesc(rows: seq<ContentRow>): (r: seq<ContentRow>)
    ensures SortedByDateDesc(r)
    ensures multiset(r) == multiset(rows)
  {
    if rows == [] then []
    else
      assert rows == [rows[0]] + rows[1..];
      InsertByDateAdds(rows[0], SortByDateDesc(rows[1..]));
      InsertByDate(rows[0], SortByDateDesc(rows[1..]))
  }

  /** `LIMIT limit OFFSET offset`: a negative offset counts as 0 and a negative limit as no limit. */
  function Window(rows: seq<ContentRow>, limit: int, offset: int): (r: seq<ContentRow>)
    ensures limit >= 0 ==> |r| <= limit
    ensures forall x | x in r :: x in rows
    ensures var start := if offset < 0 then 0 else offset;
            start <= |rows| ==> start + |r| <= |rows| && r == rows[start..start + |r|]
    ensures var start := if offset < 0 then 0 else offset;
            limit >= 0 && start <= |rows| ==> |r| == if limit < |rows| - start then limit else |rows| - start
    ensures var start := if offset < 0 then 0 else offset;
            limit < 0 && start <= |rows| ==> r == rows[start..]
    ensures offset > |rows| ==> r == []
  {
    var start := if offset < 0 then 0 else if offset > |rows| then |rows| else offset;
    var end := if limit < 0 || start + limit > |rows| then |rows| else start + limit;
    rows[start..end]
  }

  /** The rows the listing query of `GetContents` returns, in order. */
  function Listing(rows: seq<ContentRow>, tags: seq<TagRow>, now: Time, postType: PostType,
                   tag: string, limit: int, offset: int): seq<ContentRow>
  {
    Window(SortByDateDesc(Joined(rows, tags, now, postType, tag)), limit, offset)
  }

  lemma SortedSlice(s: seq<ContentRow>, i: int, j: int)
    requires SortedByDateDesc(s) && 0 <= i <= j <= |s|
    ensures SortedByDateDesc(s[i..j])
  {
  }

  /**
   * Every listed row is a stored row, published by `now`, of the filtered type
   * and, under a tag filter, carrying that tag; the rows come newest first and
   * there are `limit` of them, or all that remain after the offset when fewer
   * do.
   */
  lemma ListingSound(rows: seq<ContentRow>, tags: seq<TagRow>, now: Time, postType: PostType,
                     tag: string, limit: int, offset: int)
    ensures var r := Listing(rows, tags, now, postType, tag, limit, offset);
            var n := |Joined(rows, tags, now, postType, tag)|;
            var start := if offset < 0 then 0 else offset;
            && (limit >= 0 ==> |r| <= limit)
            && (limit >= 0 && start <= n ==> |r| == if limit < n - start then limit else n - start)
            && SortedByDateDesc(r)
            && forall x | x in r :: x in rows && Visible(x, now, postType)
                                    && (tag != "" ==> TagRow(x.id, tag) in tags)
  {
    var j := Joined(rows, tags, now, postType, tag);
    var s := SortByDateDesc(j);
    var r := Window(s, limit, offset);
    assert r == Listing(rows, tags, now, postType, tag, limit, offset);
    assert |s| == |multiset(s)| == |multiset(j)| == |j|;
    forall x | x in r
      ensures x in rows && Visible(x, now, postType) && (tag != "" ==> TagRow(x.id, tag) in tags)
    {
      assert x in multiset(s);
      JoinedRowSound(rows, tags, now, postType, tag, x);
    }
    WindowSorted(s, limit, offset);
  }

  /** A row the listing query selects is stored, visible, and carries the filtered tag. */
  lemma JoinedRowSound(rows: seq<ContentRow>, tags: seq<TagRow>, now: Time, postType: PostType,
                       tag: string, x: ContentRow)
    requires x in Joined(rows, tags, now, postType, tag)
    ensures x in rows && Visible(x, now, postType) && (tag != "" ==> TagRow(x.id, tag) in tags)
  {
    if tag != "" {
      CountTagPositive(tags, x.id, tag);
    }
  }

  /** A window of a newest-first sequence is newest first. */
  lemma WindowSorted(s: seq<ContentRow>, limit: int, offset: int)
    requires SortedByDateDesc(s)
    ensures SortedByDateDesc(Window(s, limit, offset))
  {
    var start := if offset < 0 then 0 else if offset > |s| then |s| else offset;
    var r := Window(s, limit, offset);
    SortedSlice(s, start, start + |r|);
  }

  /** Without a tag filter, every visible stored row is selected by the listing query. */
  lemma {:induction false} VisibleRowsJoined(rows: seq<ContentRow>, tags: seq<TagRow>, now: Time, postType: PostType, x: ContentRow)
    requires x in rows && Visible(x, now, postType)
    ensures x in Joined(rows, tags, now, postType, "")
  {
    var head := Repeat(rows[0], Multiplicity(rows[0], tags, now, postType, ""));
    var rest := Joined(rows[1..], tags, now, postType, "");
    assert Joined(rows, tags, now, postType, "") == head + rest;
    if rows[0] != x {
      VisibleRowsJoined(rows[1..], tags, now, postType, x);
      assert x in rest;
    } else {
      assert head[0] == x;
    }
  }
}
