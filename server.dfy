/**
 * The request handling of server.go that decides what reaches the store:
 * reading integers from the query string, the listing's `PageInfo`, the
 * normalisation and dispatch of the editor's POST `/post`, and the file
 * names of images and their cached thumbnails.
 */
module Server {
  import opened Optional
  import opened Blog
  import opened GoStrings
  import opened GoNumbers
  import opened GoPaths
  import opened Preview
  import opened Tables
  import opened Paging
  import opened StoreSpec
  import opened Store

  // ------------------------------------------------------------ query values

  /** `c.Query(key)`: the value of the parameter, "" when it is absent. */
  function Query(q: map<string, string>, key: string): (v: string)
    ensures key in q ==> v == q[key]
    ensures key !in q ==> v == ""
  {
    if key in q then q[key] else ""
  }

  /**
   * `parseQueryInt`: the parameter read as a 64-bit integer when it is one
   * and at least `min`, the default `d` otherwise.
   */
  function ParseQueryInt(v: string, d: int, min: int): (n: int)
    ensures n == d || (Atoi(v) == Some(n) && n >= min)
    ensures Atoi(v).None? ==> n == d
    ensures Atoi(v).Some? && Atoi(v).value >= min ==> n == Atoi(v).value
    ensures Atoi(v).Some? && Atoi(v).value < min ==> n == d
    ensures d >= min ==> n >= min
    ensures IsInt64(d) ==> IsInt64(n)
  {
    var i := Atoi(v);
    if i.Some? then
      if i.value < min then d else i.value
    else d
  }

  /** Every 64-bit number written in decimal is read back unless it is below the minimum. */
  lemma ParseQueryIntOfFormatted(n: int, d: int, min: int)
    requires IsInt64(n)
    ensures ParseQueryInt(FormatInt(n), d, min) == if n < min then d else n
  {
    AtoiFormatInt(n);
  }

  /** The filter a `type` parameter names; any other value names no type. */
  function NamedType(v: string): (t: PostType)
    ensures v == "post" ==> t == TypeDefault
    ensures v == "repost" ==> t == TypeRepost
    ensures v == "heart" ==> t == TypeHeart
    ensures v == "status" ==> t == TypeStatus
    ensures t == TypeAll <==> v !in {"post", "repost", "heart", "status"}
  {
    match v
    case "post" => TypeDefault
    case "repost" => TypeRepost
    case "heart" => TypeHeart
    case "status" => TypeStatus
    case _ => TypeAll
  }

  /** The four names select four different types. */
  lemma NamedTypesDiffer(v: string, w: string)
    requires NamedType(v) == NamedType(w) && NamedType(v) != TypeAll
    ensures v == w
  {
  }

  /**
   * `GetPage`: the current page (default 1) and page size (default 10, at
   * most 50) from the query, never below 1; the type filter, every type when
   * the parameter is absent or unknown; the tag filter; and the date
   * filter, which for the author (`authorized`) lies far in the future
   * (`later`, standing for `time.Now().AddDate(999, 1, 1)`).
   */
  method GetPage(q: map<string, string>, now: Time, authorized: bool, later: Time) returns (page: PageInfo)
    ensures fresh(page)
    ensures page.current >= 1 && IsInt64(page.current)
    ensures 1 <= page.itemLimit <= 50
    ensures page.current == ParseQueryInt(Query(q, "page"), 1, 1)
    ensures page.itemLimit == if ParseQueryInt(Query(q, "limit"), 10, 1) > 50 then 50
                              else ParseQueryInt(Query(q, "limit"), 10, 1)
    ensures "page" !in q ==> page.current == 1
    ensures "limit" !in q ==> page.itemLimit == 10
    ensures page.postType == if "type" in q then NamedType(q["type"]) else TypeAll
    ensures page.tag == Query(q, "tag")
    ensures page.dateFilter == if authorized then later else now
  {
    var limit := ParseQueryInt(Query(q, "limit"), 10, 1);
    if limit > 50 {
      limit := 50;
    }
    var postType := TypeAll;
    if "type" in q {
      var v := q["type"];
      if v == "post" {
        postType := TypeDefault;
      } else if v == "repost" {
        postType := TypeRepost;
      } else if v == "heart" {
        postType := TypeHeart;
      } else if v == "status" {
        postType := TypeStatus;
      }
    }
    var dateFilter := now;
    if authorized {
      dateFilter := later;
    }
    page := new PageInfo();
    page.current := ParseQueryInt(Query(q, "page"), 1, 1);
    page.itemLimit := limit;
    page.postType := postType;
    page.tag := Query(q, "tag");
    page.dateFilter := dateFilter;
  }

  // -------------------------------------------------------- the POST handler

  /**
   * `ContentPayload` as the POST `/post` handler reads it: the piece, the
   * date and time strings, the transaction type, the "rescrape" box and the
   * comma-separated tags. `OldURI` and `Password` are bound but unused.
   */
  datatype Payload = Payload(piece: ContentPiece, dateString: string, timeString: string,
                             transactionType: string, rescrape: string, tagString: string)

  /**
   * The normalisation of POST `/post`, with `parsed` the result of
   * `time.Parse("2006-01-02 15:04", date + " " + time)`: a missing date or
   * time means now, an unparsable one is rejected; the tags are the
   * comma-separated pieces of the tag string; a heart or repost without
   * response url is rejected; an empty uri is derived.
   */
  function Prepared(res: Payload, now: Time, parsed: Option<Time>, slugOf: string -> string): Result<Payload>
  {
    var date := if res.dateString == "" || res.timeString == "" then Some(now) else parsed;
    if date.None? then Err(ErrDateParse)
    else
      var piece := res.piece.(date := date.value, tags := Split(res.tagString, ','));
      if LacksResponseURL(piece) then Err(ErrMissingResponseURL)
      else Ok(res.(piece := piece.(uri := DerivedURI(piece, slugOf, now))))
  }

  /**
   * The same normalisation as server.go writes it: the date-parse error is
   * reported but the handler goes on with the date the form bound.
   */
  function PreparedAsWritten(res: Payload, now: Time, parsed: Option<Time>, slugOf: string -> string): Result<Payload>
  {
    var date := if res.dateString == "" || res.timeString == "" then Some(now) else parsed;
    var piece := res.piece.(date := if date.Some? then date.value else res.piece.date,
                            tags := Split(res.tagString, ','));
    if LacksResponseURL(piece) then Err(ErrMissingResponseURL)
    else Ok(res.(piece := piece.(uri := DerivedURI(piece, slugOf, now))))
  }

  /**
   * What the normalisation accepts and what it sets: the date (now when a
   * part is missing), one tag per comma plus one, which join back to the tag
   * string (so an empty tag string gives one empty tag), and the uri (kept
   * when given, else the slug of the title, else the Unix time, which reads
   * back as that number); nothing else changes.
   */
  lemma PreparedProperties(res: Payload, now: Time, parsed: Option<Time>, slugOf: string -> string)
    ensures var r := Prepared(res, now, parsed, slugOf);
            var blank := res.dateString == "" || res.timeString == "";
            && (r == Err(ErrDateParse) <==> !blank && parsed.None?)
            && (r.Ok? <==> (blank || parsed.Some?) && !LacksResponseURL(res.piece))
            && (r.Ok? ==> r.value == res.(piece := res.piece.(date := r.value.piece.date, tags := r.value.piece.tags,
                                                               uri := r.value.piece.uri)))
            && (r.Ok? ==> r.value.piece.date == if blank then now else parsed.value)
            && (r.Ok? ==> |r.value.piece.tags| == Count(res.tagString, ',') + 1
                          && Join(r.value.piece.tags, ",") == res.tagString)
            && (r.Ok? && res.tagString == "" ==> r.value.piece.tags == [""])
            && (r.Ok? && res.piece.uri != "" ==> r.value.piece.uri == res.piece.uri)
            && (r.Ok? && res.piece.uri == "" && res.piece.title != "" ==> r.value.piece.uri == slugOf(res.piece.title))
            && (r.Ok? && res.piece.uri == "" && res.piece.title == "" && IsInt64(UnixSeconds(now)) ==>
                  Atoi(r.value.piece.uri) == Some(UnixSeconds(now)))
  {
    JoinSplit(res.tagString, ',');
    if res.piece.uri == "" && res.piece.title == "" && IsInt64(UnixSeconds(now)) {
      AtoiFormatInt(UnixSeconds(now));
    }
  }

  /**
   * When the date parses, or a part of it is missing, server.go's
   * normalisation is the corrected one; when it does not parse, server.go
   * reports the error yet accepts the payload with the date the form bound,
   * which then reaches the store.
   */
  lemma DateParseFailureIsIgnored(res: Payload, now: Time, slugOf: string -> string)
    requires res.dateString != "" && res.timeString != ""
    requires !LacksResponseURL(res.piece)
    ensures Prepared(res, now, None, slugOf) == Err(ErrDateParse)
    ensures PreparedAsWritten(res, now, None, slugOf).Ok?
    ensures PreparedAsWritten(res, now, None, slugOf).value.piece.date == res.piece.date
    ensures forall d :: PreparedAsWritten(res, now, Some(d), slugOf) == Prepared(res, now, Some(d), slugOf)
  {
  }

  /**
   * The tags of a piece created from the editor read back, through
   * `GetContent`, as the trimmed comma-separated pieces of the tag string;
   * a blank tag string reads back as no tags.
   */
  lemma CreatedTagsReadBack(s: Snapshot, c: ContentPiece, tagString: string, newId: Identifier, now: Time,
                            fetched: Option<HTMLInfo>)
    requires Consistent(s) && c.tags == Split(tagString, ',')
    requires CreateSpec(s, c, newId, now, fetched).result.Ok?
    ensures var tags := Trimmed(Split(tagString, ','));
            Lookup(CreateSpec(s, c, newId, now, fetched).after, c.uri).Ok?
            && Lookup(CreateSpec(s, c, newId, now, fetched).after, c.uri).value.tags == if tags == [""] then [] else tags
    ensures (forall k | 0 <= k < |tagString| :: tagString[k] == ' ') ==>
              Lookup(CreateSpec(s, c, newId, now, fetched).after, c.uri).value.tags == []
  {
    CreateReadBack(s, c, newId, now, fetched);
    if forall k | 0 <= k < |tagString| :: tagString[k] == ' ' {
      BlankTagString(tagString);
    }
  }

  /** A tag string of spaces only is one blank tag. */
  lemma {:induction false} BlankTagString(tagString: string)
    requires forall k | 0 <= k < |tagString| :: tagString[k] == ' '
    ensures Trimmed(Split(tagString, ',')) == [""]
  {
    SplitNoSeparator(tagString, ',');
    assert Split(tagString, ',') == [tagString];
    assert TrimSpace(tagString) == "" by {
      BlankTrims(tagString);
    }
  }

  lemma {:induction false} BlankTrims(s: string)
    requires forall k | 0 <= k < |s| :: s[k] == ' '
    ensures TrimSpace(s) == ""
  {
    if s != [] {
      BlankTrims(s[1..]);
    }
  }

  /** The dispatch on the transaction type: "DELETE", "UPDATE", anything else creates. */
  function Dispatched(s: Snapshot, p: Payload, newId: Identifier, now: Time,
                      fetched: Option<HTMLInfo>): Outcome<Option<Error>>
  {
    if p.transactionType == "DELETE" then DeleteSpec(s, p.piece.id)
    else if p.transactionType == "UPDATE" then UpdateSpec(s, p.piece, p.rescrape == "on", now, fetched)
    else
      var o := CreateSpec(s, p.piece, newId, now, fetched);
      Outcome(if o.result.Ok? then None else Some(o.result.error), o.after)
  }

  /** Where a success redirects: the front page after a delete, the piece otherwise. */
  function Location(p: Payload): (loc: string)
    ensures p.transactionType == "DELETE" <==> loc == "./"
  {
    if p.transactionType == "DELETE" then "./" else "./post/" + p.piece.uri
  }

  /** Whatever the form asks for, the store stays consistent and its uris unique. */
  lemma DispatchedKeepsInvariants(s: Snapshot, p: Payload, newId: Identifier, now: Time,
                                  fetched: Option<HTMLInfo>)
    requires Consistent(s)
    ensures Consistent(Dispatched(s, p, newId, now, fetched).after)
    ensures URIsUnique(s.content) ==> URIsUnique(Dispatched(s, p, newId, now, fetched).after.content)
  {
    if p.transactionType == "DELETE" {
      DeleteKeepsConsistent(s, p.piece.id);
      if URIsUnique(s.content) && p.piece.id in Ids(s.content) {
        var k :| 0 <= k < |s.content| && s.content[k].id == p.piece.id;
        DeletedIsNotFound(s, p.piece.id, k);
      } else if URIsUnique(s.content) {
        DeleteOutcomes(s, p.piece.id);
      }
    } else if p.transactionType == "UPDATE" {
      UpdateKeepsConsistent(s, p.piece, p.rescrape == "on", now, fetched);
      if URIsUnique(s.content) {
        UpdateKeepsURIsUnique(s, p.piece, p.rescrape == "on", now, fetched);
      }
    } else {
      CreateKeepsConsistent(s, p.piece, newId, now, fetched);
      if URIsUnique(s.content) {
        CreateKeepsURIsUnique(s, p.piece, newId, now, fetched);
      }
    }
  }

  /** The normalisation of the form as the handler performs it, one field at a time. */
  method Normalise(res: Payload, now: Time, parsed: Option<Time>, slugOf: string -> string)
    returns (r: Result<Payload>)
    ensures r == Prepared(res, now, parsed, slugOf)
  {
    var p := res;
    if p.dateString == "" || p.timeString == "" {
      p := p.(piece := p.piece.(date := now));
    } else if parsed.None? {
      return Err(ErrDateParse);
    } else {
      p := p.(piece := p.piece.(date := parsed.value));
    }
    p := p.(piece := p.piece.(tags := Split(p.tagString, ',')));
    if LacksResponseURL(p.piece) {
      return Err(ErrMissingResponseURL);
    }
    if p.piece.uri == "" {
      if p.piece.title != "" {
        p := p.(piece := p.piece.(uri := slugOf(p.piece.title)));
      } else {
        p := p.(piece := p.piece.(uri := FormatInt(UnixSeconds(now))));
      }
    }
    r := Ok(p);
  }

  /** The switch on the transaction type, run against the store. */
  method Run(store: ContentStore, p: Payload, newId: Identifier, now: Time, fetched: Option<HTMLInfo>)
    returns (err: Option<Error>)
    requires store.Valid()
    modifies store
    ensures store.Valid()
    ensures Outcome(err, store.State()) == Dispatched(old(store.State()), p, newId, now, fetched)
  {
    if p.transactionType == "DELETE" {
      err := store.DeleteContent(p.piece);
    } else if p.transactionType == "UPDATE" {
      err := store.UpdateContent(p.piece, p.rescrape == "on", now, fetched);
    } else {
      var r := store.CreateContent(p.piece, newId, now, fetched);
      err := if r.Ok? then None else Some(r.error);
    }
  }

  /**
   * POST `/post`: only the author may post; the form is normalised, the
   * operation runs in a transaction that is rolled back on an error, and a
   * success redirects (302) to `Location`.
   */
  method PostPost(store: ContentStore, authorized: bool, res: Payload, now: Time, parsed: Option<Time>,
                  slugOf: string -> string, newId: Identifier, fetched: Option<HTMLInfo>)
    returns (reply: Reply)
    requires store.Valid()
    modifies store
    ensures store.Valid()
    ensures reply.Failure? ==> store.State() == old(store.State())
    ensures old(URIsUnique(store.content)) ==> URIsUnique(store.content)
    ensures !authorized ==> reply == Failure(ErrNoAuth)
    ensures authorized ==>
              match Prepared(res, now, parsed, slugOf)
              case Err(e) => reply == Failure(e)
              case Ok(p) =>
                var o := Dispatched(old(store.State()), p, newId, now, fetched);
                if o.result.Some? then reply == Failure(o.result.value)
                else reply == Redirect(302, Location(p)) && store.State() == o.after
  {
    if !authorized {
      return Failure(ErrNoAuth);
    }
    var prepared := Normalise(res, now, parsed, slugOf);
    if prepared.Err? {
      return Failure(prepared.error);
    }
    var p := prepared.value;
    var start := store.State();
    DispatchedKeepsInvariants(start, p, newId, now, fetched);
    var err := Run(store, p, newId, now, fetched);
    if err.Some? {
      store.Rollback(start);
      return Failure(err.value);
    }
    reply := Redirect(302, Location(p));
  }

  // ----------------------------------------------------------------- images

  /** `IsImage`: the lower-cased extension of the name is ".jpg", ".jpeg" or ".png". */
  function IsImage(name: string): (ok: bool)
    ensures ok ==> '.' in name
  {
    ToLower(Ext(name)) in {".jpg", ".jpeg", ".png"}
  }

  /** Whatever a name starts with, its last extension alone decides, in any letter case. */
  lemma IsImageByExtension(stem: string, ext: string)
    requires ext != [] && ext[0] == '.' && '/' !in ext && '.' !in ext[1..]
    ensures IsImage(stem + ext) <==> ToLower(ext) in {".jpg", ".jpeg", ".png"}
  {
    ExtOfAppended(stem, ext);
  }

  /**
   * The file `ServeImageCache` keeps a resized copy in: beside the original,
   * named after its base name without extension, then "_", the size as
   * given, "_" and the extension with its dot. A size that is not an
   * integer is an error.
   */
  function CachedImagePath(filename: string, size: string): (r: Result<string>)
    ensures r.Err? <==> Atoi(size).None?
    ensures r.Err? ==> r.error == ErrInvalidImageSize(size)
  {
    if Atoi(size).None? then Err(ErrInvalidImageSize(size))
    else
      var base := Base(filename);
      var ext := Ext(filename);
      ExtSuffixOfBase(filename);
      var name := base[..|base| - |ext|];
      Ok(DirPrefix(filename) + name + "_" + size + "_" + ext)
  }

  /**
   * For a file `dir + stem + ext` the thumbnail is `dir + stem + "_" + size +
   * "_" + ext`: it stays in the same directory, keeps the extension, and so
   * is an image exactly when the original is.
   */
  lemma CachedImageOfFile(dir: string, stem: string, ext: string, size: string)
    requires IsDirPrefix(dir) && '/' !in stem && '/' !in size
    requires ext != [] && ext[0] == '.' && '/' !in ext && '.' !in ext[1..]
    requires Atoi(size).Some?
    ensures CachedImagePath(dir + stem + ext, size) == Ok(dir + stem + "_" + size + "_" + ext)
    ensures Ext(dir + stem + "_" + size + "_" + ext) == ext
    ensures IsImage(dir + stem + "_" + size + "_" + ext) == IsImage(dir + stem + ext)
  {
    var filename := dir + stem + ext;
    assert filename == dir + (stem + ext);
    BaseAppended(dir, stem + ext);
    DirPrefixAppended(dir, stem + ext);
    ExtOfAppended(dir + stem, ext);
    var base := stem + ext;
    assert base[..|base| - |ext|] == stem;
    ExtOfAppended(dir + stem + "_" + size + "_", ext);
  }
}
