/**
 * How `ScrapURLPreview` (lib.go:534-569) turns the metadata parsed from a page
 * into the preview it caches. The HTTP fetch and the HTML parsing are not
 * modelled: their outcome is an input, `None` when either failed.
 */
module Preview {
  import opened Optional
  import opened Blog

  datatype OGImage = OGImage(url: string)

  /** The Open Graph record the parser found. */
  datatype OGInfo = OGInfo(url: string, title: string, description: string, images: seq<OGImage>)

  /** The oEmbed record the parser found. */
  datatype OembedInfo = OembedInfo(html: string, thumbnailURL: string)

  /** What `htmlinfo.Parse` leaves in its `HTMLInfo`, as far as the blog reads it. */
  datatype HTMLInfo = HTMLInfo(title: string, description: string, og: Option<OGInfo>, oembed: Option<OembedInfo>)

  /**
   * The field merge of `ScrapURLPreview`: start from the page's own title and
   * description; oEmbed supplies the markup and thumbnail, or else the first
   * Open Graph image the thumbnail; Open Graph's url, title and description
   * override last. The preview is therefore cached under Open Graph's url,
   * which need not be the url that was fetched.
   */
  function MergePreview(s: string, info: HTMLInfo, now: Time): (p: URLPreview)
    ensures p.dateCrawled == now
    ensures p.url == (if info.og.Some? then info.og.value.url else s)
    ensures p.title == (if info.og.Some? then info.og.value.title else info.title)
    ensures p.snippet == (if info.og.Some? then info.og.value.description else info.description)
    ensures p.oembedHTML == (if info.oembed.Some? then info.oembed.value.html else "")
    ensures p.thumbnailURL ==
              if info.oembed.Some? then info.oembed.value.thumbnailURL
              else if info.og.Some? && |info.og.value.images| > 0 then info.og.value.images[0].url
              else ""
  {
    var p := URLPreview("", info.description, "", info.title, s, now);
    var p :=
      if info.oembed.Some? then
        var o := info.oembed.value;
        var p := if o.html != "" then p.(oembedHTML := o.html) else p;
        if o.thumbnailURL != "" then p.(thumbnailURL := o.thumbnailURL) else p
      else if info.og.Some? && |info.og.value.images| > 0 then
        p.(thumbnailURL := info.og.value.images[0].url)
      else p;
    if info.og.Some? then
      p.(url := info.og.value.url, title := info.og.value.title, snippet := info.og.value.description)
    else p
  }

  /** `ScrapURLPreview`: fails exactly when the fetch or the parse failed. */
  function ScrapURLPreview(s: string, fetched: Option<HTMLInfo>, now: Time): (r: Result<URLPreview>)
    ensures r.Err? <==> fetched.None?
    ensures r.Err? ==> r.error == ErrFetch
    ensures r.Ok? ==> r.value == MergePreview(s, fetched.value, now)
  {
    match fetched
    case None => Err(ErrFetch)
    case Some(info) => Ok(MergePreview(s, info, now))
  }

  /** A page with oEmbed markup yields a fulfilled preview whenever its url survives the merge. */
  lemma OembedPageIsFulfilled(s: string, info: HTMLInfo, now: Time)
    requires info.oembed.Some? && info.oembed.value.html != ""
    requires if info.og.Some? then info.og.value.url != "" else s != ""
    ensures IsFulfilled(MergePreview(s, info, now))
  {
  }
}
