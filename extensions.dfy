/** Tools/FeedListItemExtensions.cs: mapping parsed RSS, JSON Feed and OPML
    documents onto feed sources and entries, updating an existing source in
    place, and the ordered fallback chain that finds an image for a source. */
module FeedExtensions {
  import opened Models
  import opened External

  // ---------------------------------------------------------------------
  // Favicons and the image fallback chain
  // ---------------------------------------------------------------------

  /** The address of a site's favicon: `scheme://host/favicon.ico`. */
  function FaviconAddress(u: Uri): string {
    u.scheme + "://" + u.host + "/favicon.ico"
  }

  /** The favicon address depends on the scheme and the host alone: the
      port, the path and the query of the URI are dropped. */
  lemma FaviconAddressDropsPortAndPath(u: Uri, port: Option<nat>, pathAndQuery: string)
    ensures FaviconAddress(u.(port := port, pathAndQuery := pathAndQuery)) == FaviconAddress(u)
    ensures FaviconAddress(u)[..|u.scheme|] == u.scheme
    ensures FaviconAddress(u)[|u.scheme|..|u.scheme| + 3] == "://"
    ensures FaviconAddress(u)[|u.scheme| + 3..|u.scheme| + 3 + |u.host|] == u.host
    ensures FaviconAddress(u)[|FaviconAddress(u)| - 12..] == "/favicon.ico"
  {
  }

  /** The favicon request of `GetFaviconFromUriAsync(Uri)`: `None` when the
      favicon address does not parse (the `Uri` constructor throws). */
  function FaviconOf(env: Env, uri: Option<Uri>): Option<Uri> {
    if uri.None? then None else env.parseUri(FaviconAddress(uri.value))
  }

  /** The favicon request for the first entry's link, when the entry list is
      non-empty, that entry has a link, and the link parses. */
  function FirstLinkFavicon(env: Env, items: seq<FeedItem>): Option<Uri> {
    if |items| > 0 && items[0].link.Some? then FaviconOf(env, env.parseUri(items[0].link.value))
    else None
  }

  /** A byte download: `None` when there is nothing to fetch or the fetch
      fails (an exception or a non-success status). */
  function Fetch(env: Env, target: Option<Uri>): Option<Bytes> {
    if target.None? then None else env.fetchBytes(target.value)
  }

  /** One fallback step: kept when `current` is already a valid image,
      otherwise replaced by whatever a successful fetch of `target` returns. */
  function Step(env: Env, current: Bytes, target: Option<Uri>): Bytes {
    if env.isValidImage(current) then current
    else Fetch(env, target).GetOr(current)
  }

  /** The bytes `GetImageForItem` stores: the direct image, then the feed
      host's favicon, then the favicon of the first entry's link host, then
      the placeholder. */
  function ResolveImage(env: Env, imageUri: Option<Uri>, uri: Option<Uri>, items: seq<FeedItem>): Bytes {
    var direct := Fetch(env, imageUri).GetOr([]);
    var site := Step(env, direct, FaviconOf(env, uri));
    var entry := Step(env, site, FirstLinkFavicon(env, items));
    if env.isValidImage(entry) then entry else env.placeholder
  }

  /** The downloads the chain may try, in order; `None` for a step with
      nothing to fetch or whose fetch fails. */
  function Candidates(env: Env, imageUri: Option<Uri>, uri: Option<Uri>, items: seq<FeedItem>): seq<Option<Bytes>> {
    [Fetch(env, imageUri), Fetch(env, FaviconOf(env, uri)), Fetch(env, FirstLinkFavicon(env, items))]
  }

  /** The first download that is a valid image. */
  function FirstValid(env: Env, candidates: seq<Option<Bytes>>): (r: Option<Bytes>)
    ensures r.Some? ==> env.isValidImage(r.value) && r in candidates
    ensures r.None? <==> forall i :: 0 <= i < |candidates| && candidates[i].Some? ==> !env.isValidImage(candidates[i].value)
  {
    if candidates == [] then None
    else if candidates[0].Some? && env.isValidImage(candidates[0].value) then candidates[0]
    else FirstValid(env, candidates[1..])
  }

  /** The stored image is a valid one, or exactly the placeholder. */
  lemma ResolveImageIsValidOrPlaceholder(env: Env, imageUri: Option<Uri>, uri: Option<Uri>, items: seq<FeedItem>)
    ensures var r := ResolveImage(env, imageUri, uri, items);
      env.isValidImage(r) || r == env.placeholder
  {
  }

  /** When an empty download is not a valid image, the chain stores the
      first valid download in the order direct image, site favicon, entry
      favicon, and the placeholder when there is none: a valid download is
      never replaced by a later step. */
  lemma ResolveImageIsFirstValid(env: Env, imageUri: Option<Uri>, uri: Option<Uri>, items: seq<FeedItem>)
    requires !env.isValidImage([])
    ensures ResolveImage(env, imageUri, uri, items) ==
      FirstValid(env, Candidates(env, imageUri, uri, items)).GetOr(env.placeholder)
  {
    var c := Candidates(env, imageUri, uri, items);
    assert c[1..] == [c[1], c[2]];
    assert c[1..][1..] == [c[2]];
    assert c[1..][1..][1..] == [];
  }

  /** A source whose direct image fails, whose host serves a valid favicon
      and which has no entries gets that favicon, not the placeholder. */
  lemma FaviconBeatsPlaceholder(env: Env, imageUri: Option<Uri>, uri: Uri)
    requires !env.isValidImage([])
    requires Fetch(env, imageUri).None? || !env.isValidImage(Fetch(env, imageUri).value)
    requires Fetch(env, FaviconOf(env, Some(uri))).Some?
    requires env.isValidImage(Fetch(env, FaviconOf(env, Some(uri))).value)
    ensures ResolveImage(env, imageUri, Some(uri), []) == Fetch(env, FaviconOf(env, Some(uri))).value
  {
    ResolveImageIsFirstValid(env, imageUri, Some(uri), []);
  }

  /** When none of the three downloads succeeds, the placeholder is stored. */
  lemma UnreachableGivesPlaceholder(env: Env, imageUri: Option<Uri>, uri: Option<Uri>, items: seq<FeedItem>)
    requires !env.isValidImage([])
    requires forall c :: c in Candidates(env, imageUri, uri, items) ==> c.None?
    ensures ResolveImage(env, imageUri, uri, items) == env.placeholder
  {
    ResolveImageIsFirstValid(env, imageUri, uri, items);
  }

  /** `GetImageForItem`: runs the fallback chain with the local download
      reassigned step by step, then stores the outcome as the image cache.
      A failed download is swallowed and leaves the current download as it
      was. */
  method GetImageForItem(env: Env, item: FeedListItem, items: seq<FeedItem>)
    modifies item
    ensures item.Value() == old(item.Value()).(imageCache := Some(ResolveImage(env, old(item.imageUri), old(item.uri), items)))
  {
    var imageDownload: Bytes := [];
    if item.imageUri.Some? {
      var fetched := env.fetchBytes(item.imageUri.value);
      if fetched.Some? {
        imageDownload := fetched.value;
      }
    }
    if !env.isValidImage(imageDownload) && item.uri.Some? {
      var favicon := env.parseUri(FaviconAddress(item.uri.value));
      if favicon.Some? {
        var fetched := env.fetchBytes(favicon.value);
        if fetched.Some? {
          imageDownload := fetched.value;
        }
      }
    }
    if !env.isValidImage(imageDownload) && |items| > 0 && items[0].link.Some? {
      var link := env.parseUri(items[0].link.value);
      if link.Some? {
        var favicon := env.parseUri(FaviconAddress(link.value));
        if favicon.Some? {
          var fetched := env.fetchBytes(favicon.value);
          if fetched.Some? {
            imageDownload := fetched.value;
          }
        }
      }
    }
    if !env.isValidImage(imageDownload) {
      imageDownload := env.placeholder;
    }
    item.imageCache := Some(imageDownload);
  }

  /** The check both format adapters make before running the chain:
      `!feedItem.ImageCache?.IsValidImage() ?? true`, that is, no cached image
      or one that is not a valid image. */
  predicate NeedsImage(env: Env, cache: Option<Bytes>) {
    cache.None? || !env.isValidImage(cache.value)
  }

  /** A source after the adapters' conditional image step. */
  function WithImage(env: Env, v: FeedListItemRow, items: seq<FeedItem>): (r: FeedListItemRow)
    ensures r.imageCache.Some?
    ensures !NeedsImage(env, v.imageCache) ==> r == v
    ensures NeedsImage(env, v.imageCache) ==>
      r == v.(imageCache := Some(ResolveImage(env, v.imageUri, v.uri, items)))
  {
    if NeedsImage(env, v.imageCache) then v.(imageCache := Some(ResolveImage(env, v.imageUri, v.uri, items)))
    else v
  }

  /** What a format adapter's `ReadFeedAsync` leaves in the source object it
      was given, and what it returns: the mapped entries, or the error that
      propagated (the object keeps whatever was written before it). */
  datatype ReadOutcome = ReadOutcome(row: FeedListItemRow, result: Result<seq<FeedItem>>)

  // ---------------------------------------------------------------------
  // Mapping documents onto sources
  // ---------------------------------------------------------------------

  /** `string.IsNullOrEmpty(s) ? null : new Uri(s)`; the constructor throws
      on a string that does not parse. */
  function ImageUriFrom(env: Env, s: Option<string>): (r: Result<Option<Uri>>)
    ensures s.None? || s == Some("") ==> r == Ok(None)
    ensures s.Some? && s != Some("") ==>
      (r.Err? <==> env.parseUri(s.value).None?) &&
      (r.Ok? ==> r.value == env.parseUri(s.value) && r.value.Some?)
    ensures r.Err? ==> r.error == InvalidUri
  {
    if s.None? || s.value == "" then Ok(None)
    else
      match env.parseUri(s.value)
      case None => Err(InvalidUri)
      case Some(u) => Ok(Some(u))
  }

  /** `Outline.ToFeedListItem`: a new source from an OPML outline, filed in
      a new folder named after the parent outline when there is one. */
  function OutlineToFeedListItem(env: Env, feed: Outline): (r: Result<FeedListItemRow>)
    ensures r.Err? <==> feed.xmlUrl.Some? && env.parseUri(feed.xmlUrl.value).None?
    ensures r.Ok? ==>
      && r.value.id == 0 && r.value.feedType == Unknown && r.value.imageUri.None? && r.value.imageCache.None?
      && r.value.folderId.None?
      && r.value.uri == (if feed.xmlUrl.Some? then env.parseUri(feed.xmlUrl.value) else None)
      && r.value.name == feed.title && r.value.link == feed.htmlUrl
      && r.value.description == feed.description && r.value.language == feed.language
      && (r.value.folder.Some? <==> feed.parent.Some?)
      && (feed.parent.Some? ==> r.value.folder == Some(FeedFolder(0, feed.parent.value.title)))
  {
    var uri := if feed.xmlUrl.Some? then env.parseUri(feed.xmlUrl.value) else None;
    if feed.xmlUrl.Some? && uri.None? then Err(InvalidUri)
    else
      var folder := if feed.parent.Some? then Some(FeedFolder(0, feed.parent.value.title)) else None;
      Ok(NewFeedListItem.(name := feed.title, uri := uri, link := feed.htmlUrl,
                          description := feed.description, language := feed.language, folder := folder))
  }

  /** `Feed.ToFeedListItem(feedUri)`: a new RSS source from a parsed feed
      and the address it was read from. */
  function RssToFeedListItem(env: Env, feed: RssFeed, feedUri: string): (r: Result<FeedListItemRow>)
    ensures r.Err? <==> env.parseUri(feedUri).None? || ImageUriFrom(env, feed.imageUrl).Err?
    ensures r.Ok? ==>
      && r.value.id == 0 && r.value.feedType == Rss && r.value.imageCache.None?
      && r.value.folderId.None? && r.value.folder.None?
      && r.value.uri == env.parseUri(feedUri) && r.value.uri.Some?
      && r.value.imageUri == ImageUriFrom(env, feed.imageUrl).value
      && r.value.name == feed.title && r.value.link == feed.link
      && r.value.description == feed.description && r.value.language == feed.language
      && r.value.lastUpdatedDate == feed.lastUpdatedDate
      && r.value.lastUpdatedDateString == feed.lastUpdatedDateString
  {
    match env.parseUri(feedUri)
    case None => Err(InvalidUri)
    case Some(uri) =>
      match ImageUriFrom(env, feed.imageUrl)
      case Err(e) => Err(e)
      case Ok(image) =>
        Ok(NewFeedListItem.(name := feed.title, uri := Some(uri), link := feed.link, imageUri := image,
                            description := feed.description, language := feed.language,
                            lastUpdatedDate := feed.lastUpdatedDate,
                            lastUpdatedDateString := feed.lastUpdatedDateString, feedType := Rss))
  }

  // ---------------------------------------------------------------------
  // Updating a source in place
  // ---------------------------------------------------------------------

  /** A source's value after an in-place update, and the error that cut the
      update short, if any (the fields assigned before it stay assigned). */
  datatype Updated = Updated(row: FeedListItemRow, error: Option<FeedError>)

  /** The effect of `Feed.Update(oldItem)`. */
  function RssUpdate(env: Env, feed: RssFeed, v: FeedListItemRow): Updated {
    var named := v.(name := feed.title, link := feed.link);
    match ImageUriFrom(env, feed.imageUrl)
    case Err(e) => Updated(named, Some(e))
    case Ok(image) =>
      Updated(named.(imageUri := image, description := feed.description, language := feed.language,
                     lastUpdatedDate := feed.lastUpdatedDate, feedType := Rss), None)
  }

  /** The effect of `JsonFeed.Update(oldItem)`. */
  function JsonUpdate(env: Env, feed: JsonFeed, v: FeedListItemRow): Updated {
    var named := v.(name := feed.title, link := feed.homePageUrl);
    match ImageUriFrom(env, feed.icon)
    case Err(e) => Updated(named, Some(e))
    case Ok(image) =>
      Updated(named.(imageUri := image, description := feed.description, language := feed.language,
                     feedType := Json), None)
  }

  /** The RSS update overwrites the display fields and marks the source as
      RSS; it never touches the id, the feed address, the folder, the image
      cache or the date string. It fails exactly when the image address does
      not parse, and then only the name and link have been written. */
  lemma RssUpdateKeepsIdentity(env: Env, feed: RssFeed, v: FeedListItemRow)
    ensures var u := RssUpdate(env, feed, v);
      && u.row.id == v.id && u.row.uri == v.uri && u.row.folderId == v.folderId && u.row.folder == v.folder
      && u.row.imageCache == v.imageCache && u.row.lastUpdatedDateString == v.lastUpdatedDateString
      && u.row.name == feed.title && u.row.link == feed.link
      && (u.error.Some? <==> ImageUriFrom(env, feed.imageUrl).Err?)
      && (u.error.Some? ==> u.row == v.(name := feed.title, link := feed.link))
      && (u.error.None? ==>
            && u.row.imageUri == ImageUriFrom(env, feed.imageUrl).value
            && u.row.description == feed.description && u.row.language == feed.language
            && u.row.lastUpdatedDate == feed.lastUpdatedDate && u.row.feedType == Rss)
  {
  }

  /** Updating a source gives it the display fields a freshly mapped source
      would get, with its own identity, folder, image cache and date string. */
  lemma RssUpdateAgreesWithMapping(env: Env, feed: RssFeed, feedUri: string, v: FeedListItemRow)
    requires RssToFeedListItem(env, feed, feedUri).Ok?
    ensures var mapped := RssToFeedListItem(env, feed, feedUri).value;
      && RssUpdate(env, feed, v).error.None?
      && RssUpdate(env, feed, v).row ==
           mapped.(id := v.id, uri := v.uri, imageCache := v.imageCache, folderId := v.folderId,
                  folder := v.folder, lastUpdatedDateString := v.lastUpdatedDateString)
  {
  }

  /** The JSON Feed update overwrites name, link (from the home page
      address), image (from the icon), description and language and marks the
      source as JSON Feed; it leaves the id, feed address, folder, image cache
      and both last-updated fields alone. */
  lemma JsonUpdateKeepsIdentity(env: Env, feed: JsonFeed, v: FeedListItemRow)
    ensures var u := JsonUpdate(env, feed, v);
      && u.row.id == v.id && u.row.uri == v.uri && u.row.folderId == v.folderId && u.row.folder == v.folder
      && u.row.imageCache == v.imageCache && u.row.lastUpdatedDate == v.lastUpdatedDate
      && u.row.lastUpdatedDateString == v.lastUpdatedDateString
      && u.row.name == feed.title && u.row.link == feed.homePageUrl
      && (u.error.Some? <==> ImageUriFrom(env, feed.icon).Err?)
      && (u.error.Some? ==> u.row == v.(name := feed.title, link := feed.homePageUrl))
      && (u.error.None? ==>
            && u.row.imageUri == ImageUriFrom(env, feed.icon).value
            && u.row.description == feed.description && u.row.language == feed.language
            && u.row.feedType == Json)
  {
  }

  /** `Feed.Update(oldItem)`: assigns the fields of `oldItem` one by one and
      returns the same object. */
  method UpdateFromRss(env: Env, feed: RssFeed, oldItem: FeedListItem) returns (r: Result<FeedListItem>)
    modifies oldItem
    ensures oldItem.Value() == RssUpdate(env, feed, old(oldItem.Value())).row
    ensures r.Err? <==> RssUpdate(env, feed, old(oldItem.Value())).error.Some?
    ensures r.Err? ==> r.error == RssUpdate(env, feed, old(oldItem.Value())).error.value
    ensures r.Ok? ==> r.value == oldItem
  {
    oldItem.name := feed.title;
    oldItem.link := feed.link;
    var image := ImageUriFrom(env, feed.imageUrl);
    if image.Err? {
      return Err(image.error);
    }
    oldItem.imageUri := image.value;
    oldItem.description := feed.description;
    oldItem.language := feed.language;
    oldItem.lastUpdatedDate := feed.lastUpdatedDate;
    oldItem.feedType := Rss;
    r := Ok(oldItem);
  }

  /** `JsonFeed.Update(oldItem)`: assigns the fields of `oldItem` one by one
      and returns the same object. */
  method UpdateFromJson(env: Env, feed: JsonFeed, oldItem: FeedListItem) returns (r: Result<FeedListItem>)
    modifies oldItem
    ensures oldItem.Value() == JsonUpdate(env, feed, old(oldItem.Value())).row
    ensures r.Err? <==> JsonUpdate(env, feed, old(oldItem.Value())).error.Some?
    ensures r.Err? ==> r.error == JsonUpdate(env, feed, old(oldItem.Value())).error.value
    ensures r.Ok? ==> r.value == oldItem
  {
    oldItem.name := feed.title;
    oldItem.link := feed.homePageUrl;
    var image := ImageUriFrom(env, feed.icon);
    if image.Err? {
      return Err(image.error);
    }
    oldItem.imageUri := image.value;
    oldItem.description := feed.description;
    oldItem.language := feed.language;
    oldItem.feedType := Json;
    r := Ok(oldItem);
  }

  // ---------------------------------------------------------------------
  // Mapping document items onto entries
  // ---------------------------------------------------------------------

  /** `FeedItem.ToFeedItem(feedListItem, imageUrl)` for an RSS item: the
      entry is not persisted yet (id 0), belongs to the source with id
      `feedListItemId` and carries the item's own identifier and fields. */
  function RssToFeedItem(item: RssFeedItem, feedListItemId: int, imageUrl: Option<string>): (r: FeedItem)
    ensures r.id == 0 && r.feedListItemId == feedListItemId && r.rssId == item.id
    ensures r.title == item.title && r.link == item.link && r.description == item.description
    ensures r.publishingDate == item.publishingDate && r.author == item.author && r.content == item.content
    ensures r.imageUrl == imageUrl
  {
    FeedItem(0, item.id, feedListItemId, item.title, item.link, item.description,
             item.publishingDate, item.author, item.content, imageUrl)
  }

  /** `string.Join(separator, parts)` */
  function Join(separator: string, parts: seq<string>): string {
    if |parts| == 0 then ""
    else if |parts| == 1 then parts[0]
    else Join(separator, parts[..|parts| - 1]) + separator + parts[|parts| - 1]
  }

  /** The summed length of some strings. */
  function TotalLength(parts: seq<string>): nat {
    if |parts| == 0 then 0 else TotalLength(parts[..|parts| - 1]) + |parts[|parts| - 1]|
  }

  /** A join holds every part and one separator between each neighbouring
      pair: its length is the parts' length plus `|parts| - 1` separators. */
  lemma {:induction false} JoinLength(separator: string, parts: seq<string>)
    requires |parts| > 0
    ensures |Join(separator, parts)| == TotalLength(parts) + (|parts| - 1) * |separator|
  {
    if |parts| > 1 {
      var init := parts[..|parts| - 1];
      var last := parts[|parts| - 1];
      JoinLength(separator, init);
      var k := |separator|;
      var m := |init| - 1;
      assert |Join(separator, parts)| == |Join(separator, init)| + k + |last|;
      assert TotalLength(parts) == TotalLength(init) + |last|;
      assert m * k + k == (m + 1) * k;
    }
  }

  /** `Join` agrees with the front-first reading of `string.Join`: the first
      part, the separator, then the join of the remaining parts. So every part
      appears in order, with one separator between each neighbouring pair. */
  lemma {:induction false} JoinFront(separator: string, parts: seq<string>)
    requires |parts| >= 2
    ensures Join(separator, parts) == parts[0] + separator + Join(separator, parts[1..])
  {
    if |parts| > 2 {
      var init := parts[..|parts| - 1];
      JoinFront(separator, init);
      assert init[1..] == parts[1..][..|parts[1..]| - 1];
      assert init[0] == parts[0];
    } else {
      assert parts[1..] == [parts[1]];
    }
  }

  /** `item.Authors.Select(n => n.Name)`: a missing name joins as "". */
  function AuthorNames(authors: seq<JsonFeedAuthor>): (names: seq<string>)
    ensures |names| == |authors|
    ensures forall i :: 0 <= i < |authors| ==> names[i] == authors[i].name.GetOr("")
  {
    seq(|authors|, i requires 0 <= i < |authors| => authors[i].name.GetOr(""))
  }

  /** `HttpUtility.HtmlDecode`, which maps null to null. */
  function Decode(env: Env, s: Option<string>): Option<string> {
    if s.None? then None else Some(env.htmlDecode(s.value))
  }

  /** `JsonFeedItem.ToFeedItem(feedListItem, imageUrl)`: the entry is not
      persisted yet (id 0) and belongs to the source with id
      `feedListItemId`; its title and content are HTML-decoded, the content
      is the HTML body or else the text body, the description is empty, the
      date falls back to `DateTime.MinValue`, and the author is the authors'
      names joined with ", " ("" when there are no authors). */
  function JsonToFeedItem(env: Env, item: JsonFeedItem, feedListItemId: int, imageUrl: Option<string>): (r: FeedItem)
    ensures r.id == 0 && r.feedListItemId == feedListItemId && r.rssId == item.id
    ensures r.title == Decode(env, item.title) && r.link == item.url
    ensures r.description == Some("")
    ensures item.datePublished.Some? ==> r.publishingDate == Some(item.datePublished.value.dateTime)
    ensures item.datePublished.None? ==> r.publishingDate == Some(MinValue)
    ensures item.authors.None? ==> r.author == Some("")
    ensures item.authors.Some? ==> r.author == Some(Join(", ", AuthorNames(item.authors.value)))
    ensures item.contentHtml.Some? ==> r.content == Some(env.htmlDecode(item.contentHtml.value))
    ensures item.contentHtml.None? ==> r.content == Decode(env, item.contentText)
    ensures r.imageUrl == imageUrl
  {
    var authors := if item.authors.None? then "" else Join(", ", AuthorNames(item.authors.value));
    var content := if item.contentHtml.Some? then item.contentHtml else item.contentText;
    var published := if item.datePublished.Some? then item.datePublished.value.dateTime else MinValue;
    FeedItem(0, item.id, feedListItemId, Decode(env, item.title), item.url, Some(""),
             Some(published), Some(authors), Decode(env, content), imageUrl)
  }
}
