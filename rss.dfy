/** Services/RssFeedService.cs: the RSS (and Atom) format adapter. It parses
    a feed body, updates the given source in place, maps every item onto an
    entry of that source, and looks for an image only when the source has no
    valid cached one. */
module RssService {
  import opened Models
  import opened External
  import opened FeedExtensions

  /** `ServiceType` */
  const ServiceType: FeedType := Rss

  /** `feed.Items.Select(n => n.ToFeedItem(feedItem))`, with the default
      image URL "". */
  function MapItems(items: seq<RssFeedItem>, feedListItemId: int): (entries: seq<FeedItem>)
    ensures |entries| == |items|
    ensures forall i :: 0 <= i < |items| ==> entries[i] == RssToFeedItem(items[i], feedListItemId, Some(""))
  {
    seq(|items|, i requires 0 <= i < |items| => RssToFeedItem(items[i], feedListItemId, Some("")))
  }

  /** The effect of `ReadFeedAsync(stringResponse, feedItem)` on a source
      whose value is `v`. */
  function ReadRss(env: Env, response: string, v: FeedListItemRow): ReadOutcome {
    match env.parseRss(response)
    case None => ReadOutcome(v, Err(ParseFailed))
    case Some(feed) =>
      var u := RssUpdate(env, feed, v);
      if u.error.Some? then ReadOutcome(u.row, Err(u.error.value))
      else
        var items := MapItems(feed.items, u.row.id);
        ReadOutcome(WithImage(env, u.row, items), Ok(items))
  }

  /** Reading keeps the source's identity (id, feed address, folder); it
      fails when the body does not parse, leaving the source untouched, or
      when the feed's image address does not parse. */
  lemma ReadRssKeepsIdentity(env: Env, response: string, v: FeedListItemRow)
    ensures var o := ReadRss(env, response, v);
      && o.row.id == v.id && o.row.uri == v.uri && o.row.folderId == v.folderId && o.row.folder == v.folder
      && (env.parseRss(response).None? ==> o == ReadOutcome(v, Err(ParseFailed)))
      && (env.parseRss(response).Some? ==>
            (o.result.Err? <==> ImageUriFrom(env, env.parseRss(response).value.imageUrl).Err?))
  {
    if env.parseRss(response).Some? {
      RssUpdateKeepsIdentity(env, env.parseRss(response).value, v);
    }
  }

  /** A successful read returns one entry per parsed item, in parse order,
      each a new entry of this source carrying the item's identifier; the
      source is marked with the adapter's own type, holds an image
      afterwards, and keeps a valid cached image unchanged. */
  lemma ReadRssMapsEveryItem(env: Env, response: string, v: FeedListItemRow)
    requires env.parseRss(response).Some?
    ensures var feed := env.parseRss(response).value;
      var o := ReadRss(env, response, v);
      o.result.Ok? ==>
        && |o.result.value| == |feed.items|
        && (forall i :: 0 <= i < |feed.items| ==>
              && o.result.value[i].feedListItemId == v.id && o.result.value[i].id == 0
              && o.result.value[i].rssId == feed.items[i].id && o.result.value[i].title == feed.items[i].title
              && o.result.value[i].link == feed.items[i].link)
        && o.row.feedType == ServiceType
        && o.row.imageCache.Some?
        && (!NeedsImage(env, v.imageCache) ==> o.row.imageCache == v.imageCache)
        && (NeedsImage(env, v.imageCache) ==>
              o.row.imageCache == Some(ResolveImage(env, o.row.imageUri, v.uri, o.result.value)))
  {
    RssUpdateKeepsIdentity(env, env.parseRss(response).value, v);
  }

  /** `ReadFeedAsync(stringResponse, feedItem)`: updates `feedItem` in place
      and returns that same object with the mapped entries. */
  method ReadFeed(env: Env, response: string, feedItem: FeedListItem) returns (source: FeedListItem, items: Result<seq<FeedItem>>)
    modifies feedItem
    ensures source == feedItem
    ensures feedItem.Value() == ReadRss(env, response, old(feedItem.Value())).row
    ensures items == ReadRss(env, response, old(feedItem.Value())).result
  {
    source := feedItem;
    var feed := env.parseRss(response);
    if feed.None? {
      return source, Err(ParseFailed);
    }
    var updated := UpdateFromRss(env, feed.value, feedItem);
    if updated.Err? {
      return source, Err(updated.error);
    }
    var entries := MapItems(feed.value.items, feedItem.id);
    if NeedsImage(env, feedItem.imageCache) {
      GetImageForItem(env, feedItem, entries);
    }
    items := Ok(entries);
  }

  /** `ReadFeedAsync(feedUri, feedItem)`: downloads the body (a failure
      propagates, and nothing is read) and reads it into `feedItem`, or into
      a new source whose address is `feedUri` when none is given. */
  method ReadFeedFromUri(env: Env, feedUri: Uri, feedItem: FeedListItem?) returns (source: FeedListItem?, items: Result<seq<FeedItem>>)
    modifies feedItem
    ensures env.fetchString(feedUri).None? ==>
      && source == null && items == Err(FetchFailed)
      && (feedItem != null ==> feedItem.Value() == old(feedItem.Value()))
    ensures env.fetchString(feedUri).Some? ==>
      var start := if feedItem == null then NewFeedListItem.(uri := Some(feedUri)) else old(feedItem.Value());
      var o := ReadRss(env, env.fetchString(feedUri).value, start);
      && source != null && source.Value() == o.row && items == o.result
      && (feedItem != null ==> source == feedItem)
      && (feedItem == null ==> fresh(source))
  {
    var body := env.fetchString(feedUri);
    if body.None? {
      return null, Err(FetchFailed);
    }
    var target: FeedListItem;
    if feedItem == null {
      target := new FeedListItem();
      target.uri := Some(feedUri);
    } else {
      target := feedItem;
    }
    var read: FeedListItem;
    read, items := ReadFeed(env, body.value, target);
    source := read;
  }
}
