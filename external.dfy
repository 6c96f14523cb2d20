/** What the core receives from libraries it does not implement: the
    documents the RSS, JSON Feed and OPML parsers produce, and the
    collaborators (URI parsing, HTML decoding, HTTP, image inspection) that
    the core calls as black boxes. */
module External {
  import opened Models

  /** A parsed RSS or Atom document (the fields the core reads). */
  datatype RssFeed = RssFeed(
    title: Option<string>,
    link: Option<string>,
    description: Option<string>,
    language: Option<string>,
    imageUrl: Option<string>,
    lastUpdatedDate: Option<DateTime>,
    lastUpdatedDateString: Option<string>,
    items: seq<RssFeedItem>)

  datatype RssFeedItem = RssFeedItem(
    id: Option<string>,
    title: Option<string>,
    link: Option<string>,
    description: Option<string>,
    publishingDate: Option<DateTime>,
    author: Option<string>,
    content: Option<string>)

  /** A date with its UTC offset; `dateTime` is its clock time. */
  datatype DateTimeOffset = DateTimeOffset(dateTime: DateTime, offsetMinutes: int)

  datatype JsonFeedAuthor = JsonFeedAuthor(name: Option<string>, url: Option<string>, avatar: Option<string>)

  /** A parsed JSON Feed 1.1 document: the top-level fields. */
  datatype JsonFeed = JsonFeed(
    version: Option<string>,
    title: Option<string>,
    homePageUrl: Option<string>,
    feedUrl: Option<string>,
    description: Option<string>,
    icon: Option<string>,
    favicon: Option<string>,
    language: Option<string>,
    items: seq<JsonFeedItem>)

  /** One item of a JSON Feed 1.1 document. */
  datatype JsonFeedItem = JsonFeedItem(
    id: Option<string>,
    url: Option<string>,
    title: Option<string>,
    contentHtml: Option<string>,
    contentText: Option<string>,
    summary: Option<string>,
    image: Option<string>,
    datePublished: Option<DateTimeOffset>,
    dateModified: Option<DateTimeOffset>,
    authors: Option<seq<JsonFeedAuthor>>)

  /** An OPML outline element; `parent` is the enclosing outline, if any. */
  datatype Outline = Outline(
    title: Option<string>,
    xmlUrl: Option<string>,
    htmlUrl: Option<string>,
    description: Option<string>,
    language: Option<string>,
    parent: Option<Outline>)

  /** The black-box collaborators, as total functions. A fetch or parse that
      throws in the source yields `None` here. */
  datatype Env = Env(
    parseUri: string -> Option<Uri>,        // `new Uri(s)`, `Uri.TryCreate(s, UriKind.Absolute, ...)`
    htmlDecode: string -> string,            // `HttpUtility.HtmlDecode`
    isValidImage: Bytes -> bool,             // the `IsValidImage` extension on byte arrays
    fetchBytes: Uri -> Option<Bytes>,        // an HTTP GET of a byte array; None on failure or non-success status
    fetchString: Uri -> Option<string>,      // `HttpClient.GetStringAsync`
    parseRss: string -> Option<RssFeed>,     // `FeedReader.ReadFromString`
    parseJson: string -> Option<JsonFeed>,   // `JsonFeed.Parse`
    placeholder: Bytes)                      // the bundled placeholder icon
}
