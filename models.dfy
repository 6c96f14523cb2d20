/** The unified item model of the feed reader: settings, folders, feed
    sources and feed entries, and the small value types they are built from. */
module Models {

  datatype Option<+T> = None | Some(value: T) {
    /** `x ?? default` */
    function GetOr(default: T): T {
      if Some? then value else default
    }
  }

  /** Why a mapping or a read of a feed produced no result (the exception the
      source lets propagate). */
  datatype FeedError =
    | FetchFailed   // GetStringAsync failed (network error or non-success status)
    | ParseFailed   // the feed parser rejected the body
    | InvalidUri    // `new Uri(...)` rejected a string

  datatype Result<+T> = Ok(value: T) | Err(error: FeedError)

  newtype byte = x: int | 0 <= x < 256
  type Bytes = seq<byte>

  /** A `DateTime`, kept opaque; only `DateTime.MinValue` is distinguished. */
  datatype DateTime = DateTime(ticks: nat)

  const MinValue: DateTime := DateTime(0)

  /** An absolute URI, split into the parts the core reads or drops. */
  datatype Uri = Uri(scheme: string, host: string, port: Option<nat>, pathAndQuery: string)

  /** Models/FeedType.cs */
  datatype FeedType = Unknown | Rss | Json

  /** The theme and language enumerations of the UI library, by ordinal;
      ordinal 0 is the value a fresh `AppSettings` holds. */
  datatype AppTheme = AppTheme(ordinal: nat)
  datatype LanguageSetting = LanguageSetting(ordinal: nat)

  /** Models/AppSettings.cs; `id` is the auto-increment primary key. */
  datatype AppSettings = AppSettings(
    id: int,
    lastUpdated: Option<DateTime>,
    appTheme: AppTheme,
    languageSetting: LanguageSetting)

  /** `new AppSettings()` */
  const DefaultAppSettings: AppSettings :=
    AppSettings(0, None, AppTheme(0), LanguageSetting(0))

  /** Models/FeedFolder.cs; `id` is the auto-increment primary key. */
  datatype FeedFolder = FeedFolder(id: int, name: Option<string>)

  /** One article of a feed. `id` is the primary key (0 until inserted),
      `rssId` the identifier the feed format gives the article and
      `feedListItemId` the id of the owning feed source. */
  datatype FeedItem = FeedItem(
    id: int,
    rssId: Option<string>,
    feedListItemId: int,
    title: Option<string>,
    link: Option<string>,
    description: Option<string>,
    publishingDate: Option<DateTime>,
    author: Option<string>,
    content: Option<string>,
    imageUrl: Option<string>)

  /** The value of a feed source: every property of a `FeedListItem`.
      An `id` of 0 or less means the source was never persisted. */
  datatype FeedListItemRow = FeedListItemRow(
    id: int,
    uri: Option<Uri>,
    name: Option<string>,
    link: Option<string>,
    imageUri: Option<Uri>,
    imageCache: Option<Bytes>,
    description: Option<string>,
    language: Option<string>,
    lastUpdatedDate: Option<DateTime>,
    lastUpdatedDateString: Option<string>,
    feedType: FeedType,
    folderId: Option<int>,
    folder: Option<FeedFolder>)

  /** `new FeedListItem()`: every property at its default. */
  const NewFeedListItem: FeedListItemRow :=
    FeedListItemRow(0, None, None, None, None, None, None, None, None, None, Unknown, None, None)

  /** A subscribed feed, as the mutable object that the format adapters
      update in place, the image resolver fills in and the database service
      stamps with its id. */
  class FeedListItem {
    var id: int
    var uri: Option<Uri>
    var name: Option<string>
    var link: Option<string>
    var imageUri: Option<Uri>
    var imageCache: Option<Bytes>
    var description: Option<string>
    var language: Option<string>
    var lastUpdatedDate: Option<DateTime>
    var lastUpdatedDateString: Option<string>
    var feedType: FeedType
    var folderId: Option<int>
    var folder: Option<FeedFolder>

    /** The current value of every property. */
    function Value(): FeedListItemRow
      reads this
    {
      FeedListItemRow(id, uri, name, link, imageUri, imageCache, description, language,
                      lastUpdatedDate, lastUpdatedDateString, feedType, folderId, folder)
    }

    /** `new FeedListItem()` */
    constructor ()
      ensures Value() == NewFeedListItem
    {
      id, uri, name, link, imageUri, imageCache := 0, None, None, None, None, None;
      description, language, lastUpdatedDate, lastUpdatedDateString := None, None, None, None;
      feedType, folderId, folder := Unknown, None, None;
    }
  }
}
