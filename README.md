# MackerelFeed core, modelled in Dafny

MackerelFeed is a feed reader. This project models three parts of its core and proves properties of them.

- **The persistence service** (`DatabaseService`) has four tables: settings, feed sources (`FeedListItem`), feed entries (`FeedItem`) and folders.
  - An initialization gate, the `isInitialized` flag, makes every operation except `InitializeAsync` and `DropTablesAsync` a soft no-op. The flag is set only when every table reports Created or Migrated.
  - Upserting a source gives it an id and links its entries to it.
  - The entry batch upsert is all-or-nothing on the missing-parent check. It returns the number of writes that affected a row. When two entries name the same row, or an update overwrites a row the same batch inserted, that number exceeds the number of distinct rows written.
  - The settings row is a singleton, created lazily.
- **The mapping extensions** (`FeedListItemExtensions`):
  - they map parsed RSS, JSON Feed 1.1 and OPML documents onto sources and entries;
  - they update an existing source in place;
  - they run the ordered image fallback chain: the direct image, the feed host's favicon, the favicon of the first entry's link host, then the placeholder.
- **The two format adapters** (`RssFeedService`, `JsonFeedService`). Each one:
  1. parses a body;
  2. updates the given source in place;
  3. maps the items onto entries of that source;
  4. looks for an image only when the source has no valid cached one.

Layout:

- `models.dfy` (module `Models`):
  - the records: settings, folder, source, entry;
  - `FeedListItem` as a class, because the core mutates it in place;
  - the `Option` and `Result` types.
- `external.dfy` (module `External`):
  - the parsed documents that the parsers (not modelled) hand to the core;
  - `Env`, which holds the collaborators as uninterpreted functions: URI parsing, HTML decoding, `IsValidImage`, the two HTTP downloads, the two parsers and the placeholder icon.
- `storage.dfy` (module `Storage`):
  - SQLite tables as maps from an auto-increment primary key to a row;
  - insert under the next key, update by key with an affected-row count, and scans in ascending key order.
- `database.dfy` (module `Database`):
  - the `DatabaseService` class;
  - the functions that specify its operations, and the lemmas about them.
- `extensions.dfy` (module `FeedExtensions`), `rss.dfy` (module `RssService`) and `json.dfy` (module `JsonService`).

Two kinds of operation:

- Operations that change state are methods. Each has an `ensures` that ties the new state to a specification function of the old state.
- The lemmas state the promised properties about those functions.

These functions are the specifications of the listed methods and have no row of their own; the lemmas about them do:

- `Database.WriteSource`, `Database.InsertPass`, `Database.UpdatePass`, `Database.UpsertBatch`, `Database.UpsertSource` and `Database.ReadSettings`;
- `FeedExtensions.ResolveImage`, `FeedExtensions.RssUpdate` and `FeedExtensions.JsonUpdate`;
- `RssService.ReadRss` and `JsonService.ReadJson`.

`Database.LazyFilterCount` is the row count as the source computes it when the lazy filter sees the ids the inserts wrote back. The lemmas in "## Findings" state what it is. The counting helpers `Database.CountNew` and `Database.Hits`, and the lemmas `Database.HitsOfInserted`, `Database.CountNewAllNew` and `Database.CountNewAllKnown` about them, serve the batch proofs and model no source line of their own.

Three facts about the code that the contracts reflect:

- The JSON update leaves `LastUpdatedDate` unchanged (src/MackerelFeed.Core/Tools/FeedListItemExtensions.cs:161-170).
- The URI overloads of `ReadFeedAsync` do not catch a failed body download (src/MackerelFeed.Core/Services/RssFeedService.cs:56).
- The batch's row count counts the writes that affected a row (src/MackerelFeed.Core/Services/DatabaseService.cs:265).

## Model

| member | source | states |
|---|---|---|
| Storage.Table.Insert | src/MackerelFeed.Core/Services/DatabaseService.cs:211 | `InsertAsync` (also at :261 and :292) stores the row under a fresh auto-increment key that no row had, and leaves every other row as it was |
| Storage.Table.Update | src/MackerelFeed.Core/Services/DatabaseService.cs:215 | `UpdateAsync` (also at :262 and :320) affects 1 row and overwrites it when the key exists; otherwise it affects 0 rows and leaves the table unchanged; the key set never changes |
| Storage.ScanExactly | src/MackerelFeed.Core/Services/DatabaseService.cs:111 | a filtered scan returns exactly the stored rows that pass the filter |
| Storage.FirstOrDefaultIsLeast | src/MackerelFeed.Core/Services/DatabaseService.cs:152 | `FirstOrDefaultAsync(p)` is null iff no row passes `p`; otherwise it is the passing row with the least key |
| Models.FeedListItem.constructor | src/MackerelFeed.Core/Services/RssFeedService.cs:57 | `new FeedListItem()` has every property at its default: id 0, no address, type Unknown |
| Database.DatabaseService.constructor | src/MackerelFeed.Core/Services/DatabaseService.cs:26-38 | a new service is uninitialized over the file's existing tables, with nothing reported |
| Database.DatabaseService.Initialize | src/MackerelFeed.Core/Services/DatabaseService.cs:82-87 | the service becomes, and reports, initialized iff every table result is Created or Migrated (so an empty result list also gives true); the tables are unchanged |
| Database.DatabaseService.DropTables | src/MackerelFeed.Core/Services/DatabaseService.cs:93-100 | all four tables are empty and the service is uninitialized again |
| Database.DatabaseService.GetFeedListItems | src/MackerelFeed.Core/Services/DatabaseService.cs:102-118 | empty while uninitialized; otherwise every stored source, in id order, and nothing else |
| Database.DatabaseService.GetUnsortedFeedListItems | src/MackerelFeed.Core/Services/DatabaseService.cs:120-136 | empty while uninitialized; otherwise exactly the stored sources with no folder id |
| Database.DatabaseService.GetFeedListItemByUri | src/MackerelFeed.Core/Services/DatabaseService.cs:138-159 | null while uninitialized or when the string is not an absolute URI; otherwise the least-id source with that URI, null iff there is none |
| Database.DatabaseService.GetFeedListItemById | src/MackerelFeed.Core/Services/DatabaseService.cs:161-177 | null while uninitialized; otherwise the row stored under that id, null iff there is none |
| Database.DatabaseService.GetFeedItems | src/MackerelFeed.Core/Services/DatabaseService.cs:179-195 | empty while uninitialized; otherwise the scan of the entries with that source id, which holds exactly those entries |
| Database.DatabaseService.UpsertFeedListItem | src/MackerelFeed.Core/Services/DatabaseService.cs:197-239 | 0 and nothing changed while uninitialized; otherwise the store, the source object, the caller's entry list and the row count are those of `UpsertSource` |
| Database.StampEntries | src/MackerelFeed.Core/Services/DatabaseService.cs:221-225 | the loop overwrites every entry's source id and changes nothing else in the list |
| Database.DatabaseService.UpsertFeedItems | src/MackerelFeed.Core/Services/DatabaseService.cs:241-273 | 0 and nothing changed while uninitialized; a batch with a missing parent writes nothing, logs the error and returns 0; otherwise the table, the caller's list and the count are those of `UpsertBatch`, and no other table changes |
| Database.InsertEntries | src/MackerelFeed.Core/Services/DatabaseService.cs:258-261 | the insert loop computes `InsertPass`: it writes the new ids back into the caller's list |
| Database.UpdateEntries | src/MackerelFeed.Core/Services/DatabaseService.cs:259-262 | the update loop computes `UpdatePass` |
| Database.WriteSourceInsertsOrUpdates | src/MackerelFeed.Core/Services/DatabaseService.cs:209-218 | id <= 0: inserted under a fresh id, written into the object, counted 1; id > 0: written over that row with the id kept, counted iff the row exists; the object's id is positive afterwards |
| Database.Stamp | src/MackerelFeed.Core/Services/DatabaseService.cs:222-225 | every entry gets the source id; with a positive id the batch can no longer fail the parent check |
| Database.InsertPassKeepsTable | src/MackerelFeed.Core/Services/DatabaseService.cs:258-261 | inserts keep every old row and add exactly one fresh key per entry without an id |
| Database.InsertPassWritesIds | src/MackerelFeed.Core/Services/DatabaseService.cs:258-261 | an entry with an id is untouched; every other entry gets a fresh key, is stored under it, and is otherwise unchanged |
| Database.InsertPassIdsIncrease | src/MackerelFeed.Core/Services/DatabaseService.cs:261 | in the model's sequential insert order, inserted entries get increasing ids in list order; the source gives no such order |
| Database.UpdatePassCountsHits | src/MackerelFeed.Core/Services/DatabaseService.cs:259-262 | updates keep the key set; they count at most one per entry with an id, and exactly one each when all those ids have rows |
| Database.UpdatePassCountsKeys | src/MackerelFeed.Core/Services/DatabaseService.cs:262-265 | the update count is exactly the number of entries whose positive id has a row |
| Database.UpsertBatchCounts | src/MackerelFeed.Core/Services/DatabaseService.cs:258-265 | the count lies between the number of inserts and the batch size, and equals the batch size when every id is known; keys only grow, and do not change at all when nothing is inserted; an old row no entry names keeps its contents, and an old row that entries name holds the last of them |
| Database.UpsertCountsWritesNotRows | src/MackerelFeed.Core/Services/DatabaseService.cs:258-265 | the returned count is the number of writes that affected a row: on an empty table, entries with ids [0, 1] count 2 but leave one row, holding the second entry |
| Database.UpdatePassKeepsUnnamed | src/MackerelFeed.Core/Services/DatabaseService.cs:259-262 | a row whose key no entry of the batch names keeps its contents through the updates |
| Database.UpdatePassWritesLast | src/MackerelFeed.Core/Services/DatabaseService.cs:259-262 | a row whose key an entry with a positive id names holds, after the updates, the last entry that names it |
| Database.UpsertSourceLinksEntries | src/MackerelFeed.Core/Services/DatabaseService.cs:209-228 | the source gets a positive id (fresh iff it had none), every entry carries it before the batch write, the batch passes the parent check, the count is at most 1 + entries, and settings and folders are untouched |
| Database.ReupsertAddsNoRows | src/MackerelFeed.Core/Services/DatabaseService.cs:197-265 | a new source with n new entries counts 1 + n rows; upserting them again as the first call left them also counts 1 + n, and keeps every id and key set |
| Database.ReadSettingsCreatesLazily | src/MackerelFeed.Core/Services/DatabaseService.cs:288-295 | a default row is inserted only into an empty table; the returned row is stored, has a positive id, and is the least-id row |
| Database.SecondReadIsSameRow | src/MackerelFeed.Core/Services/DatabaseService.cs:288-295 | a second settings read returns the same row and inserts nothing |
| Database.UpdatedSettingsAreRead | src/MackerelFeed.Core/Services/DatabaseService.cs:320-327 | updating the row that was read affects one row, and the next read returns the updated row |
| Database.DatabaseService.GetAppSettings | src/MackerelFeed.Core/Services/DatabaseService.cs:279-302 | null while uninitialized; otherwise the row and the table of `ReadSettings` |
| Database.DatabaseService.UpdateAppSettings | src/MackerelFeed.Core/Services/DatabaseService.cs:309-328 | false while uninitialized; otherwise true iff a row with that id exists, which is then overwritten |
| Database.SettingsRoundTrip | src/MackerelFeed.Tests/DatabaseTests.cs:24-49 | a fresh service is uninitialized; the first read has id > 0, the update succeeds, and the next read has the same id and the new theme and language |
| Database.LazyFilterCountsInsertsTwice | src/MackerelFeed.Core/Services/DatabaseService.cs:258-265 | with the lazy update filter evaluated after the inserts, the count is the intended count plus one per insert |
| Database.LazyFilterExceedsBatch | src/MackerelFeed.Core/Services/DatabaseService.cs:258-265 | one new entry into an empty table: the lazy count is 2, the intended count is 1 |
| FeedExtensions.FaviconAddressDropsPortAndPath | src/MackerelFeed.Core/Tools/FeedListItemExtensions.cs:207 | the favicon address is `scheme` + "://" + `host` + "/favicon.ico"; port, path and query do not affect it |
| FeedExtensions.ResolveImageIsValidOrPlaceholder | src/MackerelFeed.Core/Tools/FeedListItemExtensions.cs:65-70 | the stored image passes `IsValidImage` or is exactly the placeholder |
| FeedExtensions.ResolveImageIsFirstValid | src/MackerelFeed.Core/Tools/FeedListItemExtensions.cs:26-70 | the stored image is the first valid download among direct image, site favicon and entry-link favicon, else the placeholder; a valid step is never overridden |
| FeedExtensions.FaviconBeatsPlaceholder | src/MackerelFeed.Core/Tools/FeedListItemExtensions.cs:39-50 | a failed direct image, a valid host favicon and no entries give the favicon, not the placeholder |
| FeedExtensions.UnreachableGivesPlaceholder | src/MackerelFeed.Core/Tools/FeedListItemExtensions.cs:26-68 | when all three downloads fail, exactly the placeholder is stored |
| FeedExtensions.GetImageForItem | src/MackerelFeed.Core/Tools/FeedListItemExtensions.cs:24-71 | the image cache is set to what `ResolveImage` gives, and no other field changes; failed downloads are swallowed |
| FeedExtensions.WithImage | src/MackerelFeed.Core/Services/RssFeedService.cs:45-48 | the chain runs iff the cache is null or invalid; afterwards the cache is non-null; a valid cache is left as it was |
| FeedExtensions.ImageUriFrom | src/MackerelFeed.Core/Tools/FeedListItemExtensions.cs:147 | null or "" gives no image URI; any other string gives its parse, and an invalid URI error iff it does not parse |
| FeedExtensions.OutlineToFeedListItem | src/MackerelFeed.Core/Tools/FeedListItemExtensions.cs:78-90 | a new source with the outline's title, address, link, description and language; it has a new folder named after the parent iff there is a parent; it fails iff the address does not parse |
| FeedExtensions.RssToFeedListItem | src/MackerelFeed.Core/Tools/FeedListItemExtensions.cs:98-112 | a new RSS source at the parsed feed address with the feed's display and date fields; it fails iff the feed address or the image address does not parse |
| FeedExtensions.RssUpdateKeepsIdentity | src/MackerelFeed.Core/Tools/FeedListItemExtensions.cs:143-153 | overwrites name, link, image, description, language and date, and sets type Rss; id, address, folder, cache and date string are kept; a bad image address stops the update after name and link |
| FeedExtensions.RssUpdateAgreesWithMapping | src/MackerelFeed.Core/Tools/FeedListItemExtensions.cs:98-153 | an updated source has the display fields a freshly mapped one would get, with its own identity, folder, cache and date string |
| FeedExtensions.JsonUpdateKeepsIdentity | src/MackerelFeed.Core/Tools/FeedListItemExtensions.cs:161-170 | overwrites name, link (home page), image (icon), description and language, and sets type Json; id, address, folder, cache and both last-updated fields are kept |
| FeedExtensions.UpdateFromRss | src/MackerelFeed.Core/Tools/FeedListItemExtensions.cs:143-153 | mutates the given object as `RssUpdate` says and returns that same object, or the error |
| FeedExtensions.UpdateFromJson | src/MackerelFeed.Core/Tools/FeedListItemExtensions.cs:161-170 | mutates the given object as `JsonUpdate` says and returns that same object, or the error |
| FeedExtensions.RssToFeedItem | src/MackerelFeed.Core/Tools/FeedListItemExtensions.cs:121-135 | an unpersisted entry (id 0) of the given source with the item's identifier, fields and image URL |
| FeedExtensions.JsonToFeedItem | src/MackerelFeed.Core/Tools/FeedListItemExtensions.cs:179-201 | id 0, the source id, the item id; title and content (HTML, else text) HTML-decoded; description ""; date or `DateTime.MinValue`; author the names joined with ", " or "" |
| FeedExtensions.JoinFront | src/MackerelFeed.Core/Tools/FeedListItemExtensions.cs:184 | a join of two or more parts is the first part, the separator, then the join of the rest, so every part appears in order with one separator between each neighbouring pair |
| FeedExtensions.JoinLength | src/MackerelFeed.Core/Tools/FeedListItemExtensions.cs:184 | the length of a join is the parts' total length plus `\|parts\| - 1` separators |
| RssService.MapItems | src/MackerelFeed.Core/Services/RssFeedService.cs:43 | one entry per parsed item, in order, each mapped with the source id and image URL "" |
| RssService.ReadRssKeepsIdentity | src/MackerelFeed.Core/Services/RssFeedService.cs:39-51 | id, address and folder are kept; an unparsable body leaves the source untouched; the read fails iff the image address does not parse |
| RssService.ReadRssMapsEveryItem | src/MackerelFeed.Core/Services/RssFeedService.cs:41-50 | one entry per item, in order, with the source id and the item id; type Rss = `ServiceType`; the cache is non-null and a valid one is unchanged |
| RssService.ReadFeed | src/MackerelFeed.Core/Services/RssFeedService.cs:39-51 | returns the very object given, updated as `ReadRss` says, with the entries |
| RssService.ReadFeedFromUri | src/MackerelFeed.Core/Services/RssFeedService.cs:54-58 | a failed download propagates and nothing is read; otherwise the body is read into the given source, or into a new one whose address is the feed URI |
| JsonService.MapItems | src/MackerelFeed.Core/Services/JsonFeedService.cs:44 | one entry per parsed item, in order, each mapped with the source id and image URL "" |
| JsonService.ReadJsonKeepsIdentity | src/MackerelFeed.Core/Services/JsonFeedService.cs:39-51 | id, address, folder and last-updated date are kept; an unparsable body leaves the source untouched; the read fails iff the icon address does not parse |
| JsonService.ReadJsonMapsEveryItem | src/MackerelFeed.Core/Services/JsonFeedService.cs:41-50 | one entry per item, in order, with the source id and the item id; type Json = `ServiceType`; the cache is non-null and a valid one is unchanged |
| JsonService.ReadFeed | src/MackerelFeed.Core/Services/JsonFeedService.cs:39-51 | returns the very object given, updated as `ReadJson` says, with the entries |
| JsonService.ReadFeedFromUri | src/MackerelFeed.Core/Services/JsonFeedService.cs:54-58 | a failed download propagates and nothing is read; otherwise the body is read into the given source, or into a new one whose address is the feed URI |

## Left out

- Storage engine failures: the `try`/`catch` blocks that report a `DatabaseException` and return the default are not modelled, because the modelled tables never fail. The one error the core itself raises, the missing parent, is modelled and logged in `reported`.
- Database.DatabaseService.constructor: the SQLite engine set-up and open flags are left out, because they are engine internals.
  - A database file that already exists is taken as its tables' contents.
  - Table creation and migration are not modelled; their per-table outcomes are an input to `Initialize`.
- `Task`/`await` and the `Task.WhenAll` fan-out are left out, because concurrency is not modelled. The writes of a batch run in sequence: inserts, then updates.
- In the model the update pass runs after the insert pass, so with an entry list like ids [0, 1] on an empty table it overwrites the row the insert pass created in the same batch. In the source the interleaving of the concurrent tasks decides which write lands last.
- Database.InsertPassIdsIncrease: in the source the inserts run as concurrent tasks, so the new keys can go to the entries in any order. The lemma holds only for the model's sequential order.
- The interleaving in which the lazy update filter runs after the inserts is modelled only by `LazyFilterCount`, in the finding below.
- The change events, `Dispose` and the finalizer are left out, because they are UI notification and resource plumbing.
- HTTP is left out, because it is network I/O. `HttpClient`, the user-agent header and cancellation tokens appear only as the `fetchBytes`/`fetchString` fields of `Env`, which return `None` on an exception or a non-success status.
- These are left out because their code is not part of this model: the feed and JSON Feed parsers, `HtmlDecode`, the `Uri` constructor and `IsValidImage`. They are uninterpreted functions in `Env`. A parser exception is `None`.
- Utilities.cs is not part of this model. The placeholder icon is the constant `Env.placeholder`, and the failure to load it is not modelled.
- FeedExtensions.ResolveImageIsFirstValid: it assumes that an empty download is not a valid image. `IsValidImage` is not shown. Without that assumption, the empty array the chain starts from could itself be stored.
- The rows returned by `ToListAsync` are in ascending key order. SQLite promises no order without `ORDER BY`, so the membership facts are the part that holds for every engine.
- `GetFeedListItemByUri` compares the model's `Uri` records structurally. The storage engine translates `n.Uri == uri` into a comparison of the stored column; that translation is not part of this model.
- A stored source row never holds the `Folder` object, because it is a navigation property, not a column.
- Entries are values in an array. Two list positions holding the same `FeedItem` object (aliasing) are not modelled.
- `AppTheme` and `LanguageSetting` come from a UI library that is not part of this model, so they are modelled by ordinal. `DateTime` is opaque, with `DateTime.MinValue` distinguished.
- `GetFaviconFromUriAsync(string)` (src/MackerelFeed.Core/Tools/FeedListItemExtensions.cs:203-204) is left out, because nothing in the core calls it.
- A null item list in a parsed document is left out: the model's documents always have one.

## Findings

| source | as written | input that shows it | evidently intended | confidence | as-written member | corrected member |
|---|---|---|---|---|---|---|
| src/MackerelFeed.Core/Services/DatabaseService.cs:258-265 | The filter `x.Id > 0` is lazy, and `Task.WhenAll` enumerates it only after it has started every insert. If an insert has written its new id by then, that entry is updated again and counted twice. | An empty entry table and one entry with id 0 and parent 1: one row is written, but 2 is returned. | Split the batch before writing; the count is 1. | not executed; depends on when the insert tasks complete | Database.LazyFilterCount (shown by Database.LazyFilterExceedsBatch and Database.LazyFilterCountsInsertsTwice) | Database.DatabaseService.UpsertFeedItems (with Database.UpsertBatch and Database.UpsertBatchCounts) |
