/** The persistence service (Services/DatabaseService.cs): four tables
    (settings, feed entries, feed sources, folders) behind one connection,
    an initialization gate that turns every operation but initialization into
    a soft no-op, and the upserts that give sources and entries their ids. */
module Database {
  import opened Models
  import opened Storage

  /** What creating one table reported. The engine names two outcomes; any
      other value of the enumeration is `Unrecognised`. */
  datatype CreateTableResult = Created | Migrated | Unrecognised(code: int)

  /** Errors the service hands to its error handler instead of throwing. */
  datatype DatabaseError = MissingFeedListItemId

  /** A table whose rows carry their own key in their id column, `id`
      reading that column. */
  ghost predicate Keyed<R>(t: Table<R>, id: R -> int) {
    t.Valid() && forall k :: k in t.rows ==> id(t.rows[k]) == k
  }

  function EntryId(e: FeedItem): int { e.id }
  function SourceId(n: FeedListItemRow): int { n.id }
  function SettingsId(a: AppSettings): int { a.id }
  function FolderId(f: FeedFolder): int { f.id }

  ghost predicate EntriesKeyed(t: Table<FeedItem>) {
    Keyed(t, EntryId)
  }

  ghost predicate SourcesKeyed(t: Table<FeedListItemRow>) {
    Keyed(t, SourceId)
  }

  ghost predicate SettingsKeyed(t: Table<AppSettings>) {
    Keyed(t, SettingsId)
  }

  ghost predicate FoldersKeyed(t: Table<FeedFolder>) {
    Keyed(t, FolderId)
  }

  /** The four tables behind the connection. */
  datatype Store = Store(
    appSettings: Table<AppSettings>,
    feedItems: Table<FeedItem>,
    feedListItems: Table<FeedListItemRow>,
    feedFolders: Table<FeedFolder>)
  {
    ghost predicate Valid() {
      SettingsKeyed(appSettings) && EntriesKeyed(feedItems) &&
      SourcesKeyed(feedListItems) && FoldersKeyed(feedFolders)
    }
  }

  /** The store once all four tables are dropped (or not yet created). */
  function EmptyStore(): (s: Store)
    ensures s.Valid()
    ensures s.appSettings.rows == map[] && s.feedItems.rows == map[]
    ensures s.feedListItems.rows == map[] && s.feedFolders.rows == map[]
  {
    Store(EmptyTable(), EmptyTable(), EmptyTable(), EmptyTable())
  }

  /** The overall verdict of `InitializeAsync`: no table reported anything
      but Created or Migrated. */
  predicate AllCreatedOrMigrated(results: seq<CreateTableResult>) {
    forall i :: 0 <= i < |results| ==> results[i].Created? || results[i].Migrated?
  }

  /** `n.FolderId == null` */
  predicate IsUnsorted(n: FeedListItemRow) {
    n.folderId.None?
  }

  /** `n => n.FeedListItemId == feedListItemId` */
  function OfSource(feedListItemId: int): FeedItem -> bool {
    (x: FeedItem) => x.feedListItemId == feedListItemId
  }

  /** The columns a feed source row stores: the folder object is a navigation
      property, not a column, so a stored row never holds one. */
  function Persisted(v: FeedListItemRow): (r: FeedListItemRow)
    ensures r.folder.None? && r.(folder := v.folder) == v
  {
    v.(folder := None)
  }

  // ---------------------------------------------------------------------
  // Writing one feed source
  // ---------------------------------------------------------------------

  /** The source half of an upsert: the table afterwards, the source object's
      value afterwards (an insert writes the new id into it) and the number of
      rows the write affected. */
  datatype SourceWrite = SourceWrite(table: Table<FeedListItemRow>, item: FeedListItemRow, affected: nat)

  function WriteSource(t: Table<FeedListItemRow>, v: FeedListItemRow): SourceWrite {
    if v.id <= 0 then
      var v' := v.(id := t.nextId);
      SourceWrite(t.Insert(Persisted(v')), v', 1)
    else
      var w := t.Update(v.id, Persisted(v));
      SourceWrite(w.table, v, w.affected)
  }

  /** A source with id <= 0 is inserted under a fresh positive id; any other
      is written over the row with its id, which counts only if that row
      exists. Either way the object's id afterwards is positive. */
  lemma WriteSourceInsertsOrUpdates(t: Table<FeedListItemRow>, v: FeedListItemRow)
    requires SourcesKeyed(t)
    ensures var sw := WriteSource(t, v);
      && SourcesKeyed(sw.table)
      && sw.item.id > 0
      && sw.item == v.(id := sw.item.id)
      && sw.table.rows.Keys >= t.rows.Keys
      && (v.id <= 0 ==> sw.item.id !in t.rows && sw.affected == 1 &&
                        sw.table.rows == t.rows[sw.item.id := Persisted(sw.item)])
      && (v.id > 0 ==> sw.item.id == v.id && sw.affected == (if v.id in t.rows then 1 else 0))
      && (v.id > 0 && v.id in t.rows ==> sw.table.rows == t.rows[v.id := Persisted(v)])
      && (v.id > 0 && v.id !in t.rows ==> sw.table == t)
  {
  }

  // ---------------------------------------------------------------------
  // Writing a batch of feed entries
  // ---------------------------------------------------------------------

  /** `items.Any(x => x.FeedListItemId <= 0)` */
  predicate HasMissingParent(batch: seq<FeedItem>) {
    exists i :: 0 <= i < |batch| && batch[i].feedListItemId <= 0
  }

  /** The batch after the source id has been written into every entry. */
  function Stamp(batch: seq<FeedItem>, id: int): (s: seq<FeedItem>)
    ensures |s| == |batch|
    ensures forall i :: 0 <= i < |s| ==> s[i] == batch[i].(feedListItemId := id)
    ensures id > 0 ==> !HasMissingParent(s)
  {
    seq(|batch|, i requires 0 <= i < |batch| => batch[i].(feedListItemId := id))
  }

  /** How many entries of the batch have no id yet (need an insert). */
  function CountNew(batch: seq<FeedItem>): (n: nat)
    ensures n <= |batch|
  {
    if batch == [] then 0
    else CountNew(batch[..|batch| - 1]) + (if batch[|batch| - 1].id <= 0 then 1 else 0)
  }

  /** A table after a batch write, the batch as the caller's list holds it
      afterwards, and the number of writes that affected a row. */
  datatype BatchWrite = BatchWrite(table: Table<FeedItem>, batch: seq<FeedItem>, count: nat)

  /** The inserts of a batch, in list order: every entry with id <= 0 is
      stored under the next key, and that key is written into the entry. */
  function InsertPass(t: Table<FeedItem>, batch: seq<FeedItem>): BatchWrite
    decreases |batch|
  {
    if batch == [] then BatchWrite(t, [], 0)
    else
      var w := InsertPass(t, batch[..|batch| - 1]);
      var x := batch[|batch| - 1];
      if x.id <= 0 then
        var x' := x.(id := w.table.nextId);
        BatchWrite(w.table.Insert(x'), w.batch + [x'], w.count + 1)
      else
        BatchWrite(w.table, w.batch + [x], w.count)
  }

  /** The updates of a batch, in list order: every entry with a positive id
      is written over the row with that key; a write counts when the row
      exists. */
  function UpdatePass(t: Table<FeedItem>, batch: seq<FeedItem>): Written<FeedItem>
    decreases |batch|
  {
    if batch == [] then Written(t, 0)
    else
      var w := UpdatePass(t, batch[..|batch| - 1]);
      var x := batch[|batch| - 1];
      if x.id > 0 then
        var u := w.table.Update(x.id, x);
        Written(u.table, w.affected + u.affected)
      else w
  }

  /** A batch upsert that has passed the parent check: the batch is split
      into inserts (id <= 0) and updates (id > 0) before anything is
      written, the inserts run first, then the updates. */
  function UpsertBatch(t: Table<FeedItem>, batch: seq<FeedItem>): BatchWrite {
    var ins := InsertPass(t, batch);
    var upd := UpdatePass(ins.table, batch);
    BatchWrite(upd.table, ins.batch, ins.count + upd.affected)
  }

  /** The insert pass keeps the table keyed and every row it had, adds
      exactly the keys from the old `nextId` on, one per entry without id. */
  lemma {:induction false} InsertPassKeepsTable(t: Table<FeedItem>, batch: seq<FeedItem>)
    requires EntriesKeyed(t)
    ensures var w := InsertPass(t, batch);
      && EntriesKeyed(w.table)
      && |w.batch| == |batch|
      && w.count == CountNew(batch)
      && w.table.nextId == t.nextId + w.count
      && (forall k :: k in w.table.rows <==> k in t.rows || t.nextId <= k < w.table.nextId)
      && (forall k :: k in t.rows ==> w.table.rows[k] == t.rows[k])
  {
    if batch != [] {
      var init := batch[..|batch| - 1];
      InsertPassKeepsTable(t, init);
    }
  }

  /** The insert pass leaves every entry with an id as it was, and gives
      every other entry a fresh key, stores it under that key, and changes
      nothing else about it. */
  lemma {:induction false} InsertPassWritesIds(t: Table<FeedItem>, batch: seq<FeedItem>)
    requires EntriesKeyed(t)
    ensures var w := InsertPass(t, batch);
      && |w.batch| == |batch|
      && forall i :: 0 <= i < |batch| ==>
           if batch[i].id > 0 then w.batch[i] == batch[i]
           else
             && w.batch[i] == batch[i].(id := w.batch[i].id)
             && t.nextId <= w.batch[i].id < w.table.nextId
             && w.batch[i].id in w.table.rows && w.table.rows[w.batch[i].id] == w.batch[i]
  {
    InsertPassKeepsTable(t, batch);
    if batch != [] {
      var init := batch[..|batch| - 1];
      InsertPassWritesIds(t, init);
      InsertPassKeepsTable(t, init);
      var w0 := InsertPass(t, init);
      var w := InsertPass(t, batch);
      forall i | 0 <= i < |init|
        ensures batch[i] == init[i] && w.batch[i] == w0.batch[i]
      {
      }
    }
  }

  /** Entries inserted by one pass get increasing ids along the list. */
  lemma {:induction false} InsertPassIdsIncrease(t: Table<FeedItem>, batch: seq<FeedItem>)
    requires EntriesKeyed(t)
    ensures var w := InsertPass(t, batch);
      |w.batch| == |batch| &&
      forall i, j :: 0 <= i < j < |batch| && batch[i].id <= 0 && batch[j].id <= 0 ==>
        w.batch[i].id < w.batch[j].id
  {
    if batch != [] {
      var init := batch[..|batch| - 1];
      InsertPassIdsIncrease(t, init);
      InsertPassWritesIds(t, init);
      InsertPassKeepsTable(t, init);
      var w0 := InsertPass(t, init);
      var w := InsertPass(t, batch);
      forall i | 0 <= i < |init|
        ensures batch[i] == init[i] && w.batch[i] == w0.batch[i]
      {
      }
    }
  }

  /** The update pass keeps the table keyed and its keys, and counts one for
      each entry with a positive id that has a row. */
  lemma {:induction false} UpdatePassCountsHits(t: Table<FeedItem>, batch: seq<FeedItem>)
    requires EntriesKeyed(t)
    ensures var w := UpdatePass(t, batch);
      && EntriesKeyed(w.table)
      && w.table.rows.Keys == t.rows.Keys && w.table.nextId == t.nextId
      && w.affected <= |batch| - CountNew(batch)
      && ((forall i :: 0 <= i < |batch| && batch[i].id > 0 ==> batch[i].id in t.rows) ==>
            w.affected == |batch| - CountNew(batch))
  {
    if batch != [] {
      var init := batch[..|batch| - 1];
      UpdatePassCountsHits(t, init);
      assert forall i :: 0 <= i < |init| ==> init[i] == batch[i];
    }
  }

  /** An update pass leaves every row whose key no entry names as it was. */
  lemma {:induction false} UpdatePassKeepsUnnamed(t: Table<FeedItem>, batch: seq<FeedItem>)
    ensures forall k :: k in t.rows && (forall i :: 0 <= i < |batch| ==> batch[i].id != k) ==>
      k in UpdatePass(t, batch).table.rows && UpdatePass(t, batch).table.rows[k] == t.rows[k]
  {
    if batch != [] {
      var init := batch[..|batch| - 1];
      UpdatePassKeepsUnnamed(t, init);
      UpdatePassCountsKeys(t, init);
      forall k | k in t.rows && (forall i :: 0 <= i < |batch| ==> batch[i].id != k)
        ensures UpdatePass(t, batch).table.rows[k] == t.rows[k]
      {
        assert forall i :: 0 <= i < |init| ==> init[i] == batch[i];
        assert batch[|batch| - 1].id != k;
      }
    }
  }

  /** After an update pass, the row under the id of an entry with a positive
      id that had a row holds the last entry naming that id. */
  lemma {:induction false} UpdatePassWritesLast(t: Table<FeedItem>, batch: seq<FeedItem>)
    ensures forall i :: (0 <= i < |batch| && batch[i].id > 0 && batch[i].id in t.rows &&
                         (forall j :: i < j < |batch| ==> batch[j].id != batch[i].id)) ==>
        batch[i].id in UpdatePass(t, batch).table.rows && UpdatePass(t, batch).table.rows[batch[i].id] == batch[i]
  {
    if batch != [] {
      var n := |batch| - 1;
      var init := batch[..n];
      UpdatePassWritesLast(t, init);
      UpdatePassCountsKeys(t, init);
      forall i | 0 <= i < |batch| && batch[i].id > 0 && batch[i].id in t.rows &&
        (forall j :: i < j < |batch| ==> batch[j].id != batch[i].id)
        ensures UpdatePass(t, batch).table.rows[batch[i].id] == batch[i]
      {
        if i < n {
          assert init[i] == batch[i];
          assert forall j :: i < j < |init| ==> init[j] == batch[j];
          assert batch[n].id != batch[i].id;
        }
      }
    }
  }

  /** The batch upsert keeps the table keyed, returns the written batch in
      the same order, and counts at least every insert and at most one write
      per entry; when every entry with an id has a row, every write counts,
      and a batch with nothing to insert adds no row. */
  lemma UpsertBatchCounts(t: Table<FeedItem>, batch: seq<FeedItem>)
    requires EntriesKeyed(t)
    ensures var w := UpsertBatch(t, batch);
      && EntriesKeyed(w.table)
      && |w.batch| == |batch|
      && CountNew(batch) <= w.count <= |batch|
      && ((forall i :: 0 <= i < |batch| && batch[i].id > 0 ==> batch[i].id in t.rows) ==>
            w.count == |batch|)
      && w.table.rows.Keys >= t.rows.Keys
      && (CountNew(batch) == 0 ==> w.table.rows.Keys == t.rows.Keys)
      && (forall k :: k in t.rows && (forall i :: 0 <= i < |batch| ==> batch[i].id != k) ==>
            w.table.rows[k] == t.rows[k])
      && (forall i :: (0 <= i < |batch| && batch[i].id > 0 && batch[i].id in t.rows &&
                       (forall j :: i < j < |batch| ==> batch[j].id != batch[i].id)) ==>
              w.table.rows[batch[i].id] == batch[i])
  {
    InsertPassKeepsTable(t, batch);
    var ins := InsertPass(t, batch);
    UpdatePassCountsHits(ins.table, batch);
    UpdatePassKeepsUnnamed(ins.table, batch);
    UpdatePassWritesLast(ins.table, batch);
    var w := UpsertBatch(t, batch);
    assert forall k :: k in t.rows ==> k in w.table.rows;
    if CountNew(batch) == 0 {
      assert forall k :: k in w.table.rows ==> k in t.rows;
    }
  }

  /** Among the entries of `batch`, those with a positive id whose row is in `keys`. */
  function Hits(keys: set<int>, batch: seq<FeedItem>): (n: nat)
    ensures n <= |batch|
  {
    if batch == [] then 0
    else
      var x := batch[|batch| - 1];
      Hits(keys, batch[..|batch| - 1]) + (if x.id > 0 && x.id in keys then 1 else 0)
  }

  /** The update pass counts exactly the entries whose id has a row: updates
      never add or remove keys. */
  lemma {:induction false} UpdatePassCountsKeys(t: Table<FeedItem>, batch: seq<FeedItem>)
    ensures UpdatePass(t, batch).table.rows.Keys == t.rows.Keys
    ensures UpdatePass(t, batch).affected == Hits(t.rows.Keys, batch)
  {
    if batch != [] {
      UpdatePassCountsKeys(t, batch[..|batch| - 1]);
    }
  }

  /** If `b` is `a` with every entry that had no id given an id that is in
      `keys`, then `b` has one hit more than `a` for each such entry. */
  lemma {:induction false} HitsOfInserted(keys: set<int>, a: seq<FeedItem>, b: seq<FeedItem>)
    requires |a| == |b|
    requires forall i :: 0 <= i < |a| && a[i].id > 0 ==> b[i].id == a[i].id
    requires forall i :: 0 <= i < |a| && a[i].id <= 0 ==> b[i].id > 0 && b[i].id in keys
    ensures Hits(keys, b) == Hits(keys, a) + CountNew(a)
  {
    if a != [] {
      HitsOfInserted(keys, a[..|a| - 1], b[..|b| - 1]);
    }
  }

  // ---------------------------------------------------------------------
  // Upserting a feed source with its entries
  // ---------------------------------------------------------------------

  /** The store, the source object's value, the entry list as the caller
      holds it and the row count after `UpsertFeedListItemAsync` on an
      initialized store. `entries` is `None` when no entry list is passed. */
  datatype SourceUpsert = SourceUpsert(store: Store, item: FeedListItemRow, batch: seq<FeedItem>, rows: nat)

  function UpsertSource(s: Store, v: FeedListItemRow, entries: Option<seq<FeedItem>>): SourceUpsert {
    var sw := WriteSource(s.feedListItems, v);
    var s1 := s.(feedListItems := sw.table);
    var rows := if sw.affected > 0 then 1 else 0;
    if entries.None? then SourceUpsert(s1, sw.item, [], rows)
    else
      var w := UpsertBatch(s1.feedItems, Stamp(entries.value, sw.item.id));
      SourceUpsert(s1.(feedItems := w.table), sw.item, w.batch, rows + w.count)
  }

  /** Upserting a source gives it a positive id (a fresh one when its id was
      <= 0, its own otherwise), stamps that id on every entry before the
      entries are written, so the entry batch always passes the parent check,
      counts at most one row for the source plus one per entry, and leaves
      the settings and folder tables alone. */
  lemma UpsertSourceLinksEntries(s: Store, v: FeedListItemRow, entries: Option<seq<FeedItem>>)
    requires s.Valid()
    ensures var u := UpsertSource(s, v, entries);
      && u.store.Valid()
      && u.item.id > 0
      && u.item == v.(id := u.item.id)
      && (v.id <= 0 ==> u.item.id !in s.feedListItems.rows &&
                        u.store.feedListItems.rows == s.feedListItems.rows[u.item.id := Persisted(u.item)])
      && (v.id > 0 ==> u.item.id == v.id)
      && u.store.appSettings == s.appSettings && u.store.feedFolders == s.feedFolders
      && (entries.None? ==> u.store.feedItems == s.feedItems && u.rows <= 1)
      && (entries.Some? ==>
            && !HasMissingParent(Stamp(entries.value, u.item.id))
            && |u.batch| == |entries.value|
            && (forall i :: 0 <= i < |u.batch| ==> u.batch[i].feedListItemId == u.item.id)
            && u.rows <= 1 + |entries.value|)
  {
    WriteSourceInsertsOrUpdates(s.feedListItems, v);
    if entries.Some? {
      var sw := WriteSource(s.feedListItems, v);
      var stamped := Stamp(entries.value, sw.item.id);
      UpsertBatchCounts(s.feedItems, stamped);
      InsertPassWritesIds(s.feedItems, stamped);
    }
  }

  /** A batch in which no entry has an id consists of inserts only. */
  lemma {:induction false} CountNewAllNew(batch: seq<FeedItem>)
    requires forall i :: 0 <= i < |batch| ==> batch[i].id <= 0
    ensures CountNew(batch) == |batch|
  {
    if batch != [] {
      CountNewAllNew(batch[..|batch| - 1]);
    }
  }

  /** Upserting a new source with new entries writes one row for each; a
      second upsert of the source and the entries as the first one left them
      updates every row again, keeps every id, and adds no row. */
  lemma {:induction false} ReupsertAddsNoRows(s: Store, v: FeedListItemRow, entries: seq<FeedItem>)
    requires s.Valid() && v.id <= 0
    requires forall i :: 0 <= i < |entries| ==> entries[i].id <= 0
    ensures var u := UpsertSource(s, v, Some(entries));
      var u2 := UpsertSource(u.store, u.item, Some(u.batch));
      && u.rows == 1 + |entries|
      && u2.rows == 1 + |entries|
      && u2.item == u.item && u2.batch == u.batch
      && u2.store.feedListItems.rows.Keys == u.store.feedListItems.rows.Keys
      && u2.store.feedItems.rows.Keys == u.store.feedItems.rows.Keys
  {
    UpsertSourceLinksEntries(s, v, Some(entries));
    var u := UpsertSource(s, v, Some(entries));
    var sw := WriteSource(s.feedListItems, v);
    var stamped := Stamp(entries, sw.item.id);
    var s1 := s.(feedListItems := sw.table);
    CountNewAllNew(stamped);
    UpsertBatchCounts(s1.feedItems, stamped);
    var ins := InsertPass(s1.feedItems, stamped);
    InsertPassWritesIds(s1.feedItems, stamped);
    UpdatePassCountsKeys(ins.table, stamped);
    assert u.rows == 1 + |entries|;
    // Second pass: the source has a row, every entry has an id with a row.
    UpsertSourceLinksEntries(u.store, u.item, Some(u.batch));
    WriteSourceInsertsOrUpdates(u.store.feedListItems, u.item);
    var sw2 := WriteSource(u.store.feedListItems, u.item);
    assert sw2.item == u.item;
    assert Stamp(u.batch, u.item.id) == u.batch;
    var t2 := u.store.feedItems;
    assert forall i :: 0 <= i < |u.batch| ==> u.batch[i].id > 0 && u.batch[i].id in t2.rows;
    CountNewAllKnown(u.batch);
    UpsertBatchCounts(t2, u.batch);
    InsertPassWritesIds(t2, u.batch);
  }

  /** A batch in which every entry has an id needs no insert. */
  lemma {:induction false} CountNewAllKnown(batch: seq<FeedItem>)
    requires forall i :: 0 <= i < |batch| ==> batch[i].id > 0
    ensures CountNew(batch) == 0
  {
    if batch != [] {
      CountNewAllKnown(batch[..|batch| - 1]);
    }
  }

  // ---------------------------------------------------------------------
  // The settings singleton
  // ---------------------------------------------------------------------

  /** The settings table and the row returned after `GetAppSettingsAsync`. */
  datatype SettingsRead = SettingsRead(table: Table<AppSettings>, row: AppSettings)

  function ReadSettings(t: Table<AppSettings>): SettingsRead {
    match t.FirstOrDefault(Always)
    case Some(row) => SettingsRead(t, row)
    case None =>
      var row := DefaultAppSettings.(id := t.nextId);
      SettingsRead(t.Insert(row), row)
  }

  /** Reading the settings inserts a default row only into an empty table,
      and always returns a stored row with a positive id, the one with the
      least id. */
  lemma ReadSettingsCreatesLazily(t: Table<AppSettings>)
    requires SettingsKeyed(t)
    ensures var r := ReadSettings(t);
      && SettingsKeyed(r.table)
      && r.row.id > 0 && r.row.id in r.table.rows && r.table.rows[r.row.id] == r.row
      && (forall k :: k in r.table.rows ==> r.row.id <= k)
      && (t.rows == map[] ==> r.row == DefaultAppSettings.(id := r.row.id) && r.table.rows == map[r.row.id := r.row])
      && (t.rows != map[] ==> r.table == t)
  {
    FirstOrDefaultIsLeast(t, Always);
  }

  /** A second read returns the same row and inserts nothing. */
  lemma {:induction false} SecondReadIsSameRow(t: Table<AppSettings>)
    requires SettingsKeyed(t)
    ensures var r := ReadSettings(t);
      ReadSettings(r.table) == SettingsRead(r.table, r.row)
  {
    ReadSettingsCreatesLazily(t);
    var r := ReadSettings(t);
    FirstOrDefaultIsLeast(r.table, Always);
  }

  /** Updating the row a read returned makes the next read return the
      updated row (its theme and language included). */
  lemma {:induction false} UpdatedSettingsAreRead(t: Table<AppSettings>, s: AppSettings)
    requires SettingsKeyed(t)
    requires s.id == ReadSettings(t).row.id
    ensures var w := ReadSettings(t).table.Update(s.id, s);
      && w.affected == 1
      && ReadSettings(w.table) == SettingsRead(w.table, s)
  {
    ReadSettingsCreatesLazily(t);
    var r := ReadSettings(t);
    var w := r.table.Update(s.id, s);
    assert w.table.rows == r.table.rows[s.id := s];
    assert SettingsKeyed(w.table);
    FirstOrDefaultIsLeast(w.table, Always);
    var k :| k in w.table.rows && w.table.rows[k] == w.table.FirstOrDefault(Always).value &&
      forall j :: j in w.table.rows && j < k ==> !Always(w.table.rows[j]);
    assert k == s.id by {
      assert s.id in w.table.rows && Always(w.table.rows[s.id]);
      assert k in r.table.rows;
    }
  }

  // ---------------------------------------------------------------------
  // The lazy update filter of UpsertFeedItemsAsync, as written
  // ---------------------------------------------------------------------

  /** The row count `UpsertFeedItemsAsync` returns as written when every
      insert completes before the lazily evaluated filter `x.Id > 0` is
      enumerated: the filter then sees the ids the inserts wrote and selects
      the inserted entries for an update as well. */
  function LazyFilterCount(t: Table<FeedItem>, batch: seq<FeedItem>): nat {
    var ins := InsertPass(t, batch);
    ins.count + UpdatePass(ins.table, ins.batch).affected
  }

  /** Under that interleaving every inserted entry is counted twice. */
  lemma LazyFilterCountsInsertsTwice(t: Table<FeedItem>, batch: seq<FeedItem>)
    requires EntriesKeyed(t)
    ensures LazyFilterCount(t, batch) == UpsertBatch(t, batch).count + CountNew(batch)
  {
    var ins := InsertPass(t, batch);
    InsertPassKeepsTable(t, batch);
    InsertPassWritesIds(t, batch);
    UpdatePassCountsKeys(ins.table, ins.batch);
    UpdatePassCountsKeys(ins.table, batch);
    HitsOfInserted(ins.table.rows.Keys, batch, ins.batch);
  }

  /** One new entry: one row is written, two writes are counted. */
  lemma LazyFilterExceedsBatch()
    ensures var e := FeedItem(0, None, 1, None, None, None, None, None, None, Some(""));
      && LazyFilterCount(EmptyTable(), [e]) == 2
      && UpsertBatch(EmptyTable(), [e]).count == 1
  {
    var e := FeedItem(0, None, 1, None, None, None, None, None, None, Some(""));
    var t: Table<FeedItem> := EmptyTable();
    LazyFilterCountsInsertsTwice(t, [e]);
    UpsertBatchCounts(t, [e]);
    assert CountNew([e]) == 1 by {
      assert [e][..0] == [];
    }
  }

  /** The batch count is the number of writes that affected a row, not the
      number of rows written: on an empty table, an entry without an id is
      inserted under key 1 and an entry with id 1 then overwrites that row. */
  lemma UpsertCountsWritesNotRows()
    ensures var a := FeedItem(0, None, 1, None, None, None, None, None, None, Some("a"));
      var b := FeedItem(1, None, 1, None, None, None, None, None, None, Some("b"));
      var w := UpsertBatch(EmptyTable(), [a, b]);
      && w.count == 2
      && w.table.rows.Keys == {1}
      && w.table.rows[1] == b
  {
    var a := FeedItem(0, None, 1, None, None, None, None, None, None, Some("a"));
    var b := FeedItem(1, None, 1, None, None, None, None, None, None, Some("b"));
    var t: Table<FeedItem> := EmptyTable();
    assert [a, b][..1] == [a];
    assert [a][..0] == [];
    var a' := a.(id := 1);
    var ins := InsertPass(t, [a, b]);
    assert InsertPass(t, [a]) == BatchWrite(t.Insert(a'), [a'], 1);
    assert ins == BatchWrite(t.Insert(a'), [a', b], 1);
    assert ins.table.rows == map[1 := a'];
    assert UpdatePass(ins.table, [a]) == Written(ins.table, 0);
    var upd := UpdatePass(ins.table, [a, b]);
    assert upd.table.rows == map[1 := b] && upd.affected == 1;
  }

  // ---------------------------------------------------------------------
  // The service
  // ---------------------------------------------------------------------

  /** Services/DatabaseService.cs: the SQLite-backed store behind an
      initialization gate. Every operation other than `InitializeAsync` and
      `DropTablesAsync` does nothing (returning an empty or zero result) until
      initialization succeeded. `reported` collects the errors the service
      logs. */
  class DatabaseService {
    var isInitialized: bool
    var database: Store
    var reported: seq<DatabaseError>

    ghost predicate Valid()
      reads this
    {
      database.Valid()
    }

    /** Opens the database file, which holds `stored` (empty when new). */
    constructor (stored: Store)
      requires stored.Valid()
      ensures Valid() && !isInitialized && database == stored && reported == []
    {
      isInitialized := false;
      database := stored;
      reported := [];
    }

    /** `InitializeAsync`: `results` are the outcomes of creating (or
        migrating) the four tables; a missing table is created empty, which
        the store already represents. */
    method Initialize(results: seq<CreateTableResult>) returns (ok: bool)
      requires Valid()
      modifies this
      ensures Valid() && isInitialized == ok
      ensures ok == AllCreatedOrMigrated(results)
      ensures database == old(database) && reported == old(reported)
    {
      var i := 0;
      ok := true;
      while i < |results|
        invariant 0 <= i <= |results|
        invariant ok == AllCreatedOrMigrated(results[..i])
      {
        assert results[..i + 1] == results[..i] + [results[i]];
        ok := ok && (results[i].Created? || results[i].Migrated?);
        i := i + 1;
      }
      assert results[..i] == results;
      isInitialized := ok;
    }

    /** `DropTablesAsync`: drops all four tables and closes the gate. */
    method DropTables()
      modifies this
      ensures Valid() && !isInitialized && reported == old(reported)
      ensures database == EmptyStore()
    {
      database := EmptyStore();
      isInitialized := false;
    }

    /** `GetFeedListItemsAsync`: every source, in id order. */
    method GetFeedListItems() returns (r: seq<FeedListItemRow>)
      requires Valid()
      ensures !isInitialized ==> r == []
      ensures isInitialized ==>
        && r == database.feedListItems.Scan(Always)
        && (forall x :: x in r ==> x in database.feedListItems.rows.Values)
        && (forall k :: k in database.feedListItems.rows ==> database.feedListItems.rows[k] in r)
    {
      if !isInitialized {
        return [];
      }
      r := database.feedListItems.Scan(Always);
      ScanExactly(database.feedListItems, Always);
    }

    /** `GetUnsortedFeedListItemsAsync`: the sources in no folder, in id order. */
    method GetUnsortedFeedListItems() returns (r: seq<FeedListItemRow>)
      requires Valid()
      ensures !isInitialized ==> r == []
      ensures isInitialized ==>
        && r == database.feedListItems.Scan(IsUnsorted)
        && (forall x :: x in r ==> x.folderId.None? && x in database.feedListItems.rows.Values)
        && (forall k :: k in database.feedListItems.rows && database.feedListItems.rows[k].folderId.None? ==>
              database.feedListItems.rows[k] in r)
    {
      if !isInitialized {
        return [];
      }
      r := database.feedListItems.Scan(IsUnsorted);
      ScanExactly(database.feedListItems, IsUnsorted);
    }

    /** `GetFeedListItemAsync(Uri)`: the first source (least id) whose uri
        equals the parsed argument; `parseUri` is the Uri constructor. */
    method GetFeedListItemByUri(parseUri: string -> Option<Uri>, address: string) returns (r: Option<FeedListItemRow>)
      requires Valid()
      ensures !isInitialized || parseUri(address).None? ==> r == None
      ensures isInitialized && parseUri(address).Some? ==>
        var u := parseUri(address).value;
        var rows := database.feedListItems.rows;
        && (r.None? <==> forall k :: k in rows ==> rows[k].uri != Some(u))
        && (r.Some? ==> exists k :: k in rows && rows[k] == r.value && r.value.uri == Some(u) &&
                          forall j :: j in rows && j < k ==> rows[j].uri != Some(u))
    {
      if !isInitialized {
        return None;
      }
      var parsed := parseUri(address);
      if parsed.None? {
        return None;
      }
      var u := parsed.value;
      var p := (n: FeedListItemRow) => n.uri == Some(u);
      r := database.feedListItems.FirstOrDefault(p);
      FirstOrDefaultIsLeast(database.feedListItems, p);
    }

    /** `GetFeedListItemAsync(int)`: the source with that id, if any. */
    method GetFeedListItemById(id: int) returns (r: Option<FeedListItemRow>)
      requires Valid()
      ensures !isInitialized ==> r == None
      ensures isInitialized ==>
        r == (if id in database.feedListItems.rows then Some(database.feedListItems.rows[id]) else None)
    {
      if !isInitialized {
        return None;
      }
      var t := database.feedListItems;
      var p := (n: FeedListItemRow) => n.id == id;
      r := t.FirstOrDefault(p);
      FirstOrDefaultIsLeast(t, p);
      if id in t.rows {
        assert p(t.rows[id]);
        var k :| k in t.rows && t.rows[k] == r.value && p(t.rows[k]);
        assert k == id;
      }
    }

    /** `GetFeedItemsAsync(feedListItemId)`: the entries of one source, in
        id order. */
    method GetFeedItems(feedListItemId: int) returns (r: seq<FeedItem>)
      requires Valid()
      ensures !isInitialized ==> r == []
      ensures isInitialized ==>
        && r == database.feedItems.Scan(OfSource(feedListItemId))
        && (forall x :: x in r ==> x.feedListItemId == feedListItemId && x in database.feedItems.rows.Values)
        && (forall k :: k in database.feedItems.rows && database.feedItems.rows[k].feedListItemId == feedListItemId ==>
              database.feedItems.rows[k] in r)
    {
      if !isInitialized {
        return [];
      }
      r := database.feedItems.Scan(OfSource(feedListItemId));
      ScanExactly(database.feedItems, OfSource(feedListItemId));
    }

    /** `UpsertFeedItemsAsync`: refuses (logging the error) a batch in which
        some entry has no parent; otherwise inserts every entry without an id
        (writing its new id into the caller's array) and then updates every
        entry that had an id when the call began. Returns the number of writes
        that affected a row. */
    method UpsertFeedItems(items: array<FeedItem>) returns (rows: int)
      requires Valid()
      modifies this, items
      ensures Valid() && isInitialized == old(isInitialized)
      ensures !old(isInitialized) ==>
        rows == 0 && database == old(database) && items[..] == old(items[..]) && reported == old(reported)
      ensures old(isInitialized) && HasMissingParent(old(items[..])) ==>
        && rows == 0 && database == old(database) && items[..] == old(items[..])
        && reported == old(reported) + [MissingFeedListItemId]
      ensures old(isInitialized) && !HasMissingParent(old(items[..])) ==>
        var w := UpsertBatch(old(database.feedItems), old(items[..]));
        && rows == w.count && items[..] == w.batch && reported == old(reported)
        && database == old(database).(feedItems := w.table)
    {
      if !isInitialized {
        return 0;
      }
      if exists i :: 0 <= i < items.Length && items[i].feedListItemId <= 0 {
        reported := reported + [MissingFeedListItemId];
        return 0;
      }
      ghost var snapshot := items[..];
      var updates := items[..];
      var t, inserted := InsertEntries(database.feedItems, items);
      var t2, updated := UpdateEntries(t, updates);
      UpsertBatchCounts(old(database.feedItems), snapshot);
      database := database.(feedItems := t2);
      rows := inserted + updated;
    }

    /** `UpsertFeedListItemAsync`: inserts the source when its id is <= 0
        (writing the new id into the object) or updates it otherwise, and when
        an entry list is given stamps the source's id on every entry and
        upserts them. Returns 1 for the source row (0 if an update found no
        row) plus the entries' rows. */
    method UpsertFeedListItem(item: FeedListItem, feedItems: array?<FeedItem>) returns (rows: int)
      requires Valid()
      modifies this, item, feedItems
      ensures Valid() && isInitialized == old(isInitialized) && reported == old(reported)
      ensures !old(isInitialized) ==>
        && rows == 0 && database == old(database) && item.Value() == old(item.Value())
        && (feedItems != null ==> feedItems[..] == old(feedItems[..]))
      ensures old(isInitialized) ==>
        var u := UpsertSource(old(database), old(item.Value()),
                              if feedItems == null then None else Some(old(feedItems[..])));
        && database == u.store && item.Value() == u.item && rows == u.rows
        && (feedItems != null ==> feedItems[..] == u.batch)
    {
      if !isInitialized {
        return 0;
      }
      ghost var entries := if feedItems == null then None else Some(feedItems[..]);
      ghost var v := item.Value();
      ghost var s0 := database;
      UpsertSourceLinksEntries(s0, v, entries);
      var result := 0;
      if item.id <= 0 {
        item.id := database.feedListItems.nextId;
        database := database.(feedListItems := database.feedListItems.Insert(Persisted(item.Value())));
        result := 1;
      } else {
        var w := database.feedListItems.Update(item.id, Persisted(item.Value()));
        database := database.(feedListItems := w.table);
        result := w.affected;
      }
      rows := if result > 0 then 1 else 0;
      if feedItems != null {
        StampEntries(feedItems, item.id);
        var count := UpsertFeedItems(feedItems);
        rows := rows + count;
      }
    }

    /** `GetAppSettingsAsync`: the settings row, created with default values
        on first use. */
    method GetAppSettings() returns (r: Option<AppSettings>)
      requires Valid()
      modifies this
      ensures Valid() && isInitialized == old(isInitialized) && reported == old(reported)
      ensures !old(isInitialized) ==> r == None && database == old(database)
      ensures old(isInitialized) ==>
        var read := ReadSettings(old(database.appSettings));
        r == Some(read.row) && database == old(database).(appSettings := read.table)
    {
      if !isInitialized {
        return None;
      }
      ReadSettingsCreatesLazily(database.appSettings);
      r := database.appSettings.FirstOrDefault(Always);
      if r.None? {
        var settings := DefaultAppSettings.(id := database.appSettings.nextId);
        database := database.(appSettings := database.appSettings.Insert(settings));
        r := Some(settings);
      }
    }

    /** `UpdateAppSettingsAsync`: overwrites the settings row with the id of
        `settings`; succeeds exactly when such a row exists. */
    method UpdateAppSettings(settings: AppSettings) returns (ok: bool)
      requires Valid()
      modifies this
      ensures Valid() && isInitialized == old(isInitialized) && reported == old(reported)
      ensures !old(isInitialized) ==> !ok && database == old(database)
      ensures old(isInitialized) ==>
        && ok == (settings.id in old(database.appSettings.rows))
        && database == old(database).(appSettings := old(database.appSettings).Update(settings.id, settings).table)
    {
      if !isInitialized {
        return false;
      }
      var w := database.appSettings.Update(settings.id, settings);
      database := database.(appSettings := w.table);
      ok := w.affected > 0;
    }
  }

  /** The insert half of `UpsertFeedItemsAsync`: each entry of `items`
      without an id is inserted under a fresh key, which is written back into
      the caller's array. */
  method InsertEntries(t0: Table<FeedItem>, items: array<FeedItem>) returns (t: Table<FeedItem>, inserted: nat)
    modifies items
    ensures InsertPass(t0, old(items[..])) == BatchWrite(t, items[..], inserted)
  {
    ghost var snapshot := items[..];
    t := t0;
    inserted := 0;
    var i := 0;
    while i < items.Length
      invariant 0 <= i <= items.Length
      invariant items[i..] == snapshot[i..]
      invariant InsertPass(t0, snapshot[..i]) == BatchWrite(t, items[..i], inserted)
    {
      assert snapshot[..i + 1] == snapshot[..i] + [snapshot[i]];
      assert items[i] == snapshot[i] by {
        assert items[i..][0] == snapshot[i..][0];
      }
      if items[i].id <= 0 {
        var x := items[i].(id := t.nextId);
        t := t.Insert(x);
        items[i] := x;
        inserted := inserted + 1;
      }
      assert items[..i + 1] == items[..i] + [items[i]];
      i := i + 1;
    }
    assert snapshot[..i] == snapshot;
    assert items[..i] == items[..];
  }

  /** The update half of `UpsertFeedItemsAsync`: each entry of `batch` that
      has an id overwrites the row with that key, when there is one. */
  method UpdateEntries(t0: Table<FeedItem>, batch: seq<FeedItem>) returns (t: Table<FeedItem>, updated: nat)
    ensures UpdatePass(t0, batch) == Written(t, updated)
  {
    t := t0;
    updated := 0;
    var i := 0;
    while i < |batch|
      invariant 0 <= i <= |batch|
      invariant UpdatePass(t0, batch[..i]) == Written(t, updated)
    {
      assert batch[..i + 1] == batch[..i] + [batch[i]];
      if batch[i].id > 0 {
        var u := t.Update(batch[i].id, batch[i]);
        t := u.table;
        updated := updated + u.affected;
      }
      i := i + 1;
    }
    assert batch[..i] == batch;
  }

  /** The loop of `UpsertFeedListItemAsync` that sets `FeedListItemId` on
      every entry before they are written. */
  method StampEntries(items: array<FeedItem>, id: int)
    modifies items
    ensures items[..] == Stamp(old(items[..]), id)
  {
    var n := 0;
    while n < items.Length
      invariant 0 <= n <= items.Length
      invariant forall j :: 0 <= j < n ==> items[j] == old(items[j]).(feedListItemId := id)
      invariant forall j :: n <= j < items.Length ==> items[j] == old(items[j])
    {
      items[n] := items[n].(feedListItemId := id);
      n := n + 1;
    }
  }

  /** The settings round trip of DatabaseTests.AppSettingTest on a new
      database file: a fresh service is uninitialized; once the tables are
      created the settings row exists with a positive id, updating it with a
      new theme and language succeeds, and the next read returns them. */
  method SettingsRoundTrip(results: seq<CreateTableResult>, theme: AppTheme, language: LanguageSetting)
    returns (wasInitialized: bool, first: Option<AppSettings>, updated: bool, second: Option<AppSettings>)
    requires AllCreatedOrMigrated(results)
    ensures !wasInitialized
    ensures first.Some? && first.value.id > 0
    ensures updated
    ensures second.Some? && second.value.id == first.value.id
    ensures second.value.appTheme == theme && second.value.languageSetting == language
  {
    var db := new DatabaseService(EmptyStore());
    wasInitialized := db.isInitialized;
    var ok := db.Initialize(results);
    ghost var t := db.database.appSettings;
    ReadSettingsCreatesLazily(t);
    first := db.GetAppSettings();
    var changed := first.value.(appTheme := theme, languageSetting := language);
    UpdatedSettingsAreRead(t, changed);
    updated := db.UpdateAppSettings(changed);
    second := db.GetAppSettings();
  }
}
