/** The storage engine as the database service sees it: tables of rows
    keyed by an auto-increment integer primary key, scanned in ascending key
    order. Only the behaviour the service relies on is modelled: insert under
    a fresh key, update by key (reporting the affected row count), and
    filtered scans. */
module Storage {
  import opened Models

  /** The filter that every row passes (`Table<T>().ToListAsync()`). */
  predicate Always<R>(r: R) {
    true
  }

  /** A table after a write, with the number of rows the write affected. */
  datatype Written<R> = Written(table: Table<R>, affected: nat)

  /** A table: its rows by primary key, and the key the next insert gets.
      Keys are handed out in increasing order and never reused. */
  datatype Table<R> = Table(rows: map<int, R>, nextId: int) {

    ghost predicate Valid() {
      1 <= nextId && forall k :: k in rows ==> 1 <= k < nextId
    }

    /** Inserts `r` under the next key (the caller has already written that
        key into `r`'s own id column). */
    function Insert(r: R): (t: Table<R>)
      ensures Valid() ==> t.Valid() && nextId !in rows && nextId >= 1
      ensures t.rows.Keys == rows.Keys + {nextId} && t.rows[nextId] == r
      ensures forall k :: k in rows && k != nextId ==> t.rows[k] == rows[k]
    {
      Table(rows[nextId := r], nextId + 1)
    }

    /** Overwrites the row with key `id`; `affected` is 1 when that row
        exists and 0 (with the table unchanged) when it does not. */
    function Update(id: int, r: R): (w: Written<R>)
      ensures w.affected == (if id in rows then 1 else 0)
      ensures w.table.nextId == nextId && w.table.rows.Keys == rows.Keys
      ensures id in rows ==> w.table.rows == rows[id := r]
      ensures id !in rows ==> w.table == this
      ensures Valid() ==> w.table.Valid()
    {
      if id in rows then Written(Table(rows[id := r], nextId), 1) else Written(this, 0)
    }

    /** The rows with keys in [lo, hi) that pass `p`, in ascending key order. */
    function ScanFrom(p: R -> bool, lo: int, hi: int): (s: seq<R>)
      decreases hi - lo
      ensures forall r :: r in s ==> p(r) && exists k :: lo <= k < hi && k in rows && rows[k] == r
      ensures forall k :: lo <= k < hi && k in rows && p(rows[k]) ==> rows[k] in s
      ensures |s| > 0 ==>
        exists k :: lo <= k < hi && k in rows && rows[k] == s[0] &&
          forall j :: lo <= j < k && j in rows ==> !p(rows[j])
    {
      if lo >= hi then []
      else
        var rest := ScanFrom(p, lo + 1, hi);
        if lo in rows && p(rows[lo]) then [rows[lo]] + rest else rest
    }

    /** A filtered scan of the whole table (`Table<T>().Where(p).ToListAsync()`). */
    function Scan(p: R -> bool): seq<R> {
      ScanFrom(p, 1, nextId)
    }

    /** The first row of the scan, if any (`FirstOrDefaultAsync(p)`). */
    function FirstOrDefault(p: R -> bool): Option<R> {
      var s := Scan(p);
      if |s| == 0 then None else Some(s[0])
    }
  }

  /** An empty table, as the engine creates it. */
  function EmptyTable<R>(): (t: Table<R>)
    ensures t.Valid() && t.rows == map[]
  {
    Table(map[], 1)
  }

  /** A scan of a valid table returns exactly the rows that pass the filter. */
  lemma ScanExactly<R>(t: Table<R>, p: R -> bool)
    requires t.Valid()
    ensures forall r :: r in t.Scan(p) ==> p(r) && r in t.rows.Values
    ensures forall k :: k in t.rows && p(t.rows[k]) ==> t.rows[k] in t.Scan(p)
  {
    forall k | k in t.rows && p(t.rows[k])
      ensures t.rows[k] in t.Scan(p)
    {
      assert 1 <= k < t.nextId;
    }
  }

  /** `FirstOrDefault(p)` on a valid table is absent exactly when no row
      passes `p`, and otherwise is the passing row with the least key. */
  lemma FirstOrDefaultIsLeast<R>(t: Table<R>, p: R -> bool)
    requires t.Valid()
    ensures t.FirstOrDefault(p).None? <==> forall k :: k in t.rows ==> !p(t.rows[k])
    ensures t.FirstOrDefault(p).Some? ==>
      exists k :: k in t.rows && t.rows[k] == t.FirstOrDefault(p).value && p(t.rows[k]) &&
        forall j :: j in t.rows && j < k ==> !p(t.rows[j])
  {
    if t.FirstOrDefault(p).None? {
      forall k | k in t.rows ensures !p(t.rows[k]) {
        assert 1 <= k < t.nextId;
      }
    }
  }
}
