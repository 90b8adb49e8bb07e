/** The generic CRUD repository (`backend/repositories/base_repository.py`):
    one table of records keyed by an integer primary key, whose column is
    named by `pkField` ("id" unless the subclass says otherwise). A record is
    the map of its other columns to their values. Every mutation commits at
    once, and a refused statement leaves the table as committed. */
module BaseRepository {
  import opened Common
  import opened Sorting

  /** The non-key columns of one record. */
  type Row = map<string, Json>

  /** `pk_field`'s default. */
  const DEFAULT_PK_FIELD := "id"

  /** Two records clash on a UNIQUE column when both hold the same non-NULL
      value there (SQL lets any number of NULLs through). */
  predicate SameUniqueValue(a: Row, b: Row, uniqueColumns: set<string>) {
    exists c :: c in uniqueColumns && c in a && c in b && a[c] != JNull && a[c] == b[c]
  }

  /** Storing `row` under `key` would break a UNIQUE constraint. */
  predicate Clashes(rows: map<int, Row>, uniqueColumns: set<string>, key: int, row: Row) {
    exists k :: k in rows && k != key && SameUniqueValue(rows[k], row, uniqueColumns)
  }

  ghost predicate UniqueIn(rows: map<int, Row>, uniqueColumns: set<string>) {
    forall k :: k in rows ==> !Clashes(rows, uniqueColumns, k, rows[k])
  }

  lemma SameUniqueValueSymmetric(a: Row, b: Row, uniqueColumns: set<string>)
    ensures SameUniqueValue(a, b, uniqueColumns) <==> SameUniqueValue(b, a, uniqueColumns)
  {
    if SameUniqueValue(a, b, uniqueColumns) {
      var c :| c in uniqueColumns && c in a && c in b && a[c] != JNull && a[c] == b[c];
      assert b[c] != JNull && b[c] == a[c];
    }
    if SameUniqueValue(b, a, uniqueColumns) {
      var c :| c in uniqueColumns && c in b && c in a && b[c] != JNull && b[c] == a[c];
      assert a[c] != JNull && a[c] == b[c];
    }
  }

  /** Writing a record that clashes with no other record keeps the UNIQUE
      constraints. */
  lemma StoreKeepsUnique(rows: map<int, Row>, uniqueColumns: set<string>, key: int, row: Row)
    requires UniqueIn(rows, uniqueColumns)
    requires !Clashes(rows, uniqueColumns, key, row)
    ensures UniqueIn(rows[key := row], uniqueColumns)
  {
    var rows' := rows[key := row];
    forall k | k in rows' ensures !Clashes(rows', uniqueColumns, k, rows'[k]) {
      forall j | j in rows' && j != k ensures !SameUniqueValue(rows'[j], rows'[k], uniqueColumns) {
        if k == key {
          assert !SameUniqueValue(rows[j], row, uniqueColumns);
        } else if j == key {
          assert !SameUniqueValue(rows[k], row, uniqueColumns);
          SameUniqueValueSymmetric(rows[k], row, uniqueColumns);
        } else {
          assert !Clashes(rows, uniqueColumns, k, rows[k]);
        }
      }
    }
  }

  /** Removing a record keeps the UNIQUE constraints. */
  lemma RemoveKeepsUnique(rows: map<int, Row>, uniqueColumns: set<string>, key: int)
    requires UniqueIn(rows, uniqueColumns)
    ensures UniqueIn(rows - {key}, uniqueColumns)
  {
    var rows' := rows - {key};
    forall k | k in rows' ensures !Clashes(rows', uniqueColumns, k, rows'[k]) {
      assert !Clashes(rows, uniqueColumns, k, rows[k]);
      forall j | j in rows' && j != k ensures !SameUniqueValue(rows'[j], rows'[k], uniqueColumns) {
        assert j in rows;
      }
    }
  }

  /** A scan order of the table: each key once. Without ORDER BY the database
      returns the rows in an order of its choosing, which the model takes as a
      parameter. */
  ghost predicate IsScanOrder(scan: seq<int>, rows: map<int, Row>) {
    Distinct(scan) && (forall k :: k in scan <==> k in rows)
  }

  /** `order_by` names a column `get_all` sorts by: a non-empty name the model
      has. */
  predicate OrdersBy(orderBy: Option<string>, columns: set<string>) {
    orderBy.Some? && orderBy.value != "" && orderBy.value in columns
  }

  class Repository {
    /** The model's column attributes, its primary-key column and the columns
        under a UNIQUE constraint. */
    const columns: set<string>
    const pkField: string
    const uniqueColumns: set<string>
    /** The committed table. */
    var rows: map<int, Row>
    /** Next value of the primary-key sequence. */
    var nextKey: int

    ghost predicate Valid()
      reads this
    {
      && pkField in columns
      && uniqueColumns <= columns - {pkField}
      && (forall k :: k in rows ==> rows[k].Keys <= columns - {pkField})
      && UniqueIn(rows, uniqueColumns)
    }

    constructor(columns: set<string>, pkField: string, uniqueColumns: set<string>, rows: map<int, Row>, nextKey: int)
      requires pkField in columns && uniqueColumns <= columns - {pkField}
      requires forall k :: k in rows ==> rows[k].Keys <= columns - {pkField}
      requires UniqueIn(rows, uniqueColumns)
      ensures Valid()
      ensures this.columns == columns && this.pkField == pkField && this.uniqueColumns == uniqueColumns
      ensures this.rows == rows && this.nextKey == nextKey
    {
      this.columns := columns;
      this.pkField := pkField;
      this.uniqueColumns := uniqueColumns;
      this.rows := rows;
      this.nextKey := nextKey;
    }

    /** `get_by_id`: the record under that primary key. */
    function GetById(key: int): (r: Option<Row>)
      reads this
      ensures r.Some? <==> key in rows
      ensures r.Some? ==> r.value == rows[key]
    {
      if key in rows then Some(rows[key]) else None
    }

    /** `exists`: `get_by_id` finds a record. */
    function Exists(key: int): (b: bool)
      reads this
      ensures b <==> GetById(key).Some?
    {
      key in rows
    }

    /** `count`. */
    function Count(): (n: nat)
      reads this
      ensures n == |rows.Keys|
    {
      |rows.Keys|
    }

    /** `get_all`: the records after skipping `skip`, at most `limit` of them;
        in primary-key order when `order_by` names the key column, otherwise
        in the order the database returns (`scan`). */
    ghost function GetAll(skip: nat, limit: nat, orderBy: Option<string>, scan: seq<int>): (r: seq<(int, Row)>)
      reads this
      requires IsScanOrder(scan, rows)
      ensures |r| <= limit
      ensures |r| == if skip >= |rows.Keys| then 0 else Min(limit, |rows.Keys| - skip)
      ensures forall i :: 0 <= i < |r| ==> r[i].0 in rows && r[i].1 == rows[r[i].0]
      ensures forall i, j :: 0 <= i < j < |r| ==> r[i].0 != r[j].0
      ensures SortsByKey(orderBy) ==>
                forall i, j :: 0 <= i < j < |r| ==> r[i].0 < r[j].0
      ensures !SortsByKey(orderBy) ==>
                forall i :: 0 <= i < |r| ==> skip + i < |scan| && r[i].0 == scan[skip + i]
      ensures forall i :: 0 <= i < |r| ==> skip + i < |KeyOrder(orderBy, scan)| && r[i].0 == KeyOrder(orderBy, scan)[skip + i]
    {
      var keys := KeyOrder(orderBy, scan);
      PageOfRows(keys, skip, limit, rows, SortsByKey(orderBy), scan);
      RowsAt(Page(keys, skip, limit), rows)
    }

    /** `get_all` sorts by the primary-key column. */
    predicate SortsByKey(orderBy: Option<string>)
      reads this
    {
      OrdersBy(orderBy, columns) && orderBy.value == pkField
    }

    /** The order `get_all` lists the keys in, before OFFSET and LIMIT:
        ascending when it orders by the key column, otherwise the order the
        database returns, which is the `scan` parameter. */
    ghost function KeyOrder(orderBy: Option<string>, scan: seq<int>): (r: seq<int>)
      reads this
      requires IsScanOrder(scan, rows)
      ensures |r| == |rows.Keys| && Distinct(r)
      ensures forall k :: k in r <==> k in rows
      ensures SortsByKey(orderBy) ==> forall i, j :: 0 <= i < j < |r| ==> r[i] < r[j]
      ensures SortsByKey(orderBy) ==> r == Ascending(rows.Keys)
      ensures !SortsByKey(orderBy) ==> r == scan
    {
      var keys := if SortsByKey(orderBy) then Ascending(rows.Keys) else scan;
      DistinctKeysCount(keys, rows);
      keys
    }

    /** The key a record is stored under: the key column's value when the
        call sets it (None when that value is not an integer), `default`
        otherwise. */
    function TargetKey(values: map<string, Json>, default: int): (t: Option<int>)
      ensures pkField !in values ==> t == Some(default)
      ensures pkField in values ==> (t.Some? <==> values[pkField].JNumber?)
      ensures pkField in values && t.Some? ==> values[pkField] == JNumber(t.value)
    {
      if pkField !in values then Some(default)
      else if values[pkField].JNumber? then Some(values[pkField].n)
      else None
    }

    /** `create`: INSERT of one record, then COMMIT. An unknown keyword is a
        TypeError from the model's constructor; without an explicit key the
        sequence is drawn first, so a refused INSERT still consumes a value.
        A duplicate key or a UNIQUE clash is an IntegrityError and the table
        keeps its committed rows. */
    method Create(values: map<string, Json>) returns (r: Result<(int, Row)>)
      requires Valid()
      modifies this
      ensures Valid()
      ensures nextKey == if values.Keys <= columns && pkField !in values then old(nextKey) + 1 else old(nextKey)
      ensures !(values.Keys <= columns) ==> r == Err(RuntimeFailure)
      ensures values.Keys <= columns && TargetKey(values, old(nextKey)).None? ==> r == Err(RuntimeFailure)
      ensures r.Ok? <==> && values.Keys <= columns
                         && TargetKey(values, old(nextKey)).Some?
                         && TargetKey(values, old(nextKey)).value !in old(rows)
                         && !Clashes(old(rows), uniqueColumns, TargetKey(values, old(nextKey)).value, values - {pkField})
      ensures r.Err? ==> rows == old(rows)
      ensures r.Err? && values.Keys <= columns && TargetKey(values, old(nextKey)).Some? ==> r.error == IntegrityError
      ensures r.Ok? ==> r.value == (TargetKey(values, old(nextKey)).value, values - {pkField})
      ensures r.Ok? ==> rows == old(rows)[r.value.0 := r.value.1]
      ensures r.Ok? ==> Count() == old(Count()) + 1 && GetById(r.value.0) == Some(r.value.1)
    {
      if !(values.Keys <= columns) {
        return Err(RuntimeFailure);
      }
      var target := TargetKey(values, nextKey);
      if pkField !in values {
        nextKey := nextKey + 1;
      }
      if target.None? {
        return Err(RuntimeFailure);
      }
      var key, row := target.value, values - {pkField};
      if key in rows || Clashes(rows, uniqueColumns, key, row) {
        return Err(IntegrityError);
      }
      StoreKeepsUnique(rows, uniqueColumns, key, row);
      rows := rows[key := row];
      r := Ok((key, row));
    }

    /** `update`: UPDATE ... WHERE pk = key, COMMIT, then `get_by_id(key)`
        when a row matched. A missing key matches nothing: None and no change.
        Setting the key column moves the record, so the lookup by the old key
        afterwards finds nothing and the result is None as well. The updated
        record must not take another record's key or clash on a UNIQUE
        column (IntegrityError, table unchanged). */
    method Update(key: int, values: map<string, Json>) returns (r: Result<Option<Row>>)
      requires Valid()
      modifies this
      ensures Valid() && nextKey == old(nextKey)
      ensures !(values.Keys <= columns) ==> r == Err(RuntimeFailure)
      ensures values.Keys <= columns && key !in old(rows) ==> r == Ok(None)
      ensures values.Keys <= columns && key in old(rows) && TargetKey(values, key).None? ==> r == Err(RuntimeFailure)
      ensures r.Err? || key !in old(rows) ==> rows == old(rows)
      ensures values.Keys <= columns && key in old(rows) && TargetKey(values, key).Some? ==>
                var t, merged := TargetKey(values, key).value, old(rows)[key] + (values - {pkField});
                && (r.Ok? <==> (t == key || t !in old(rows)) && !Clashes(old(rows) - {key}, uniqueColumns, t, merged))
                && (r.Err? ==> r.error == IntegrityError)
                && (r.Ok? ==> rows == (old(rows) - {key})[t := merged])
                && (r.Ok? ==> r.value == if t == key then Some(merged) else None)
      ensures r.Ok? && r.value.Some? ==> GetById(key) == r.value
    {
      if !(values.Keys <= columns) {
        return Err(RuntimeFailure);
      }
      if key !in rows {
        return Ok(None);
      }
      var target := TargetKey(values, key);
      if target.None? {
        return Err(RuntimeFailure);
      }
      var t, merged := target.value, rows[key] + (values - {pkField});
      var rest := rows - {key};
      if t in rest || Clashes(rest, uniqueColumns, t, merged) {
        return Err(IntegrityError);
      }
      RemoveKeepsUnique(rows, uniqueColumns, key);
      StoreKeepsUnique(rest, uniqueColumns, t, merged);
      rows := rest[t := merged];
      r := if t == key then Ok(Some(merged)) else Ok(None);
    }

    /** `delete`: DELETE ... WHERE pk = key, COMMIT; true iff a row was
        deleted. */
    method Delete(key: int) returns (found: bool)
      requires Valid()
      modifies this
      ensures Valid() && nextKey == old(nextKey)
      ensures found <==> key in old(rows)
      ensures rows == old(rows) - {key}
      ensures found ==> Count() == old(Count()) - 1
      ensures !Exists(key)
    {
      found := key in rows;
      RemoveKeepsUnique(rows, uniqueColumns, key);
      rows := rows - {key};
    }
  }

  /** The records stored under `keys`, in that order. */
  function RowsAt(keys: seq<int>, table: map<int, Row>): (r: seq<(int, Row)>)
    requires forall i :: 0 <= i < |keys| ==> keys[i] in table
    ensures |r| == |keys|
    ensures forall i :: 0 <= i < |r| ==> r[i] == (keys[i], table[keys[i]])
  {
    seq(|keys|, i requires 0 <= i < |keys| => (keys[i], table[keys[i]]))
  }

  /** A page of a duplicate-free listing of every key holds as many rows as
      the table has past `skip`, up to `limit`, each under its own key and
      none twice, in the listing's order. */
  lemma PageOfRows(keys: seq<int>, skip: nat, limit: nat, table: map<int, Row>, ascending: bool, scan: seq<int>)
    requires |keys| == |table.Keys| && Distinct(keys) && forall k :: k in keys ==> k in table
    requires ascending ==> forall i, j :: 0 <= i < j < |keys| ==> keys[i] < keys[j]
    requires !ascending ==> keys == scan
    ensures forall i :: 0 <= i < |Page(keys, skip, limit)| ==> Page(keys, skip, limit)[i] in table
    ensures var r := RowsAt(Page(keys, skip, limit), table);
      && |r| <= limit
      && |r| == (if skip >= |table.Keys| then 0 else Min(limit, |table.Keys| - skip))
      && (forall i :: 0 <= i < |r| ==> r[i].0 in table && r[i].1 == table[r[i].0])
      && (forall i, j :: 0 <= i < j < |r| ==> r[i].0 != r[j].0)
      && (ascending ==> forall i, j :: 0 <= i < j < |r| ==> r[i].0 < r[j].0)
      && (!ascending ==> forall i :: 0 <= i < |r| ==> skip + i < |scan| && r[i].0 == scan[skip + i])
  {
    var page := Page(keys, skip, limit);
    assert forall i :: 0 <= i < |page| ==> page[i] == keys[skip + i] && keys[skip + i] in keys;
  }

  /** A duplicate-free list of exactly the table's keys has one entry per
      record. */
  lemma DistinctKeysCount(keys: seq<int>, rows: map<int, Row>)
    requires Distinct(keys) && forall k :: k in keys <==> k in rows
    ensures |keys| == |rows.Keys|
  {
    ElementsCard(keys);
    assert Elements(keys) == rows.Keys;
  }
}
