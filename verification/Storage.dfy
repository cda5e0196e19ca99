/**
 The `storage` table of one relation's SQLite file, together with the vacuum watermark kept in
 its `meta` table, and the statements that change them.
 */
module Storage {
  import opened Xids

  type Bytes = seq<bv8>
  type Rowid = int

  /** A row's MVCC bookkeeping. A zero `xmax` means that nobody has deleted the row. */
  datatype Header = Header(xmin: Xid, cmin: nat, xmax: Xid, cmax: nat)

  datatype Row = Row(header: Header, tuple: Bytes)

  type Rows = map<Rowid, Row>

  /** What a reader makes of the rows: the tuples that it sees. */
  type Table = map<Rowid, Bytes>

  /** `watermark` is the `last_vacuum_xmin` entry of `meta`, 0 if there is none. */
  datatype Store = Store(rows: Rows, watermark: Xid)

  const EMPTY: Store := Store(map[], 0)

  // ---- rowids ----

  ghost function Pick<T>(s: set<T>): (x: T)
    requires |s| > 0
    ensures x in s
  {
    var x :| x in s;
    x
  }

  ghost function MaxOf(s: set<int>): (m: int)
    requires |s| > 0
    ensures m in s && forall x :: x in s ==> x <= m
  {
    var x := Pick(s);
    if s == {x} then x
    else
      assert s == (s - {x}) + {x};
      var rest := MaxOf(s - {x});
      if x < rest then rest else x
  }

  /** SQLite's choice for an INTEGER PRIMARY KEY without AUTOINCREMENT: one above the largest. */
  ghost function NextRowid(rows: Rows): (k: Rowid)
    ensures k !in rows
    ensures forall j :: j in rows ==> j < k
    ensures (forall j :: j in rows ==> 1 <= j) ==> 1 <= k
  {
    if rows == map[] then 1 else MaxOf(rows.Keys) + 1
  }

  lemma SameKeysSameRowid(a: Rows, b: Rows)
    requires a.Keys == b.Keys
    ensures NextRowid(a) == NextRowid(b)
  {
    assert a == map[] <==> a.Keys == {};
    assert b == map[] <==> b.Keys == {};
  }

  // ---- statements ----

  ghost function InsertRow(s: Store, xmin: Xid, cmin: nat, tuple: Bytes): (r: (Store, Rowid)) {
    var k := NextRowid(s.rows);
    (s.(rows := s.rows[k := Row(Header(xmin, cmin, 0, 0), tuple)]), k)
  }

  /** `insert_batch`: the same statement stepped once for each tuple. */
  ghost function InsertBatch(s: Store, xmin: Xid, cmin: nat, tuples: seq<Bytes>): (r: (Store, seq<Rowid>))
    ensures |r.1| == |tuples|
  {
    if tuples == [] then (s, [])
    else
      var (s1, ks) := InsertBatch(s, xmin, cmin, tuples[..|tuples| - 1]);
      var (s2, k) := InsertRow(s1, xmin, cmin, tuples[|tuples| - 1]);
      (s2, ks + [k])
  }

  /** The rows that `UPDATE ... WHERE rowid = k AND xmax = 0` matches. */
  predicate Stampable(s: Store, k: Rowid) {
    k in s.rows && s.rows[k].header.xmax == 0
  }

  function Stamped(row: Row, xmax: Xid, cmax: nat): (r: Row) {
    row.(header := row.header.(xmax := xmax, cmax := cmax))
  }

  /** `set_xmax`: the new contents and the number of rows affected. */
  function SetXmax(s: Store, k: Rowid, xmax: Xid, cmax: nat): (r: (Store, nat)) {
    if Stampable(s, k) then (s.(rows := s.rows[k := Stamped(s.rows[k], xmax, cmax)]), 1) else (s, 0)
  }

  /** `update_row`: the insert happens whether or not the stamp matched a row. */
  ghost function UpdateRow(s: Store, k: Rowid, xid: Xid, cid: nat, tuple: Bytes): (r: (Store, Rowid)) {
    InsertRow(SetXmax(s, k, xid, cid).0, xid, cid, tuple)
  }

  function PhysicalDelete(s: Store, k: Rowid): (r: (Store, nat)) {
    (s.(rows := s.rows - {k}), if k in s.rows then 1 else 0)
  }

  /** The rows that `DELETE ... WHERE xmax != 0 AND xmax < h` matches, by SQLite's signed order. */
  predicate Reclaimed(row: Row, h: Xid) {
    Bind(row.header.xmax) != 0 && SqlBelow(row.header.xmax, h)
  }

  function ReclaimedKeys(s: Store, h: Xid): (ks: set<Rowid>) {
    set k | k in s.rows && Reclaimed(s.rows[k], h)
  }

  /** `vacuum_dead`: skipped by unsigned comparison with the watermark, otherwise deletes and records. */
  function VacuumDead(s: Store, h: Xid): (r: (Store, nat)) {
    if h <= s.watermark then (s, 0)
    else (Store(s.rows - ReclaimedKeys(s, h), h), |ReclaimedKeys(s, h)|)
  }

  /** The count that `set_xmax` returns is the number of rows that it changed: at most the one row. */
  lemma StampCounts(s: Store, k: Rowid, xmax: Xid, cmax: nat)
    requires xmax != 0
    ensures
      var (t, n) := SetXmax(s, k, xmax, cmax);
      && t.rows.Keys == s.rows.Keys && t.watermark == s.watermark
      && (set j | j in s.rows && t.rows[j] != s.rows[j]) == (if n == 0 then {} else {k})
      && (n == 1 <==> k in s.rows && s.rows[k].header.xmax == 0) && n <= 1
      && (n == 1 ==> t.rows[k].header.xmax == xmax && t.rows[k].header.cmax == cmax)
  {
    var (t, n) := SetXmax(s, k, xmax, cmax);
    assert n == 1 ==> t.rows[k].header.xmax != s.rows[k].header.xmax;
  }

  /** A physical delete leaves no trace of the row, touches no other, and returns how many it removed. */
  lemma DeleteCounts(s: Store, k: Rowid)
    ensures
      var (t, n) := PhysicalDelete(s, k);
      && k !in t.rows && t.watermark == s.watermark && n == |s.rows| - |t.rows|
      && (forall j :: j in s.rows && j != k ==> j in t.rows && t.rows[j] == s.rows[j])
      && (forall j :: j in t.rows ==> j in s.rows)
  {
    assert (s.rows - {k}).Keys == s.rows.Keys - {k};
  }

  /** The count that a vacuum returns is the number of rows that it removed. */
  lemma VacuumCounts(s: Store, h: Xid)
    ensures VacuumDead(s, h).1 == |s.rows| - |VacuumDead(s, h).0.rows|
  {
    var dead := ReclaimedKeys(s, h);
    assert dead <= s.rows.Keys && (s.rows - dead).Keys == s.rows.Keys - dead;
    assert |s.rows.Keys - dead| == |s.rows.Keys| - |dead|;
  }

  // ---- reading in rowid order ----

  datatype StoredRow = StoredRow(rowid: Rowid, row: Row)

  function RowsUpTo(rows: Rows, n: nat): (s: seq<StoredRow>) {
    if n == 0 then []
    else RowsUpTo(rows, n - 1) + if n in rows then [StoredRow(n, rows[n])] else []
  }

  ghost predicate PositiveRowids(rows: Rows) {
    forall k :: k in rows ==> 1 <= k
  }

  /** `select_all`: every physical row, by ascending rowid. */
  ghost function SelectAll(rows: Rows): (s: seq<StoredRow>)
    requires PositiveRowids(rows)
  {
    RowsUpTo(rows, NextRowid(rows) - 1)
  }

  predicate Ascending(s: seq<StoredRow>) {
    forall i, j :: 0 <= i < j < |s| ==> s[i].rowid < s[j].rowid
  }

  lemma {:induction false} RowsUpToIsOrdered(rows: Rows, n: nat)
    ensures Ascending(RowsUpTo(rows, n))
    ensures forall i :: 0 <= i < |RowsUpTo(rows, n)| ==>
      var r := RowsUpTo(rows, n)[i]; 1 <= r.rowid <= n && r.rowid in rows && rows[r.rowid] == r.row
    ensures forall k :: k in rows && 1 <= k <= n ==> StoredRow(k, rows[k]) in RowsUpTo(rows, n)
  {
    if n > 0 {
      RowsUpToIsOrdered(rows, n - 1);
    }
  }

  /** A full read lists each physical row exactly once, in rowid order, and nothing else. */
  lemma SelectAllIsExact(rows: Rows)
    requires PositiveRowids(rows)
    ensures Ascending(SelectAll(rows))
    ensures forall r :: r in SelectAll(rows) <==> r.rowid in rows && rows[r.rowid] == r.row
  {
    RowsUpToIsOrdered(rows, NextRowid(rows) - 1);
  }

  /** `t` is `s` with one new, unstamped row for each tuple, in order, under increasing rowids. */
  ghost predicate Added(s: Store, t: Store, ks: seq<Rowid>, xmin: Xid, cmin: nat, tuples: seq<Bytes>) {
    && |ks| == |tuples| && t.watermark == s.watermark
    && (forall i :: 0 <= i < |ks| ==> ks[i] !in s.rows && ks[i] in t.rows)
    && (forall i :: 0 <= i < |ks| ==> t.rows[ks[i]] == Row(Header(xmin, cmin, 0, 0), tuples[i]))
    && (forall i, j :: 0 <= i < j < |ks| ==> ks[i] < ks[j])
    && (forall k :: k in t.rows ==> k in s.rows || k in ks)
    && (forall k :: k in s.rows ==> k in t.rows && t.rows[k] == s.rows[k])
  }

  lemma AddOneMore(s: Store, b: (Store, seq<Rowid>), xmin: Xid, cmin: nat, tuples: seq<Bytes>)
    requires tuples != [] && Added(s, b.0, b.1, xmin, cmin, tuples[..|tuples| - 1])
    ensures
      var (t, k) := InsertRow(b.0, xmin, cmin, tuples[|tuples| - 1]);
      Added(s, t, b.1 + [k], xmin, cmin, tuples)
  {
  }

  /** A batch is one insert for each tuple and touches no other row. */
  lemma {:induction false} InsertBatchIsExact(s: Store, xmin: Xid, cmin: nat, tuples: seq<Bytes>)
    ensures
      var b := InsertBatch(s, xmin, cmin, tuples);
      Added(s, b.0, b.1, xmin, cmin, tuples)
  {
    if tuples != [] {
      var less := tuples[..|tuples| - 1];
      InsertBatchIsExact(s, xmin, cmin, less);
      AddOneMore(s, InsertBatch(s, xmin, cmin, less), xmin, cmin, tuples);
    }
  }
}
