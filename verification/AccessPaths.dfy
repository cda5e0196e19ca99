/**
 The rows that the storage layer hands to a scan, whenever it is asked and whatever runs meanwhile,
 are the ones the scan's snapshot stands for.
 */
module AccessPaths {
  import opened Basics
  import opened Xids
  import opened Tids
  import opened Storage
  import opened Visibility
  import opened Protocol
  import opened Invariants
  import opened Snapshots
  import Scans

  /** A run is a step and then the rest, and a longer prefix of it is that step and a shorter prefix of the rest. */
  lemma SplitUnfolds(port: Port, w: World, run: seq<Step>, n: nat)
    requires ValidRun(port, w, run) && CleanRun(port, w, run) && 0 < n <= |run|
    ensures
      var u := Next(port, w, run[0]);
      && ValidRun(port, u, run[1..]) && CleanRun(port, u, run[1..]) && Exec(port, w, run) == Exec(port, u, run[1..])
      && run[1..][n - 1..] == run[n..]
      && (ValidRun(port, u, run[1..][..n - 1]) && CleanRun(port, u, run[1..][..n - 1]) ==>
            && ValidRun(port, w, run[..n]) && CleanRun(port, w, run[..n])
            && Exec(port, w, run[..n]) == Exec(port, u, run[1..][..n - 1]))
  {
    assert run[..n][1..] == run[1..][..n - 1];
  }

  lemma {:induction false} SplitRun(port: Port, w: World, run: seq<Step>, n: nat)
    requires ValidRun(port, w, run) && CleanRun(port, w, run) && n <= |run|
    ensures ValidRun(port, w, run[..n]) && CleanRun(port, w, run[..n])
    ensures
      var mid := Exec(port, w, run[..n]);
      && ValidRun(port, mid, run[n..]) && CleanRun(port, mid, run[n..])
      && Exec(port, mid, run[n..]) == Exec(port, w, run)
    decreases n
  {
    if n > 0 {
      SplitUnfolds(port, w, run, n);
      SplitRun(port, Next(port, w, run[0]), run[1..], n - 1);
    } else {
      assert run[..0] == [] && run[0..] == run;
    }
  }

  /** The world after the first `n` steps. */
  ghost function At(port: Port, w: World, run: seq<Step>, n: nat): (u: World)
    requires ValidRun(port, w, run) && CleanRun(port, w, run) && n <= |run|
  {
    SplitRun(port, w, run, n);
    Exec(port, w, run[..n])
  }

  /** What a snapshot of backend `b`, taken in `w`, stands for. */
  function Meant(w: World, b: Bid, r: Rel): (t: Table)
    requires b < |w.backends|
  {
    Replay(w.hist, r, ViewNow(w, b))
  }

  ghost predicate Usable(port: Port, w: World, run: seq<Step>, b: Bid, r: Rel) {
    && Inv(w) && b < |w.backends| && r < |w.files| && w.backends[b].phase == Active
    && ValidRun(port, w, run) && CleanRun(port, w, run)
    && LeavesUsable(run, b, TakeSnapshot(w, b).xmin)
  }

  /** At every moment of such a run the snapshot sees what it stands for. */
  lemma SeenAt(port: Port, w: World, run: seq<Step>, b: Bid, r: Rel, i: nat)
    requires Usable(port, w, run, b, r) && i <= |run|
    ensures
      var u := At(port, w, run, i);
      && Inv(u) && r < |u.files| && b < |u.backends|
      && Since(w, u, b, TakeSnapshot(w, b).xmin)
      && Seen(u, b, r, TakeSnapshot(w, b)) == Meant(w, b, r)
  {
    SplitRun(port, w, run, i);
    SnapshotMeaningFrom(port, w, run[..i], b, r);
  }

  lemma SinceBetween(port: Port, w: World, run: seq<Step>, b: Bid, r: Rel, i: nat, j: nat)
    requires Usable(port, w, run, b, r) && i <= j <= |run|
    ensures
      var (u, v) := (At(port, w, run, i), At(port, w, run, j));
      b < |u.backends| && Since(u, v, b, TakeSnapshot(w, b).xmin)
  {
    var u := At(port, w, run, i);
    SeenAt(port, w, run, b, r, i);
    SplitRun(port, w, run, j);
    assert run[..j][..i] == run[..i];
    SplitRun(port, w, run[..j], i);
    RunKeepsSince(port, u, u, b, TakeSnapshot(w, b).xmin, run[..j][i..]);
  }

  lemma SameVerdict(w: World, u: World, v: World, b: Bid, h: Header)
    requires b < |w.backends| && b < |u.backends| && Ordered(w) && Ordered(u) && Ordered(v)
    requires Since(w, u, b, TakeSnapshot(w, b).xmin) && Since(w, v, b, TakeSnapshot(w, b).xmin)
    requires Since(u, v, b, TakeSnapshot(w, b).xmin)
    requires FIRST_NORMAL <= h.xmin < u.nextXid && (h.xmax != 0 ==> FIRST_NORMAL <= h.xmax < u.nextXid)
    ensures RowVisible(h, EnvOf(u, b), TakeSnapshot(w, b)) == RowVisible(h, EnvOf(v, b), TakeSnapshot(w, b))
  {
    XidViewMeaning(w, u, b, h.xmin);
    XidViewMeaning(w, v, b, h.xmin);
    if h.xmax != 0 {
      XidViewMeaning(w, u, b, h.xmax);
      XidViewMeaning(w, v, b, h.xmax);
    }
  }

  /** A row read at one moment gets at any later moment the verdict that the snapshot stands for. */
  lemma VerdictIsTimeless(port: Port, w: World, run: seq<Step>, b: Bid, r: Rel, i: nat, j: nat, k: Rowid)
    requires Usable(port, w, run, b, r) && i <= j <= |run|
    requires r < |At(port, w, run, i).files| && k in CopyOf(At(port, w, run, i), b, r).rows
    ensures
      var (u, v) := (At(port, w, run, i), At(port, w, run, j));
      var row := CopyOf(u, b, r).rows[k];
      && b < |v.backends|
      && (RowVisible(row.header, EnvOf(v, b), TakeSnapshot(w, b)) <==> k in Meant(w, b, r))
      && (k in Meant(w, b, r) ==> Meant(w, b, r)[k] == row.tuple)
  {
    SeenAt(port, w, run, b, r, i);
    SeenAt(port, w, run, b, r, j);
    SinceBetween(port, w, run, b, r, i, j);
    var u, v := At(port, w, run, i), At(port, w, run, j);
    var h := CopyOf(u, b, r).rows[k].header;
    assert FileOk(u, u.files[r], r);
    SameVerdict(w, u, v, b, h);
    assert k in Seen(u, b, r, TakeSnapshot(w, b)) <==> RowVisible(h, EnvOf(u, b), TakeSnapshot(w, b));
  }

  /**
   The calls of a scan fall at the moments `at(0) <= at(1) <= ...` of a run that leaves the snapshot
   usable: other backends write, commit, abort and vacuum meanwhile, and the scanning command itself may
   insert into the relation. `current(i)` is what a full read returns at call `i`, and `visible(i, row)`
   is the verdict that `row_visible` gives then.
   */
  ghost predicate ScanCalls(port: Port, w: World, run: seq<Step>, b: Bid, r: Rel, at: nat -> nat,
                            current: nat -> seq<StoredRow>, visible: Scans.Judge)
    requires Usable(port, w, run, b, r)
  {
    && (forall i: nat, j: nat :: i <= j ==> at(i) <= at(j) <= |run|)
    && (forall i: nat :: at(i) <= |run| &&
          var u := At(port, w, run, at(i));
          && r < |u.files| && b < |u.backends| && PositiveRowids(CopyOf(u, b, r).rows)
          && current(i) == SelectAll(CopyOf(u, b, r).rows)
          && forall row :: visible(i, row) <==> RowVisible(row.row.header, EnvOf(u, b), TakeSnapshot(w, b)))
  }

  /**
   The lazy cursor cache is exact: whatever moment the cursor loads its rows, and whatever moment it
   judges them, it picks exactly the rows that the snapshot stands for.
   */
  lemma ScanReadsAreGood(port: Port, w: World, run: seq<Step>, b: Bid, r: Rel, at: nat -> nat,
                         current: nat -> seq<StoredRow>, visible: Scans.Judge, n: nat)
    requires Usable(port, w, run, b, r) && ScanCalls(port, w, run, b, r, at, current, visible)
    ensures Scans.Good(current(n), visible, n, Meant(w, b, r))
  {
    var u := At(port, w, run, at(n));
    var rows := current(n);
    var t := Meant(w, b, r);
    SeenAt(port, w, run, b, r, at(n));
    SelectAllIsExact(CopyOf(u, b, r).rows);
    forall i | 0 <= i < |rows|
      ensures rows[i].rowid in CopyOf(u, b, r).rows && CopyOf(u, b, r).rows[rows[i].rowid] == rows[i].row
    {
      assert rows[i] in rows;
    }
    forall i, j: nat | 0 <= i < |rows| && n <= j
      ensures visible(j, rows[i]) <==> rows[i].rowid in t
      ensures rows[i].rowid in t ==> rows[i].row.tuple == t[rows[i].rowid]
    {
      VerdictIsTimeless(port, w, run, b, r, at(n), at(j), rows[i].rowid);
    }
    forall k | k in t ensures exists i :: 0 <= i < |rows| && rows[i].rowid == k {
      assert k in Seen(u, b, r, TakeSnapshot(w, b));
      assert StoredRow(k, CopyOf(u, b, r).rows[k]) in rows;
    }
    assert forall i :: 0 <= i < |rows| && rows[i].rowid in t ==> (visible(n, rows[i]) <==> rows[i].rowid in t);
  }

  /**
   A sequential scan, and the same scan after `scan_rescan`, in the midst of such a run: both emit the
   rows that the snapshot stands for, byte for byte and in rowid order. In particular a command that
   inserts into the relation it scans emits exactly the rows it started with.
   */
  method SnapshotScanTwice(ghost port: Port, ghost w: World, ghost run: seq<Step>, ghost b: Bid, ghost r: Rel,
                           ghost at: nat -> nat, current: nat -> seq<StoredRow>, visible: Scans.Judge)
    returns (first: seq<Scans.Emitted>, second: seq<Scans.Emitted>)
    requires Usable(port, w, run, b, r) && ScanCalls(port, w, run, b, r, at, current, visible)
    ensures Scans.Lists(first, Meant(w, b, r)) && second == first
  {
    forall n: nat ensures Scans.Good(current(n), visible, n, Meant(w, b, r)) {
      ScanReadsAreGood(port, w, run, b, r, at, current, visible, n);
    }
    first, second := Scans.ScanTwice(current, visible, Meant(w, b, r));
  }

  /** A TID-range scan in the midst of such a run. */
  method SnapshotTidRangeScan(ghost port: Port, ghost w: World, ghost run: seq<Step>, ghost b: Bid, ghost r: Rel,
                              ghost at: nat -> nat, current: nat -> seq<StoredRow>, visible: Scans.Judge, lo: Tid, hi: Tid)
    returns (out: seq<Scans.Emitted>)
    requires Usable(port, w, run, b, r) && ScanCalls(port, w, run, b, r, at, current, visible)
    requires forall k :: k in Meant(w, b, r) ==> 1 <= k <= MAX_ROWID
    ensures Scans.Lists(out, Scans.BetweenTids(Meant(w, b, r), Carried(lo), Carried(hi)))
    ensures LowerBoundExact(lo) && UpperBoundExact(hi) ==>
      Scans.Lists(out, Scans.BetweenTids(Meant(w, b, r), lo, hi))
  {
    forall n: nat ensures Scans.Good(current(n), visible, n, Meant(w, b, r)) {
      ScanReadsAreGood(port, w, run, b, r, at, current, visible, n);
    }
    out := Scans.TidRangeScan(current, visible, lo, hi, Meant(w, b, r));
  }

  /**
   The rows that a bitmap scan fetches one by one are those of the same table, and every row of it is
   among the cached rows from which lossy pages are enumerated.
   */
  lemma BitmapReadsAreGood(port: Port, w: World, run: seq<Step>, b: Bid, r: Rel, n: nat, current: seq<StoredRow>)
    requires Usable(port, w, run, b, r) && n <= |run|
    requires
      var u := At(port, w, run, n);
      && r < |u.files| && PositiveRowids(CopyOf(u, b, r).rows)
      && current == SelectAll(CopyOf(u, b, r).rows)
    ensures Scans.Holds(current, Meant(w, b, r))
    ensures
      var u := At(port, w, run, n);
      b < |u.backends| && Seen(u, b, r, TakeSnapshot(w, b)) == Meant(w, b, r)
  {
    var u := At(port, w, run, n);
    SeenAt(port, w, run, b, r, n);
    SelectAllIsExact(CopyOf(u, b, r).rows);
    forall k | k in Meant(w, b, r) ensures exists i :: 0 <= i < |current| && current[i].rowid == k {
      assert k in Seen(u, b, r, TakeSnapshot(w, b));
      assert StoredRow(k, CopyOf(u, b, r).rows[k]) in current;
    }
  }

  /**
   A bitmap scan in the midst of such a run, where `fetched(n)` is what fetches by rowid find at its
   `n`-th call. It emits each row that the snapshot stands for and whose tuple id is in the bitmap
   exactly once and nothing else, however the bitmap mixes exact and lossy pages.
   */
  method SnapshotBitmapScan(ghost port: Port, ghost w: World, ghost run: seq<Step>, ghost b: Bid, ghost r: Rel,
                            ghost at: nat -> nat, current: nat -> seq<StoredRow>, fetched: nat -> Table,
                            pages: seq<Scans.Page>)
    returns (out: seq<Scans.Emitted>)
    requires Usable(port, w, run, b, r) && Scans.WellFormedPages(pages)
    requires forall n: nat :: BitmapCall(port, w, run, b, r, at(n), current(n), fetched(n))
    ensures forall i, j :: 0 <= i < j < |out| ==> out[i].rowid != out[j].rowid
    ensures forall i :: 0 <= i < |out| ==>
      out[i].rowid in Meant(w, b, r) && out[i].tuple == Meant(w, b, r)[out[i].rowid]
    ensures forall k :: k in Meant(w, b, r) ==>
      (Scans.InBitmap(k, pages) <==> exists i :: 0 <= i < |out| && out[i].rowid == k)
  {
    ghost var t := Meant(w, b, r);
    forall n: nat ensures fetched(n) == t && Scans.Holds(current(n), t) && Scans.InRange(current(n)) {
      assert BitmapCall(port, w, run, b, r, at(n), current(n), fetched(n));
      BitmapReadsAreGood(port, w, run, b, r, at(n), current(n));
      SelectAllIsExact(CopyOf(At(port, w, run, at(n)), b, r).rows);
      assert forall i :: 0 <= i < |current(n)| ==> current(n)[i] in current(n);
    }
    out := Scans.BitmapScan(pages, current, fetched, t);
  }

  /** One call of a bitmap scan, at moment `n` of the run: what a full read and what fetches would find. */
  ghost predicate BitmapCall(port: Port, w: World, run: seq<Step>, b: Bid, r: Rel, n: nat,
                             current: seq<StoredRow>, fetched: Table)
    requires Usable(port, w, run, b, r)
  {
    && n <= |run|
    && (var u := At(port, w, run, n);
        && r < |u.files| && b < |u.backends|
        && (forall k :: k in CopyOf(u, b, r).rows ==> 1 <= k <= MAX_ROWID)
        && current == SelectAll(CopyOf(u, b, r).rows)
        && fetched == Seen(u, b, r, TakeSnapshot(w, b)))
  }
}
