/**
 Reading through an index: the entries that `build_index`, inserts and updates create, and the fetch by
 tuple id that filters them by visibility. Entries are never taken back when a transaction aborts.
 */
module IndexPath {
  import opened Basics
  import opened Xids
  import opened Tids
  import opened Storage
  import opened Protocol
  import opened Invariants
  import opened Snapshots
  import opened Rowids

  /** The indexed value of a tuple. */
  type KeyOf = Bytes -> Bytes

  datatype Entry = Entry(key: Bytes, tid: Tid)

  // ---- building ----

  /** The rows that `build_index` enters: those without a stamp. Visibility is left to the fetch. */
  predicate Built(rows: seq<StoredRow>, key: KeyOf, e: Entry) {
    exists i :: 0 <= i < |rows| && rows[i].row.header.xmax == 0 && 1 <= rows[i].rowid <= MAX_ROWID &&
      e == Entry(key(rows[i].row.tuple), RowidToTid(rows[i].rowid))
  }

  /** The positions of the rows without a stamp. */
  ghost function Live(rows: seq<StoredRow>): (s: set<int>) {
    set i | 0 <= i < |rows| && rows[i].row.header.xmax == 0
  }

  /** `build_index`: the entries handed to the index, and the number of rows reported. */
  method BuildIndex(rows: seq<StoredRow>, key: KeyOf) returns (entries: set<Entry>, reltuples: nat)
    requires forall i :: 0 <= i < |rows| ==> 1 <= rows[i].rowid <= MAX_ROWID
    ensures forall e :: e in entries <==> Built(rows, key, e)
    ensures reltuples == |Live(rows)|
  {
    entries, reltuples := {}, 0;
    for n := 0 to |rows|
      invariant forall e :: e in entries <==> Built(rows[..n], key, e)
      invariant reltuples == |Live(rows[..n])|
    {
      ghost var before := entries;
      assert Live(rows[..n + 1]) == if rows[n].row.header.xmax == 0 then Live(rows[..n]) + {n} else Live(rows[..n]);
      if rows[n].row.header.xmax == 0 {
        var entry := Entry(key(rows[n].row.tuple), RowidToTid(rows[n].rowid));
        entries := entries + {entry};
        reltuples := reltuples + 1;
      }
      forall e ensures e in entries <==> Built(rows[..n + 1], key, e) {
        BuiltExtends(rows, n, key, e);
      }
    }
    assert rows[..|rows|] == rows;
  }

  lemma BuiltExtends(rows: seq<StoredRow>, n: nat, key: KeyOf, e: Entry)
    requires n < |rows| && 1 <= rows[n].rowid <= MAX_ROWID
    ensures Built(rows[..n + 1], key, e) <==>
      || Built(rows[..n], key, e)
      || (rows[n].row.header.xmax == 0 && e == Entry(key(rows[n].row.tuple), RowidToTid(rows[n].rowid)))
  {
    var more, less := rows[..n + 1], rows[..n];
    if Built(less, key, e) {
      var i :| 0 <= i < |less| && less[i].row.header.xmax == 0 && 1 <= less[i].rowid <= MAX_ROWID &&
        e == Entry(key(less[i].row.tuple), RowidToTid(less[i].rowid));
      assert more[i] == less[i];
    }
    assert more[n] == rows[n];
  }

  // ---- where rows come from ----

  /** A change from position `n` of the history on inserted this tuple as row `k`. */
  ghost predicate Inserted(hist: seq<Op>, n: nat, r: Rel, k: Rowid, tuple: Bytes) {
    exists i :: n <= i < |hist| && hist[i] == Ins(r, k, hist[i].xid, hist[i].cid, tuple)
  }

  ghost predicate Rooted(hist: seq<Op>, r: Rel, rows: Rows) {
    forall k :: k in rows ==> Inserted(hist, 0, r, k, rows[k].tuple)
  }

  /** A stamp that is not in `base` yet was set by the open SQLite transaction. */
  ghost predicate NewStampsPending(f: File) {
    forall k :: k in f.base.rows && k in f.work.rows && f.work.rows[k].header.xmax != 0 ==>
      f.base.rows[k].header.xmax == f.work.rows[k].header.xmax || f.work.rows[k].header.xmax in f.pending
  }

  /** The rows on which an index was built, the xids committed by then, and the length of the history. */
  datatype Origin = Origin(rows: Rows, settled: set<Xid>, n: nat)

  /** Each row of the copy was inserted since, or is a row of the origin and kept its inserter and settled stamp. */
  ghost predicate Descends(o: Origin, hist: seq<Op>, r: Rel, rows: Rows) {
    forall k :: k in rows ==> Inserted(hist, o.n, r, k, rows[k].tuple) || SameRow(o, k, rows[k])
  }

  ghost predicate SameRow(o: Origin, k: Rowid, row: Row) {
    && k in o.rows && o.rows[k].tuple == row.tuple && o.rows[k].header.xmin == row.header.xmin
    && (o.rows[k].header.xmax in o.settled ==> row.header.xmax == o.rows[k].header.xmax)
  }

  lemma InsertedExtends(hist: seq<Op>, ops: seq<Op>, n: nat, r: Rel, k: Rowid, tuple: Bytes)
    requires Inserted(hist, n, r, k, tuple)
    ensures Inserted(hist + ops, n, r, k, tuple)
  {
    var i :| n <= i < |hist| && hist[i] == Ins(r, k, hist[i].xid, hist[i].cid, tuple);
    assert (hist + ops)[i] == hist[i];
  }

  lemma DescendsExtends(o: Origin, hist: seq<Op>, ops: seq<Op>, r: Rel, rows: Rows)
    requires Descends(o, hist, r, rows)
    ensures Descends(o, hist + ops, r, rows)
  {
    forall k | k in rows && Inserted(hist, o.n, r, k, rows[k].tuple)
      ensures Inserted(hist + ops, o.n, r, k, rows[k].tuple)
    {
      InsertedExtends(hist, ops, o.n, r, k, rows[k].tuple);
    }
  }

  /** What a statement does to one row: it keeps the tuple, and a stamp if there is one, or inserts it. */
  lemma StatementOnRow(w: World, s: Step, k: Rowid)
    requires IsWrite(s) && Enabled(w, s) && k in NewWork(w, s).rows
    ensures
      var old_, new_ := w.files[s.r].work.rows, NewWork(w, s).rows;
      || (k in old_ && new_[k].tuple == old_[k].tuple && new_[k].header.xmin == old_[k].header.xmin &&
          (new_[k].header == old_[k].header ||
           (old_[k].header.xmax == 0 && new_[k].header.xmax == w.backends[s.b].xid)))
      || (k !in old_ && new_[k].header.xmax == 0 && Inserted(w.hist + Logged(w, s), |w.hist|, s.r, k, new_[k].tuple))
  {
    var ops := Logged(w, s);
    if k !in w.files[s.r].work.rows {
      var i := |ops| - 1;
      assert (w.hist + ops)[|w.hist| + i] == ops[i];
    }
  }

  lemma WriteKeepsDescends(w: World, s: Step, o: Origin)
    requires IsWrite(s) && Enabled(w, s) && o.n <= |w.hist| && 0 !in o.settled
    requires Descends(o, w.hist, s.r, w.files[s.r].work.rows)
    ensures Descends(o, w.hist + Logged(w, s), s.r, NewWork(w, s).rows)
  {
    var before, after := w.files[s.r].work.rows, NewWork(w, s).rows;
    DescendsExtends(o, w.hist, Logged(w, s), s.r, before);
    forall k | k in after
      ensures Inserted(w.hist + Logged(w, s), o.n, s.r, k, after[k].tuple) || SameRow(o, k, after[k])
    {
      StatementOnRow(w, s, k);
    }
  }

  /** Both copies of relation `r` descend from the origin. */
  ghost predicate FileDescends(o: Origin, w: World, r: Rel)
    requires r < |w.files|
  {
    && o.n <= |w.hist| && 0 !in o.settled
    && Descends(o, w.hist, r, w.files[r].base.rows) && Descends(o, w.hist, r, w.files[r].work.rows)
  }

  lemma StepKeepsDescends(port: Port, w: World, s: Step, o: Origin, r: Rel)
    requires Enabled(w, s) && r < |w.files| && FileDescends(o, w, r)
    ensures r < |Next(port, w, s).files| && FileDescends(o, Next(port, w, s), r)
  {
    StepGrows(port, w, s);
    if IsWrite(s) {
      DescendsExtends(o, w.hist, Logged(w, s), r, w.files[r].base.rows);
      if s.r == r {
        WriteKeepsDescends(w, s, o);
      } else {
        DescendsExtends(o, w.hist, Logged(w, s), r, w.files[r].work.rows);
      }
    }
  }

  lemma {:induction false} RunKeepsDescends(port: Port, w: World, run: seq<Step>, o: Origin, r: Rel)
    requires ValidRun(port, w, run) && r < |w.files| && FileDescends(o, w, r)
    ensures r < |Exec(port, w, run).files| && FileDescends(o, Exec(port, w, run), r)
    decreases run
  {
    if run != [] {
      StepKeepsDescends(port, w, run[0], o, r);
      RunKeepsDescends(port, Next(port, w, run[0]), run[1..], o, r);
    }
  }

  /** With nothing to begin with, descending means being rooted in the history. */
  lemma DescendsFromNothing(hist: seq<Op>, r: Rel, rows: Rows)
    ensures Descends(Origin(map[], {}, 0), hist, r, rows) <==> Rooted(hist, r, rows)
  {
  }

  lemma StepKeepsNewStamps(port: Port, w: World, s: Step, r: Rel)
    requires Enabled(w, s) && r < |w.files| && NewStampsPending(w.files[r])
    ensures NewStampsPending(Next(port, w, s).files[r])
  {
    if IsWrite(s) && s.r == r {
      forall k | k in NewWork(w, s).rows
        ensures k in w.files[r].work.rows ==>
          NewWork(w, s).rows[k].header.xmax == w.files[r].work.rows[k].header.xmax ||
          NewWork(w, s).rows[k].header.xmax == w.backends[s.b].xid
        ensures k !in w.files[r].work.rows ==> NewWork(w, s).rows[k].header.xmax == 0
      {
        StatementOnRow(w, s, k);
      }
    }
  }

  lemma {:induction false} RunKeepsNewStamps(port: Port, w: World, run: seq<Step>, r: Rel)
    requires ValidRun(port, w, run) && r < |w.files| && NewStampsPending(w.files[r])
    ensures r < |Exec(port, w, run).files| && NewStampsPending(Exec(port, w, run).files[r])
    decreases run
  {
    if run != [] {
      StepKeepsNewStamps(port, w, run[0], r);
      RunKeepsNewStamps(port, Next(port, w, run[0]), run[1..], r);
    }
  }

  // ---- the agreement ----

  /**
   The situation in which an index is built by backend `c`: nobody else has uncommitted work on the
   relation (CREATE INDEX locks writers out), and the builder still holds every committed row (VACUUM
   does not run inside a transaction block).
   */
  ghost predicate CanBuild(w: World, c: Bid, r: Rel) {
    && r < |w.files| && c < |w.backends|
    && (w.files[r].writer == None || w.files[r].writer == Some(c))
    && (forall k :: k in w.files[r].base.rows ==> HeldIn(w.files[r].work.rows, k, w.files[r].base.rows[k]))
  }

  predicate HeldIn(rows: Rows, k: Rowid, row: Row) {
    k in rows && rows[k].tuple == row.tuple && rows[k].header.xmin == row.header.xmin
  }

  /** The builder enters row `k`, or the row came later. */
  predicate EnteredIfThere(rows: Rows, k: Rowid) {
    k in rows ==> rows[k].header.xmax == 0
  }

  /** Every stamped row is dead. */
  ghost predicate StampedAreDead(w: World, rows: Rows) {
    forall k :: k in rows && rows[k].header.xmax != 0 ==> Dead(w, rows[k])
  }

  function OriginOf(w: World, r: Rel): (o: Origin)
    requires r < |w.files|
  {
    Origin(w.files[r].work.rows, w.committed, |w.hist|)
  }

  /** At build time, both copies descend from what the builder reads. */
  lemma BuildStarts(w: World, c: Bid, r: Rel)
    requires Ordered(w) && CanBuild(w, c, r) && NewStampsPending(w.files[r])
    ensures CopyOf(w, c, r) == w.files[r].work
    ensures FileDescends(OriginOf(w, r), w, r)
  {
    var f := w.files[r];
    assert FileOk(w, f, r);
    forall k | k in f.base.rows ensures SameRow(OriginOf(w, r), k, f.base.rows[k]) {
      assert f.work.rows[k].header.xmax in w.committed ==> f.work.rows[k].header.xmax !in f.pending;
    }
  }

  /** The index entries for a key and a rowid: from the build, or from an insert or update since. */
  ghost predicate HasEntry(entries: set<Entry>, hist: seq<Op>, n: nat, r: Rel, key: KeyOf, value: Bytes, k: Rowid)
    requires 1 <= k <= MAX_ROWID
  {
    || Entry(value, RowidToTid(k)) in entries
    || exists tuple :: key(tuple) == value && Inserted(hist, n, r, k, tuple)
  }

  /** An index built on the origin of the rows, and a history since then that issues no rowid again. */
  ghost predicate Indexed(o: Origin, hist: seq<Op>, r: Rel, key: KeyOf, entries: set<Entry>) {
    && o.n <= |hist| && PositiveRowids(o.rows) && Rooted(hist[..o.n], r, o.rows) && FreshFrom(hist, o.n, r)
    && forall e :: e in entries <==> Built(SelectAll(o.rows), key, e)
  }

  /** A rowid issued since the build was not issued before, so its row has the tuple inserted then. */
  lemma SinceBuildOnly(o: Origin, hist: seq<Op>, r: Rel, now: Rows, k: Rowid, tuple: Bytes)
    requires o.n <= |hist| && Rooted(hist[..o.n], r, o.rows) && FreshFrom(hist, o.n, r)
    requires Descends(o, hist, r, now) && k in now && Inserted(hist, o.n, r, k, tuple)
    ensures k !in o.rows && now[k].tuple == tuple
  {
    var i :| o.n <= i < |hist| && hist[i] == Ins(r, k, hist[i].xid, hist[i].cid, tuple);
    var j :| o.n <= j < |hist| && hist[j] == Ins(r, k, hist[j].xid, hist[j].cid, now[k].tuple);
    assert i == j;
  }

  /** The entries of the build are those of its unstamped rows. */
  lemma BuiltEntries(o: Origin, key: KeyOf, entries: set<Entry>, value: Bytes, k: Rowid)
    requires PositiveRowids(o.rows) && forall e :: e in entries <==> Built(SelectAll(o.rows), key, e)
    requires 1 <= k <= MAX_ROWID
    ensures Entry(value, RowidToTid(k)) in entries <==>
      k in o.rows && o.rows[k].header.xmax == 0 && key(o.rows[k].tuple) == value
  {
    var all, e := SelectAll(o.rows), Entry(value, RowidToTid(k));
    SelectAllIsExact(o.rows);
    PackingIsABijection(k, RowidToTid(k));
    if e in entries {
      var i :| 0 <= i < |all| && all[i].row.header.xmax == 0 && 1 <= all[i].rowid <= MAX_ROWID &&
        e == Entry(key(all[i].row.tuple), RowidToTid(all[i].rowid));
      assert all[i] in all;
      PackingIsABijection(all[i].rowid, RowidToTid(k));
    }
    if k in o.rows {
      assert StoredRow(k, o.rows[k]) in all;
    }
  }

  /** The index leads from a key to a stored row exactly when the row has the key and was not passed over. */
  lemma EntryIff(o: Origin, hist: seq<Op>, r: Rel, key: KeyOf, entries: set<Entry>, now: Rows, value: Bytes, k: Rowid)
    requires Indexed(o, hist, r, key, entries) && Descends(o, hist, r, now) && k in now && 1 <= k <= MAX_ROWID
    ensures HasEntry(entries, hist, o.n, r, key, value, k) <==>
      key(now[k].tuple) == value && EnteredIfThere(o.rows, k)
  {
    BuiltEntries(o, key, entries, value, k);
    if Inserted(hist, o.n, r, k, now[k].tuple) {
      SinceBuildOnly(o, hist, r, now, k, now[k].tuple);
    }
    if tuple :| key(tuple) == value && Inserted(hist, o.n, r, k, tuple) {
      SinceBuildOnly(o, hist, r, now, k, tuple);
    }
  }

  /** A row that was dead when the index was built is never seen again. */
  lemma DeadStaysDead(w: World, w0: World, u: World, b: Bid, r: Rel, k: Rowid)
    requires b < |w0.backends| && Ordered(w) && Ordered(w0) && Ordered(u) && r < |u.files| && r < |w.files|
    requires Since(w0, u, b, TakeSnapshot(w0, b).xmin) && w.committed <= w0.committed && w.aborted <= w0.aborted
    requires k in Seen(u, b, r, TakeSnapshot(w0, b)) && SameRow(OriginOf(w, r), k, CopyOf(u, b, r).rows[k])
    ensures !Dead(w, w.files[r].work.rows[k])
  {
    SeenIsVisible(w0, u, b, r);
    assert FileOk(u, u.files[r], r);
    assert 0 !in w0.committed;
  }

  lemma RunKeepsRooted(port: Port, w: World, run: seq<Step>, r: Rel)
    requires ValidRun(port, w, run) && r < |w.files|
    requires Rooted(w.hist, r, w.files[r].base.rows) && Rooted(w.hist, r, w.files[r].work.rows)
    ensures
      var u := Exec(port, w, run);
      r < |u.files| && Rooted(u.hist, r, u.files[r].base.rows) && Rooted(u.hist, r, u.files[r].work.rows)
  {
    var nothing := Origin(map[], {}, 0);
    DescendsFromNothing(w.hist, r, w.files[r].base.rows);
    DescendsFromNothing(w.hist, r, w.files[r].work.rows);
    RunKeepsDescends(port, w, run, nothing, r);
    var u := Exec(port, w, run);
    DescendsFromNothing(u.hist, r, u.files[r].base.rows);
    DescendsFromNothing(u.hist, r, u.files[r].work.rows);
  }

  /**
   Backend `c` builds an index in `w`; the run goes on to `w0`, where backend `b` takes a snapshot, and then
   to `u`. Since the build, nobody has inserted while the highest rowid issued was gone.
   */
  ghost predicate IndexRun(port: Port, w: World, c: Bid, r: Rel, toSnapshot: seq<Step>, w0: World, after: seq<Step>, u: World, b: Bid) {
    && CanBuild(w, c, r) && PositiveRowids(CopyOf(w, c, r).rows)
    && ReachesCleanly(port, w, toSnapshot, w0) && CanTakeSnapshot(w0, b, r)
    && ReachesCleanly(port, w0, after, u) && LeavesUsable(after, b, TakeSnapshot(w0, b).xmin)
    && KeepsHighest(port, w, toSnapshot, r) && KeepsHighest(port, w0, after, r)
  }

  /** What every run from the very beginning makes true of the state in which an index is built. */
  ghost predicate BeforeBuild(w: World, r: Rel) {
    Inv(w) && Ledger(w, r) && Rooted(w.hist, r, w.files[r].work.rows) && NewStampsPending(w.files[r])
  }

  lemma ReachedBeforeBuild(port: Port, nfiles: nat, nbackends: nat, run: seq<Step>, w: World, r: Rel)
    requires ReachesCleanly(port, Init(nfiles, nbackends), run, w) && r < |w.files|
    ensures BeforeBuild(w, r)
  {
    var init := Init(nfiles, nbackends);
    ReachedHasInv(port, nfiles, nbackends, run, w);
    RunKeepsRooted(port, init, run, r);
    RunKeepsNewStamps(port, init, run, r);
    RunKeepsLedger(port, init, run, r);
  }

  lemma RunsAreFresh(port: Port, w: World, c: Bid, r: Rel, toSnapshot: seq<Step>, w0: World, after: seq<Step>, u: World, b: Bid)
    requires BeforeBuild(w, r) && IndexRun(port, w, c, r, toSnapshot, w0, after, u, b)
    ensures |w.hist| <= |u.hist| && u.hist[..|w.hist|] == w.hist && FreshFrom(u.hist, |w.hist|, r)
  {
    RunGrows(port, w, toSnapshot);
    RunGrows(port, w0, after);
    assert u.hist[..|w.hist|] == u.hist[..|w0.hist|][..|w.hist|];
    RunIsFreshIff(port, w, toSnapshot, |w.hist|, r);
    RunKeepsLedger(port, w, toSnapshot, r);
    RunIsFreshIff(port, w0, after, |w.hist|, r);
  }

  lemma RunsDescend(port: Port, w: World, c: Bid, r: Rel, toSnapshot: seq<Step>, w0: World, after: seq<Step>, u: World, b: Bid)
    requires BeforeBuild(w, r) && IndexRun(port, w, c, r, toSnapshot, w0, after, u, b)
    ensures r < |u.files| && FileDescends(OriginOf(w, r), u, r)
  {
    BuildStarts(w, c, r);
    RunKeepsDescends(port, w, toSnapshot, OriginOf(w, r), r);
    RunKeepsDescends(port, w0, after, OriginOf(w, r), r);
  }

  /**
   The index path against the sequential path. In every such run, for every row that the snapshot sees and
   every key, the index leads from the key to the row exactly when the row has that key and was not passed
   over, because of a stamp, when the index was built. If every row that was stamped then was dead, no row
   that is seen was passed over.
   */
  lemma IndexAgreesFrom(port: Port, w: World, c: Bid, r: Rel, toSnapshot: seq<Step>, w0: World, after: seq<Step>, u: World,
                        b: Bid, key: KeyOf, entries: set<Entry>, value: Bytes, k: Rowid)
    requires BeforeBuild(w, r) && IndexRun(port, w, c, r, toSnapshot, w0, after, u, b)
    requires forall e :: e in entries <==> Built(SelectAll(CopyOf(w, c, r).rows), key, e)
    requires r < |u.files| && b < |u.backends| && k in Seen(u, b, r, TakeSnapshot(w0, b)) && 1 <= k <= MAX_ROWID
    ensures HasEntry(entries, u.hist, |w.hist|, r, key, value, k) <==>
      key(Seen(u, b, r, TakeSnapshot(w0, b))[k]) == value && EnteredIfThere(CopyOf(w, c, r).rows, k)
    ensures StampedAreDead(w, CopyOf(w, c, r).rows) ==> EnteredIfThere(CopyOf(w, c, r).rows, k)
  {
    var o, now := OriginOf(w, r), CopyOf(u, b, r).rows;
    BuildStarts(w, c, r);
    RunsAreFresh(port, w, c, r, toSnapshot, w0, after, u, b);
    RunsDescend(port, w, c, r, toSnapshot, w0, after, u, b);
    EntryIff(o, u.hist, r, key, entries, now, value, k);
    if Inserted(u.hist, o.n, r, k, now[k].tuple) {
      SinceBuildOnly(o, u.hist, r, now, k, now[k].tuple);
    } else {
      SeenRowWasNotDead(port, w, c, r, toSnapshot, w0, after, u, b, k);
    }
  }

  lemma SeenRowWasNotDead(port: Port, w: World, c: Bid, r: Rel, toSnapshot: seq<Step>, w0: World, after: seq<Step>, u: World,
                          b: Bid, k: Rowid)
    requires BeforeBuild(w, r) && IndexRun(port, w, c, r, toSnapshot, w0, after, u, b)
    requires r < |u.files| && b < |u.backends| && k in Seen(u, b, r, TakeSnapshot(w0, b))
    requires SameRow(OriginOf(w, r), k, CopyOf(u, b, r).rows[k])
    ensures !Dead(w, w.files[r].work.rows[k])
  {
    RunKeepsInv(port, w, toSnapshot);
    RunGrows(port, w, toSnapshot);
    SnapshotMeaningFrom(port, w0, after, b, r);
    DeadStaysDead(w, w0, u, b, r, k);
  }

  /** Index scan: follow the entries of a key, fetch by tuple id, keep what is visible. */
  ghost function FetchedByIndex(t: Table, entries: set<Entry>, hist: seq<Op>, n: nat, r: Rel, key: KeyOf, value: Bytes): (s: Table) {
    map k | k in t && 1 <= k <= MAX_ROWID && HasEntry(entries, hist, n, r, key, value, k) :: t[k]
  }

  /** Sequential scan with a filter on the key. */
  ghost function FilteredByKey(t: Table, key: KeyOf, value: Bytes): (s: Table) {
    map k | k in t && key(t[k]) == value :: t[k]
  }

  /**
   The same for whole scans and from the very beginning. An index scan for a key reads the rows that a
   sequential scan filtered by the key reads if and only if none of those was stamped when the index was
   built; and so it does whenever every row that was stamped then was dead.
   */
  lemma IndexScanIsFilteredScanIff(port: Port, nfiles: nat, nbackends: nat, toBuild: seq<Step>, w: World, toSnapshot: seq<Step>,
      w0: World, after: seq<Step>, u: World, c: Bid, b: Bid, r: Rel, key: KeyOf, entries: set<Entry>, value: Bytes)
    requires ReachesCleanly(port, Init(nfiles, nbackends), toBuild, w)
    requires IndexRun(port, w, c, r, toSnapshot, w0, after, u, b) && r < |u.files| && b < |u.backends|
    requires forall e :: e in entries <==> Built(SelectAll(CopyOf(w, c, r).rows), key, e)
    requires forall k :: k in CopyOf(u, b, r).rows ==> 1 <= k <= MAX_ROWID
    ensures
      var t := Seen(u, b, r, TakeSnapshot(w0, b));
      FetchedByIndex(t, entries, u.hist, |w.hist|, r, key, value) == FilteredByKey(t, key, value) <==>
      forall k :: k in FilteredByKey(t, key, value) ==> EnteredIfThere(CopyOf(w, c, r).rows, k)
    ensures StampedAreDead(w, CopyOf(w, c, r).rows) ==>
      var t := Seen(u, b, r, TakeSnapshot(w0, b));
      FetchedByIndex(t, entries, u.hist, |w.hist|, r, key, value) == FilteredByKey(t, key, value)
  {
    ReachedBeforeBuild(port, nfiles, nbackends, toBuild, w, r);
    var t, built := Seen(u, b, r, TakeSnapshot(w0, b)), CopyOf(w, c, r).rows;
    var fetched, filtered := FetchedByIndex(t, entries, u.hist, |w.hist|, r, key, value), FilteredByKey(t, key, value);
    forall k ensures k in fetched <==> k in filtered && EnteredIfThere(built, k)
      ensures k in t && StampedAreDead(w, built) ==> EnteredIfThere(built, k)
    {
      if k in t {
        IndexAgreesFrom(port, w, c, r, toSnapshot, w0, after, u, b, key, entries, value, k);
      }
    }
    if forall k :: k in filtered ==> EnteredIfThere(built, k) {
      assert fetched == filtered;
    }
  }
}
