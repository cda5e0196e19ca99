/**
 CLUSTER and VACUUM FULL: the live rows are streamed from the old relation into a fresh one.
 */
module Cluster {
  import opened Xids
  import opened Storage
  import opened Visibility

  /** The tuples that a snapshot sees, in rowid order. */
  ghost function SeenTuples(rows: seq<StoredRow>, env: XactEnv, snap: Snapshot): (s: seq<Bytes>) {
    if rows == [] then []
    else
      var last := rows[|rows| - 1];
      SeenTuples(rows[..|rows| - 1], env, snap) +
      if RowVisible(last.row.header, env, snap) then [last.row.tuple] else []
  }

  function LiveTuples(rows: seq<StoredRow>): (s: seq<Bytes>) {
    if rows == [] then []
    else
      var last := rows[|rows| - 1];
      LiveTuples(rows[..|rows| - 1]) + if last.row.header.xmax == 0 then [last.row.tuple] else []
  }

  /** A relation freshly filled by one command: rows 1, 2, ... with the same stamp. */
  predicate FilledBy(rows: seq<StoredRow>, xid: Xid, cid: nat, tuples: seq<Bytes>) {
    && |rows| == |tuples|
    && forall i :: 0 <= i < |rows| ==> rows[i] == StoredRow(i + 1, Row(Header(xid, cid, 0, 0), tuples[i]))
  }

  lemma {:induction false} RowsUpToFrame(a: Rows, b: Rows, n: nat)
    requires forall k :: 1 <= k <= n ==> (k in a <==> k in b) && (k in a ==> a[k] == b[k])
    ensures RowsUpTo(a, n) == RowsUpTo(b, n)
  {
    if n > 0 {
      RowsUpToFrame(a, b, n - 1);
    }
  }

  /** What a full read of an empty relation returns after the tuples have been inserted by one command. */
  lemma {:induction false} InsertsFill(xid: Xid, cid: nat, tuples: seq<Bytes>)
    ensures
      var rows := InsertBatch(EMPTY, xid, cid, tuples).0.rows;
      && PositiveRowids(rows) && NextRowid(rows) == |tuples| + 1
      && FilledBy(SelectAll(rows), xid, cid, tuples)
  {
    if tuples != [] {
      var n := |tuples|;
      var t := InsertBatch(EMPTY, xid, cid, tuples[..n - 1]).0;
      InsertsFill(xid, cid, tuples[..n - 1]);
      var rows := InsertRow(t, xid, cid, tuples[n - 1]).0.rows;
      assert rows == InsertBatch(EMPTY, xid, cid, tuples).0.rows;
      assert NextRowid(rows) == n + 1 by {
        assert n in rows;
      }
      RowsUpToFrame(rows, t.rows, n - 1);
    }
  }

  /** `relation_copy_for_cluster`: whatever is not stamped is copied, whatever is stamped is counted dead. */
  method CopyForCluster(rows: seq<StoredRow>, xid: Xid, cid: nat) returns (copy: seq<StoredRow>, live: nat, dead: nat)
    ensures FilledBy(copy, xid, cid, LiveTuples(rows))
    ensures
      var stored := InsertBatch(EMPTY, xid, cid, LiveTuples(rows)).0.rows;
      PositiveRowids(stored) && copy == SelectAll(stored)
    ensures live == |copy| && live + dead == |rows|
  {
    copy, live, dead := [], 0, 0;
    for n := 0 to |rows|
      invariant FilledBy(copy, xid, cid, LiveTuples(rows[..n]))
      invariant live == |copy| && live + dead == n
    {
      assert rows[..n + 1][..n] == rows[..n];
      var row := rows[n].row;
      if row.header.xmax != 0 {
        dead := dead + 1;
      } else {
        copy := copy + [StoredRow(|copy| + 1, Row(Header(xid, cid, 0, 0), row.tuple))];
        live := live + 1;
      }
    }
    assert rows[..|rows|] == rows;
    InsertsFill(xid, cid, LiveTuples(rows));
  }

  /** The transaction has committed or is the current one. */
  predicate Done(x: Xid, env: XactEnv) {
    x in env.mine || env.DidCommit(x)
  }

  /** The stamp tells the truth: an unstamped row has been inserted, and a stamped one, if inserted, deleted. */
  predicate SettledRow(h: Header, env: XactEnv) {
    if h.xmax == 0 then Done(h.xmin, env) else Done(h.xmin, env) ==> Done(h.xmax, env)
  }

  predicate Settled(rows: seq<StoredRow>, env: XactEnv) {
    forall i :: 0 <= i < |rows| ==> SettledRow(rows[i].row.header, env)
  }

  /** On settled rows the latest snapshot sees exactly what carries no stamp. */
  lemma {:induction false} LiveIsSeen(rows: seq<StoredRow>, env: XactEnv, snap: Snapshot)
    requires env.Valid() && TakenIn(snap, env) && Settled(rows, env)
    requires forall i :: 0 <= i < |rows| ==> CommandsBelow(rows[i].row.header, env, snap.curcid)
    ensures SeenTuples(rows, env, snap) == LiveTuples(rows)
  {
    if rows != [] {
      var n := |rows| - 1;
      LiveIsSeen(rows[..n], env, snap);
      MvccAgreesWithSelf(rows[n].row.header, env, snap);
    }
  }

  lemma {:induction false} AllOfCopyIsSeen(copy: seq<StoredRow>, xid: Xid, cid: nat, tuples: seq<Bytes>, env: XactEnv, snap: Snapshot)
    requires FilledBy(copy, xid, cid, tuples) && xid in env.mine && cid < snap.curcid && snap.kind == SnapMvcc
    ensures SeenTuples(copy, env, snap) == tuples
  {
    if copy != [] {
      var n := |copy| - 1;
      AllOfCopyIsSeen(copy[..n], xid, cid, tuples[..n], env, snap);
      assert tuples == tuples[..n] + [tuples[n]];
    }
  }

  /**
   CLUSTER preserves meaning: with no concurrent writer, a snapshot past the copying command sees in the
   new relation the same sequence of tuples as in the old one.
   */
  lemma ClusterPreservesMeaning(rows: seq<StoredRow>, copy: seq<StoredRow>, xid: Xid, cid: nat, env: XactEnv, snap: Snapshot)
    requires env.Valid() && TakenIn(snap, env) && Settled(rows, env)
    requires forall i :: 0 <= i < |rows| ==> CommandsBelow(rows[i].row.header, env, snap.curcid)
    requires FilledBy(copy, xid, cid, LiveTuples(rows)) && xid in env.mine && cid < snap.curcid
    ensures SeenTuples(copy, env, snap) == SeenTuples(rows, env, snap)
  {
    LiveIsSeen(rows, env, snap);
    AllOfCopyIsSeen(copy, xid, cid, LiveTuples(rows), env, snap);
  }

  /**
   When a single row breaks it. The copy keeps the row exactly when it carries no stamp, the old
   relation shows it exactly when SnapshotSelf sees it; they agree if and only if the row is
   settled.
   */
  lemma RowSurvivesIff(h: Header, env: XactEnv, snap: Snapshot)
    requires env.Valid() && TakenIn(snap, env) && CommandsBelow(h, env, snap.curcid)
    ensures (h.xmax == 0 <==> RowVisible(h, env, snap)) <==> SettledRow(h, env)
  {
    MvccAgreesWithSelf(h, env, snap);
  }
}
