/**
 Bottom-up index deletion: which index entries point to rows that nobody can need any more.
 */
module IndexDelete {
  import opened Basics
  import opened Xids
  import opened Tids
  import opened Storage
  import opened Visibility
  import opened Protocol
  import opened Invariants
  import opened Snapshots

  /** One index tuple: the row it points to, and its slot in the status array. */
  datatype Candidate = Candidate(tid: Tid, id: nat)

  /** The row of a candidate is gone, or its deleter committed before the horizon. */
  predicate Deletable(rows: Rows, env: XactEnv, oldest: Xid, k: Rowid) {
    k !in rows ||
    (rows[k].header.xmax != 0 && env.DidCommit(rows[k].header.xmax) && Precedes(rows[k].header.xmax, oldest))
  }

  /** `select_xmax_batch`: a rowid that is absent from the result is not physically present. */
  method SelectXmaxBatch(rows: Rows, ks: seq<Rowid>) returns (xmax: map<Rowid, Xid>)
    ensures forall k :: k in xmax <==> k in ks && k in rows
    ensures forall k :: k in xmax ==> xmax[k] == rows[k].header.xmax
  {
    xmax := map[];
    for i := 0 to |ks|
      invariant forall k :: k in xmax <==> k in ks[..i] && k in rows
      invariant forall k :: k in xmax ==> xmax[k] == rows[k].header.xmax
    {
      if ks[i] in rows {
        xmax := xmax[ks[i] := rows[ks[i]].header.xmax];
      }
    }
    assert ks[..|ks|] == ks;
  }

  /** The xids of the deleters of the reclaimed rows. */
  ghost function RemovedXids(rows: Rows, env: XactEnv, oldest: Xid, cs: seq<Candidate>): (s: set<Xid>) {
    if cs == [] then {}
    else
      var k := TidToRowid(cs[|cs| - 1].tid);
      RemovedXids(rows, env, oldest, cs[..|cs| - 1]) +
      if k in rows && Deletable(rows, env, oldest, k) then {rows[k].header.xmax} else {}
  }

  /** The candidate's row is still there and deletable. */
  predicate Reclaimable(rows: Rows, env: XactEnv, oldest: Xid, c: Candidate) {
    TidToRowid(c.tid) in rows && Deletable(rows, env, oldest, TidToRowid(c.tid))
  }

  lemma {:induction false} RemovedMeaning(rows: Rows, env: XactEnv, oldest: Xid, cs: seq<Candidate>, x: Xid)
    ensures x in RemovedXids(rows, env, oldest, cs) <==>
      exists j :: 0 <= j < |cs| && Reclaimable(rows, env, oldest, cs[j]) && rows[TidToRowid(cs[j].tid)].header.xmax == x
  {
    if cs != [] {
      var n := |cs| - 1;
      RemovedMeaning(rows, env, oldest, cs[..n], x);
      if j :| 0 <= j < n && Reclaimable(rows, env, oldest, cs[..n][j]) && rows[TidToRowid(cs[..n][j].tid)].header.xmax == x {
        assert cs[j] == cs[..n][j];
      }
      if j :| 0 <= j < n && Reclaimable(rows, env, oldest, cs[j]) && rows[TidToRowid(cs[j].tid)].header.xmax == x {
        assert cs[..n][j] == cs[j];
      }
    }
  }

  /**
   What the returned xid is for: it is that of a reclaimed row, or 0 if there is none, and no reclaimed row's
   deleter follows it as long as all of them lie in one half-range window.
   */
  ghost predicate IsConflictHorizon(latest: Xid, rows: Rows, env: XactEnv, oldest: Xid, cs: seq<Candidate>, top: Xid) {
    && ((forall j :: 0 <= j < |cs| ==> !Reclaimable(rows, env, oldest, cs[j])) ==> latest == 0)
    && ((exists j :: 0 <= j < |cs| && Reclaimable(rows, env, oldest, cs[j])) ==>
          exists j :: 0 <= j < |cs| && Reclaimable(rows, env, oldest, cs[j]) && rows[TidToRowid(cs[j].tid)].header.xmax == latest)
    && ((forall j :: 0 <= j < |cs| && Reclaimable(rows, env, oldest, cs[j]) ==>
           var x := rows[TidToRowid(cs[j].tid)].header.xmax; FIRST_NORMAL <= x && Age(x, top) < TWO31) ==>
        forall j :: 0 <= j < |cs| && Reclaimable(rows, env, oldest, cs[j]) ==>
          !Follows(rows[TidToRowid(cs[j].tid)].header.xmax, latest))
  }

  lemma NewestIsHorizon(latest: Xid, rows: Rows, env: XactEnv, oldest: Xid, cs: seq<Candidate>, top: Xid)
    requires NewestOf(latest, RemovedXids(rows, env, oldest, cs), top)
    ensures IsConflictHorizon(latest, rows, env, oldest, cs, top)
  {
    var s := RemovedXids(rows, env, oldest, cs);
    forall x: Xid ensures x in s <==>
      exists j :: 0 <= j < |cs| && Reclaimable(rows, env, oldest, cs[j]) && rows[TidToRowid(cs[j].tid)].header.xmax == x
    {
      RemovedMeaning(rows, env, oldest, cs, x);
    }
    forall j | 0 <= j < |cs| && Reclaimable(rows, env, oldest, cs[j]) ensures rows[TidToRowid(cs[j].tid)].header.xmax in s {
    }
  }

  /** Some candidate for slot `i` is deletable. */
  predicate SlotDeletable(rows: Rows, env: XactEnv, oldest: Xid, cs: seq<Candidate>, i: nat) {
    exists j :: 0 <= j < |cs| && cs[j].id == i && Deletable(rows, env, oldest, TidToRowid(cs[j].tid))
  }

  /** Following the newest xid seen so far keeps it newest, as long as all lie in one window. */
  ghost predicate NewestOf(latest: Xid, s: set<Xid>, top: Xid) {
    && (s == {} ==> latest == 0)
    && (s != {} ==> latest in s)
    && (InWindow(s, top) ==> forall x :: x in s ==> !Follows(x, latest))
  }

  lemma NewestExtends(latest: Xid, s: set<Xid>, x: Xid, top: Xid)
    requires NewestOf(latest, s, top) && x != 0
    ensures NewestOf(if Follows(x, latest) then x else latest, s + {x}, top)
  {
    var next := if Follows(x, latest) then x else latest;
    if s == {} {
      assert Follows(x, 0);
      assert s + {x} == {x};
    } else if InWindow(s + {x}, top) {
      forall y | y in s ensures y in s + {x} {
      }
      assert x in s + {x} && latest in s + {x};
      assert InWindow(s, top);
      forall y | y in s + {x} ensures !Follows(y, next) {
        if y != x {
          assert y in s;
          assert !Follows(y, latest);
        }
        WindowOrder(y, next, top);
        WindowOrder(y, latest, top);
        WindowOrder(x, latest, top);
      }
    }
  }

  /**
   `index_delete_tuples`. It marks exactly the slots of deletable candidates and unmarks none; it
   reports zero candidates if and only if none is deletable; and the xid that it returns does not
   precede that of any reclaimed row, whenever those xids lie in one half-range window.
   */
  method IndexDeleteTuples(rows: Rows, env: XactEnv, oldest: Xid, cs: seq<Candidate>, status: array<bool>, ghost top: Xid)
    returns (ndeltids: nat, latest: Xid)
    requires forall i :: 0 <= i < |cs| ==> cs[i].id < status.Length
    modifies status
    ensures forall i :: 0 <= i < status.Length ==>
      (status[i] <==> old(status[i]) || SlotDeletable(rows, env, oldest, cs, i))
    ensures ndeltids == if exists j :: 0 <= j < |cs| && Deletable(rows, env, oldest, TidToRowid(cs[j].tid)) then |cs| else 0
    ensures IsConflictHorizon(latest, rows, env, oldest, cs, top)
  {
    ndeltids, latest := |cs|, 0;
    if |cs| == 0 {
      NewestIsHorizon(latest, rows, env, oldest, cs, top);
      return;
    }
    var ks := seq(|cs|, i requires 0 <= i < |cs| => TidToRowid(cs[i].tid));
    var xmaxOf := SelectXmaxBatch(rows, ks);
    var anyDeletable := false;
    for n := 0 to |cs|
      invariant forall i :: 0 <= i < status.Length ==>
        (status[i] <==> old(status[i]) || SlotDeletable(rows, env, oldest, cs[..n], i))
      invariant anyDeletable <==> exists j :: 0 <= j < n && Deletable(rows, env, oldest, TidToRowid(cs[j].tid))
      invariant NewestOf(latest, RemovedXids(rows, env, oldest, cs[..n]), top)
    {
      var k := ks[n];
      assert k in ks;
      assert cs[..n + 1][..n] == cs[..n] && cs[..n + 1][n] == cs[n];
      var deletable := k !in xmaxOf ||
        (xmaxOf[k] != 0 && env.DidCommit(xmaxOf[k]) && Precedes(xmaxOf[k], oldest));
      if deletable {
        status[cs[n].id] := true;
        anyDeletable := true;
        if k in xmaxOf {
          NewestExtends(latest, RemovedXids(rows, env, oldest, cs[..n]), xmaxOf[k], top);
          if Follows(xmaxOf[k], latest) {
            latest := xmaxOf[k];
          }
        }
      }
      forall i: nat ensures SlotDeletable(rows, env, oldest, cs[..n + 1], i) <==>
        SlotDeletable(rows, env, oldest, cs[..n], i) || (cs[n].id == i && deletable)
      {
        SlotExtends(rows, env, oldest, cs, n, i);
      }
    }
    assert cs[..|cs|] == cs;
    NewestIsHorizon(latest, rows, env, oldest, cs, top);
    if !anyDeletable {
      ndeltids := 0;
    }
  }

  lemma SlotExtends(rows: Rows, env: XactEnv, oldest: Xid, cs: seq<Candidate>, n: nat, i: nat)
    requires n < |cs|
    ensures SlotDeletable(rows, env, oldest, cs[..n + 1], i) <==>
      || SlotDeletable(rows, env, oldest, cs[..n], i)
      || (cs[n].id == i && Deletable(rows, env, oldest, TidToRowid(cs[n].tid)))
  {
    var more, less := cs[..n + 1], cs[..n];
    if SlotDeletable(rows, env, oldest, less, i) {
      var j :| 0 <= j < |less| && less[j].id == i && Deletable(rows, env, oldest, TidToRowid(less[j].tid));
      assert more[j] == less[j];
    }
    assert more[n] == cs[n];
  }

  /** From a usable snapshot's point of view, the working copy shows what the reader's own copy shows. */
  lemma WorkReproduces(w0: World, w: World, b: Bid, r: Rel)
    requires b < |w0.backends| && Ordered(w0) && Inv(w) && r < |w.files|
    requires Since(w0, w, b, TakeSnapshot(w0, b).xmin)
    ensures Visible(w.files[r].work.rows, View(w0.committed, w.backends[b].xid, w0.backends[b].cid)) ==
            Seen(w, b, r, TakeSnapshot(w0, b))
  {
    var v := View(w0.committed, w.backends[b].xid, w0.backends[b].cid);
    var f := w.files[r];
    assert FileOk(w, f, r) && Faithful(w, f, r);
    assert Covers(v, w.committed, f.work.watermark);
    assert Avoids(v, w.aborted);
    assert Reproduces(f.work.rows, w.hist, r, v);
    CopyReproduces(w0, w, b, r);
    SeenIsVisible(w0, w, b, r);
  }

  /** A later world in which the snapshot that backend `b` took in `w0` is still usable. */
  ghost predicate StillUsable(w0: World, w: World, b: Bid, r: Rel, oldest: Xid) {
    && b < |w0.backends| && Ordered(w0) && Inv(w) && r < |w.files|
    && Since(w0, w, b, TakeSnapshot(w0, b).xmin) && oldest <= TakeSnapshot(w0, b).xmin
  }

  /** A deleter that committed before the horizon had committed when the snapshot was taken. */
  lemma DeadForSnapshot(w0: World, w: World, b: Bid, r: Rel, d: Bid, oldest: Xid, rows: Rows, k: Rowid)
    requires StillUsable(w0, w, b, r, oldest) && d < |w.backends|
    requires rows in {w.files[r].base.rows, w.files[r].work.rows}
    requires k in rows && Deletable(rows, EnvOf(w, d), oldest, k)
    ensures rows[k].header.xmax in w0.committed && rows[k].header.xmax != 0
  {
    assert FileOk(w, w.files[r], r);
    OrdersCoincide(rows[k].header.xmax, oldest);
  }

  /** A row of another's that a writer sees is, for everybody else too, a row that is not dead. */
  lemma OthersRowIsInBase(w0: World, w: World, b: Bid, r: Rel, oldest: Xid, k: Rowid)
    requires StillUsable(w0, w, b, r, oldest) && w.files[r].writer == Some(b)
    requires k in Seen(w, b, r, TakeSnapshot(w0, b))
    requires w.files[r].work.rows[k].header.xmin != w.backends[b].xid
    ensures k in w.files[r].base.rows && w.files[r].base.rows[k].header.xmax !in w0.committed
  {
    var f, v := w.files[r], View(w0.committed, 0, 0);
    SeenIsVisible(w0, w, b, r);
    assert FileOk(w, f, r) && Faithful(w, f, r);
    assert Covers(v, w.committed, f.work.watermark) && Covers(v, w.committed, f.base.watermark);
    assert Avoids(v, w.aborted) && Avoids(v, w.aborted + f.pending);
    assert Reproduces(f.work.rows, w.hist, r, v) && Reproduces(f.base.rows, w.hist, r, v);
    assert k in Visible(f.work.rows, v);
    assert k in Visible(f.base.rows, v);
  }

  lemma SeenButDeletable(w0: World, w: World, b: Bid, r: Rel, d: Bid, oldest: Xid, k: Rowid)
    requires StillUsable(w0, w, b, r, oldest) && d < |w.backends|
    requires k in Seen(w, b, r, TakeSnapshot(w0, b))
    ensures
      var f := w.files[r];
      Deletable(CopyOf(w, d, r).rows, EnvOf(w, d), oldest, k) <==>
      && d != b && f.writer == Some(b)
      && f.work.rows[k].header.xmin == w.backends[b].xid
      && (k in f.base.rows ==> f.base.rows[k].header.xmax in w.committed && f.base.rows[k].header.xmax < oldest)
  {
    var f := w.files[r];
    SeenIsVisible(w0, w, b, r);
    WorkReproduces(w0, w, b, r);
    assert FileOk(w, f, r) && 0 !in w.committed;
    if k in f.base.rows {
      OrdersCoincide(f.base.rows[k].header.xmax, oldest);
    }
    if Deletable(CopyOf(w, d, r).rows, EnvOf(w, d), oldest, k) {
      if k in CopyOf(w, d, r).rows {
        DeadForSnapshot(w0, w, b, r, d, oldest, CopyOf(w, d, r).rows, k);
      }
      if f.writer == Some(b) && f.work.rows[k].header.xmin != w.backends[b].xid {
        OthersRowIsInBase(w0, w, b, r, oldest, k);
      }
    }
  }

  /**
   When bottom-up deletion errs, over runs. Take any run, a snapshot in it and any continuation that leaves
   it usable. Backend `d` reports a row that a usable snapshot of backend `b` sees as
   deletable if and only if it is a row that `b` itself inserted in a SQLite transaction still open, `d` is
   another backend, and SQLite has committed no row, or only a dead one, under that rowid: "not found" is
   taken to mean "vacuumed".
   */
  lemma DeletionErrsIff(port: Port, w0: World, after: seq<Step>, w: World, b: Bid, r: Rel, d: Bid, oldest: Xid, k: Rowid)
    requires Inv(w0) && CanTakeSnapshot(w0, b, r) && ReachesCleanly(port, w0, after, w)
    requires LeavesUsable(after, b, TakeSnapshot(w0, b).xmin) && oldest <= TakeSnapshot(w0, b).xmin
    requires r < |w.files| && b < |w.backends| && d < |w.backends| && k in Seen(w, b, r, TakeSnapshot(w0, b))
    ensures
      var f := w.files[r];
      Deletable(CopyOf(w, d, r).rows, EnvOf(w, d), oldest, k) <==>
      && d != b && f.writer == Some(b)
      && f.work.rows[k].header.xmin == w.backends[b].xid
      && (k in f.base.rows ==> f.base.rows[k].header.xmax in w.committed && f.base.rows[k].header.xmax < oldest)
  {
    SnapshotMeaningFrom(port, w0, after, b, r);
    SeenButDeletable(w0, w, b, r, d, oldest, k);
  }

  /**
   Safety over runs. Take any run, a snapshot in it and any continuation that leaves it usable, whoever
   else is writing; let a backend `d` then ask for bottom-up deletion with a horizon no later than the
   snapshot's xmin. No row that is reported deletable, be it gone or stamped, is seen by the snapshot,
   unless the snapshot's own backend has uncommitted work on the relation and `d` is another one.
   */
  lemma DeletedIsInvisible(port: Port, w0: World, after: seq<Step>, w: World, b: Bid, r: Rel, d: Bid, oldest: Xid, k: Rowid)
    requires Inv(w0) && CanTakeSnapshot(w0, b, r) && ReachesCleanly(port, w0, after, w)
    requires LeavesUsable(after, b, TakeSnapshot(w0, b).xmin) && oldest <= TakeSnapshot(w0, b).xmin
    requires r < |w.files| && d < |w.backends| && (w.files[r].writer != Some(b) || d == b)
    requires Deletable(CopyOf(w, d, r).rows, EnvOf(w, d), oldest, k)
    ensures b < |w.backends| && k !in Seen(w, b, r, TakeSnapshot(w0, b))
  {
    SnapshotMeaningFrom(port, w0, after, b, r);
    if k in Seen(w, b, r, TakeSnapshot(w0, b)) {
      SeenButDeletable(w0, w, b, r, d, oldest, k);
    }
  }
}
