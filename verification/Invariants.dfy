/**
 What every step of the protocol keeps.
 */
module Invariants {
  import opened Basics
  import opened Xids
  import opened Storage
  import opened Protocol

  // ---- headers seen from a point of view ----

  predicate VisibleTo(h: Header, v: View) {
    Sees(v, h.xmin, h.cmin) && (h.xmax == 0 || !Sees(v, h.xmax, h.cmax))
  }

  function Visible(rows: Rows, v: View): (t: Table) {
    map k | k in rows && VisibleTo(rows[k].header, v) :: rows[k].tuple
  }

  /** `v` knows every commit below the horizon `h`. */
  ghost predicate Covers(v: View, committed: set<Xid>, h: Xid) {
    forall x :: x in committed && x < h ==> x in v.xids
  }

  ghost predicate Avoids(v: View, xids: set<Xid>) {
    v.own !in xids && v.xids !! xids
  }

  // ---- the invariant ----

  /** Commit log, xid assignment and backends are consistent. */
  ghost predicate XidsOk(w: World) {
    && FIRST_NORMAL <= w.nextXid < TWO31
    && (forall x :: x in w.committed ==> FIRST_NORMAL <= x < w.nextXid)
    && (forall x :: x in w.aborted ==> FIRST_NORMAL <= x < w.nextXid)
    && w.committed !! w.aborted
    && (forall b :: 0 <= b < |w.backends| && w.backends[b].xid != 0 ==> IsRunning(w, w.backends[b].xid))
    && (forall b, c :: 0 <= b < c < |w.backends| && w.backends[b].xid != 0 ==>
          w.backends[b].xid != w.backends[c].xid)
    && (forall b :: 0 <= b < |w.backends| && w.backends[b].phase == Idle ==> w.backends[b] == RESTING)
    && (forall i :: 0 <= i < |w.hist| ==> FIRST_NORMAL <= w.hist[i].xid < w.nextXid)
  }

  /** Stamps are xids that were handed out, and none is below the watermark. */
  ghost predicate StoreOk(w: World, s: Store) {
    && PositiveRowids(s.rows)
    && (forall k :: k in s.rows ==> FIRST_NORMAL <= s.rows[k].header.xmin < w.nextXid)
    && (forall k :: k in s.rows && s.rows[k].header.xmax != 0 ==>
          FIRST_NORMAL <= s.rows[k].header.xmax < w.nextXid && s.watermark <= s.rows[k].header.xmax)
    && s.watermark <= w.nextXid
    && (forall x: Xid :: IsRunning(w, x) ==> s.watermark <= x)
  }

  /** Backend `b` will still visit relation `r` before its transaction can commit. */
  predicate StillToCommit(be: Backend, r: Rel) {
    match be.phase
    case Idle => false
    case Active => r in be.touched
    case Committing(todo) => r in todo
  }

  ghost predicate FileOk(w: World, f: File, r: Rel) {
    && StoreOk(w, f.base) && StoreOk(w, f.work)
    && f.base.watermark <= f.work.watermark
    && 0 !in f.pending
    && (f.writer.None? ==> f.work == f.base && f.pending == {})
    && (f.writer.Some? ==> f.writer.value < |w.backends|)
    && (forall x :: x in f.pending ==>
          || x in w.aborted
          || (f.writer.Some? && w.backends[f.writer.value].xid == x &&
              StillToCommit(w.backends[f.writer.value], r)))
  }

  /** Seen from `v`, the stored rows are the outcome of the history. */
  predicate Reproduces(rows: Rows, hist: seq<Op>, r: Rel, v: View) {
    Visible(rows, v) == Replay(hist, r, v)
  }

  /**
   The heart of the invariant. From every point of view that knows all commits below the copy's
   watermark, counts no aborted transaction and, for the committed contents, none that is still to be
   committed to SQLite, each copy reproduces the history.
   */
  ghost predicate Faithful(w: World, f: File, r: Rel) {
    && (forall v :: Covers(v, w.committed, f.work.watermark) && Avoids(v, w.aborted) ==>
          Reproduces(f.work.rows, w.hist, r, v))
    && (forall v :: Covers(v, w.committed, f.base.watermark) && Avoids(v, w.aborted + f.pending) ==>
          Reproduces(f.base.rows, w.hist, r, v))
  }

  /** What every step keeps, even a vacuum that destroys data. */
  ghost predicate Ordered(w: World) {
    XidsOk(w) && forall r :: 0 <= r < |w.files| ==> FileOk(w, w.files[r], r)
  }

  /** What every step keeps as long as vacuums are clean. */
  ghost predicate Inv(w: World) {
    Ordered(w) && forall r :: 0 <= r < |w.files| ==> Faithful(w, w.files[r], r)
  }

  /** The row will never be seen again: its deleter committed, or its inserter aborted. */
  predicate Dead(w: World, row: Row) {
    row.header.xmax in w.committed || row.header.xmin in w.aborted
  }

  /** A vacuum that removes only dead rows. Every other step is clean. */
  ghost predicate Clean(w: World, s: Step)
    requires Enabled(w, s)
  {
    s.Vacuum? ==>
      forall k :: k in ReclaimedKeys(w.files[s.r].work, s.h) ==> Dead(w, w.files[s.r].work.rows[k])
  }

  // ---- replaying ----

  lemma {:induction false} ReplayExtends(hist: seq<Op>, ops: seq<Op>, r: Rel, v: View)
    requires forall i :: 0 <= i < |ops| ==> ops[i].rel != r || !Sees(v, ops[i].xid, ops[i].cid)
    ensures Replay(hist + ops, r, v) == Replay(hist, r, v)
    decreases |ops|
  {
    if ops == [] {
      assert hist + ops == hist;
    } else {
      var n := |ops| - 1;
      assert (hist + ops)[..|hist| + n] == hist + ops[..n];
      ReplayExtends(hist, ops[..n], r, v);
    }
  }

  lemma ReplayOne(hist: seq<Op>, op: Op, r: Rel, v: View)
    ensures Replay(hist + [op], r, v) ==
      if op.rel == r && Sees(v, op.xid, op.cid) then ApplyOp(Replay(hist, r, v), op) else Replay(hist, r, v)
  {
    assert (hist + [op])[..|hist|] == hist;
  }

  /** Two points of view that agree on every change in the history replay it alike. */
  lemma {:induction false} ReplayCongruence(hist: seq<Op>, r: Rel, u: View, v: View)
    requires forall i :: 0 <= i < |hist| ==>
      (Sees(u, hist[i].xid, hist[i].cid) <==> Sees(v, hist[i].xid, hist[i].cid))
    ensures Replay(hist, r, u) == Replay(hist, r, v)
  {
    if hist != [] {
      ReplayCongruence(hist[..|hist| - 1], r, u, v);
    }
  }

  // ---- what the storage statements do to the visible table ----

  lemma InsertShows(s: Store, x: Xid, c: nat, tuple: Bytes, v: View)
    ensures
      var (s', k) := InsertRow(s, x, c, tuple);
      Visible(s'.rows, v) == if Sees(v, x, c) then Visible(s.rows, v)[k := tuple] else Visible(s.rows, v)
  {
  }

  lemma StampHides(s: Store, k: Rowid, x: Xid, c: nat, v: View)
    requires Stampable(s, k) && x != 0
    ensures
      var s' := SetXmax(s, k, x, c).0;
      Visible(s'.rows, v) == if Sees(v, x, c) then Visible(s.rows, v) - {k} else Visible(s.rows, v)
  {
  }

  lemma VacuumHidesNothing(s: Store, h: Xid, v: View)
    requires forall k :: k in ReclaimedKeys(s, h) ==> !VisibleTo(s.rows[k].header, v)
    ensures Visible(VacuumDead(s, h).0.rows, v) == Visible(s.rows, v)
  {
    var s' := VacuumDead(s, h).0;
    forall k | k in s.rows && k !in s'.rows ensures !VisibleTo(s.rows[k].header, v) {
      assert k in ReclaimedKeys(s, h);
    }
  }

  // ---- one step keeps the order ----

  /** A store in order stays so while no xid starts running and none is taken back. */
  lemma StoreOkFrame(w: World, u: World, s: Store)
    requires StoreOk(w, s) && w.nextXid <= u.nextXid
    requires forall x: Xid :: IsRunning(u, x) ==> IsRunning(w, x) || w.nextXid <= x
    ensures StoreOk(u, s)
  {
  }

  lemma FileOkFrame(w: World, u: World, f: File, r: Rel)
    requires FileOk(w, f, r) && w.nextXid <= u.nextXid
    requires forall x: Xid :: IsRunning(u, x) ==> IsRunning(w, x) || w.nextXid <= x
    requires w.aborted <= u.aborted && |w.backends| == |u.backends|
    requires f.writer.Some? ==>
      var be, be' := w.backends[f.writer.value], u.backends[f.writer.value];
      be.xid != 0 && StillToCommit(be, r) ==>
        be.xid in u.aborted || (be'.xid == be.xid && StillToCommit(be', r))
    ensures FileOk(u, f, r)
  {
    StoreOkFrame(w, u, f.base);
    StoreOkFrame(w, u, f.work);
  }

  lemma WriteKeepsOrder(w: World, b: Bid, r: Rel, s: Store, ops: seq<Op>)
    requires Ordered(w) && CanWrite(w, b, r)
    requires forall i :: 0 <= i < |ops| ==> ops[i].xid == w.backends[b].xid != 0
    requires StoreOk(w, s) && w.files[r].work.watermark <= s.watermark
    ensures Ordered(Write(w, b, r, s, ops))
  {
    var u := Write(w, b, r, s, ops);
    assert forall x: Xid :: IsRunning(u, x) <==> IsRunning(w, x);
    forall q | 0 <= q < |u.files| ensures FileOk(u, u.files[q], q) {
      var f := w.files[q];
      assert FileOk(w, f, q);
      if q == r {
        StoreOkFrame(w, u, f.base);
        StoreOkFrame(w, u, s);
      } else {
        FileOkFrame(w, u, f, q);
      }
    }
  }

  /** After a vacuum, run or skipped, no stored stamp is below the horizon. */
  lemma VacuumKeepsStore(w: World, s: Store, h: Xid)
    requires XidsOk(w) && StoreOk(w, s) && IsHorizon(w, h)
    ensures StoreOk(w, VacuumDead(s, h).0)
    ensures h <= VacuumDead(s, h).0.watermark && s.watermark <= VacuumDead(s, h).0.watermark
  {
    forall k | k in s.rows && k !in ReclaimedKeys(s, h)
      ensures s.rows[k].header.xmax != 0 ==> h <= s.rows[k].header.xmax
    {
      OrdersCoincide(s.rows[k].header.xmax, h);
    }
    forall x: Xid | IsRunning(w, x) ensures h <= x {
      assert x in Running(w);
    }
  }

  lemma StatementsKeepStore(w: World, s: Store, x: Xid, c: nat, k: Rowid, tuple: Bytes)
    requires StoreOk(w, s) && IsRunning(w, x)
    ensures StoreOk(w, InsertRow(s, x, c, tuple).0)
    ensures StoreOk(w, SetXmax(s, k, x, c).0)
    ensures StoreOk(w, PhysicalDelete(s, k).0)
  {
  }

  lemma NewWorkOk(w: World, s: Step)
    requires Ordered(w) && IsWrite(s) && Enabled(w, s)
    ensures StoreOk(w, NewWork(w, s)) && w.files[s.r].work.watermark <= NewWork(w, s).watermark
  {
    var t, be := w.files[s.r].work, w.backends[s.b];
    assert FileOk(w, w.files[s.r], s.r);
    match s
    case Insert(_, _, tuple) => StatementsKeepStore(w, t, be.xid, be.cid, 0, tuple);
    case Delete(_, _, k) => StatementsKeepStore(w, t, be.xid, be.cid, k, []);
    case Update(_, _, k, tuple) =>
      StatementsKeepStore(w, t, be.xid, be.cid, k, []);
      StatementsKeepStore(w, SetXmax(t, k, be.xid, be.cid).0, be.xid, be.cid, k, tuple);
    case Retract(_, _, k) => StatementsKeepStore(w, t, be.xid, be.cid, k, []);
    case Vacuum(_, _, h) => VacuumKeepsStore(w, t, h);
  }

  lemma CommitFileKeepsOrder(w: World, b: Bid, r: Rel)
    requires Ordered(w) && Enabled(w, Step.CommitFile(b, r))
    ensures Ordered(Next(Zig, w, Step.CommitFile(b, r)))
  {
    var u := Next(Zig, w, Step.CommitFile(b, r));
    assert forall x: Xid :: IsRunning(u, x) <==> IsRunning(w, x);
    forall q | 0 <= q < |u.files| ensures FileOk(u, u.files[q], q) {
      var f := w.files[q];
      assert FileOk(w, f, q);
      if q == r && f.writer == Some(b) {
        StoreOkFrame(w, u, f.work);
      } else {
        FileOkFrame(w, u, f, q);
      }
    }
  }

  /** The commit record is written only when no SQLite transaction holds work of its xid. */
  lemma NothingPendingAtCommit(w: World, b: Bid, f: File, r: Rel)
    requires Ordered(w) && Enabled(w, CommitRecord(b)) && FileOk(w, f, r)
    ensures w.backends[b].xid !in f.pending
  {
  }

  lemma CommitRecordKeepsOrder(w: World, b: Bid)
    requires Ordered(w) && Enabled(w, CommitRecord(b))
    ensures Ordered(Next(Zig, w, CommitRecord(b)))
  {
    var u := Next(Zig, w, CommitRecord(b));
    assert forall x: Xid :: IsRunning(u, x) ==> IsRunning(w, x);
    forall r | 0 <= r < |u.files| ensures FileOk(u, u.files[r], r) {
      var f := w.files[r];
      assert FileOk(w, f, r);
      NothingPendingAtCommit(w, b, f, r);
      StoreOkFrame(w, u, f.base);
      StoreOkFrame(w, u, f.work);
    }
  }

  lemma AbortKeepsOrder(w: World, b: Bid)
    requires Ordered(w) && b < |w.backends|
    ensures Ordered(Aborted(w, b))
  {
    var u := Aborted(w, b);
    assert forall x: Xid :: IsRunning(u, x) ==> IsRunning(w, x);
    forall r | 0 <= r < |u.files| ensures FileOk(u, u.files[r], r) {
      var f := w.files[r];
      assert FileOk(w, f, r);
      if u.files[r] == f {
        FileOkFrame(w, u, f, r);
      } else {
        StoreOkFrame(w, u, f.base);
      }
    }
  }

  lemma CrashKeepsOrder(w: World)
    requires Ordered(w)
    ensures Ordered(Crashed(w))
  {
    var u := Crashed(w);
    assert forall x: Xid :: !IsRunning(u, x);
    forall r | 0 <= r < |u.files| ensures FileOk(u, u.files[r], r) {
      var f := w.files[r];
      assert FileOk(w, f, r);
      StoreOkFrame(w, u, f.base);
      forall x | x in f.pending ensures x in u.aborted {
        assert x in w.aborted || x in Running(w);
      }
    }
  }

  lemma BookkeepingKeepsOrder(port: Port, w: World, s: Step)
    requires Ordered(w) && Enabled(w, s) && (s.Begin? || s.NextCommand? || s.Touch? || s.SkipVacuum? || s.PreCommit?)
    ensures Ordered(Next(port, w, s))
  {
    var u := Next(port, w, s);
    assert forall x: Xid :: IsRunning(u, x) <==> IsRunning(w, x);
    forall r | 0 <= r < |u.files| ensures FileOk(u, u.files[r], r) {
      assert FileOk(w, w.files[r], r);
      FileOkFrame(w, u, w.files[r], r);
    }
  }

  lemma AssignXidKeepsOrder(w: World, b: Bid)
    requires Ordered(w) && Enabled(w, AssignXid(b))
    ensures Ordered(Next(Zig, w, AssignXid(b)))
  {
    var u := Next(Zig, w, AssignXid(b));
    assert u.backends[b].xid == w.nextXid;
    assert forall x: Xid :: IsRunning(u, x) <==> IsRunning(w, x) || x == w.nextXid;
    forall r | 0 <= r < |u.files| ensures FileOk(u, u.files[r], r) {
      assert FileOk(w, w.files[r], r);
      FileOkFrame(w, u, w.files[r], r);
    }
  }

  lemma StepKeepsOrder(port: Port, w: World, s: Step)
    requires Ordered(w) && Enabled(w, s)
    ensures Ordered(Next(port, w, s))
  {
    if IsWrite(s) {
      NewWorkOk(w, s);
      WriteKeepsOrder(w, s.b, s.r, NewWork(w, s), Logged(w, s));
    } else {
      match s
      case AssignXid(b) => AssignXidKeepsOrder(w, b);
      case CommitFile(b, r) => CommitFileKeepsOrder(w, b, r);
      case CommitRecord(b) => CommitRecordKeepsOrder(w, b);
      case Abort(b) => AbortKeepsOrder(w, b);
      case LateAbort(b) => AbortKeepsOrder(w, b);
      case Crash => CrashKeepsOrder(w);
      case _ => BookkeepingKeepsOrder(port, w, s);
    }
  }

  // ---- one step keeps the copies faithful ----

  /** A write keeps every copy faithful if it keeps the working copy of its own relation so. */
  lemma WriteKeepsFaithful(w: World, b: Bid, r: Rel, s: Store, ops: seq<Op>)
    requires Inv(w) && CanWrite(w, b, r)
    requires forall i :: 0 <= i < |ops| ==> ops[i].rel == r && ops[i].xid == w.backends[b].xid != 0
    requires forall v :: Covers(v, w.committed, s.watermark) && Avoids(v, w.aborted) ==>
      Reproduces(s.rows, w.hist + ops, r, v)
    ensures
      var u := Write(w, b, r, s, ops);
      forall q :: 0 <= q < |u.files| ==> Faithful(u, u.files[q], q)
  {
    var u := Write(w, b, r, s, ops);
    forall q | 0 <= q < |u.files| ensures Faithful(u, u.files[q], q) {
      var f, g := w.files[q], u.files[q];
      assert Faithful(w, f, q);
      forall v | Covers(v, u.committed, g.base.watermark) && Avoids(v, u.aborted + g.pending)
        ensures Reproduces(g.base.rows, u.hist, q, v)
      {
        assert Avoids(v, w.aborted + f.pending);
        assert Reproduces(f.base.rows, w.hist, q, v);
        ReplayExtends(w.hist, ops, q, v);
      }
      if q != r {
        forall v | Covers(v, u.committed, g.work.watermark) && Avoids(v, u.aborted)
          ensures Reproduces(g.work.rows, u.hist, q, v)
        {
          assert Reproduces(f.work.rows, w.hist, q, v);
          ReplayExtends(w.hist, ops, q, v);
        }
      }
    }
  }

  lemma InsertReproduces(s: Store, hist: seq<Op>, r: Rel, x: Xid, c: nat, tuple: Bytes, v: View)
    requires Reproduces(s.rows, hist, r, v)
    ensures
      var (s', k) := InsertRow(s, x, c, tuple);
      Reproduces(s'.rows, hist + [Ins(r, k, x, c, tuple)], r, v)
  {
    InsertShows(s, x, c, tuple, v);
    ReplayOne(hist, Ins(r, InsertRow(s, x, c, tuple).1, x, c, tuple), r, v);
  }

  lemma StampReproduces(s: Store, hist: seq<Op>, r: Rel, x: Xid, c: nat, k: Rowid, v: View)
    requires Reproduces(s.rows, hist, r, v) && Stampable(s, k) && x != 0
    ensures Reproduces(SetXmax(s, k, x, c).0.rows, hist + [Del(r, k, x, c)], r, v)
  {
    StampHides(s, k, x, c, v);
    ReplayOne(hist, Del(r, k, x, c), r, v);
  }

  lemma RetractReproduces(s: Store, hist: seq<Op>, r: Rel, x: Xid, c: nat, k: Rowid, v: View)
    requires Reproduces(s.rows, hist, r, v)
    requires k in s.rows && s.rows[k].header == Header(x, c, 0, s.rows[k].header.cmax)
    ensures Reproduces(PhysicalDelete(s, k).0.rows, hist + [Del(r, k, x, c)], r, v)
  {
    assert Visible(PhysicalDelete(s, k).0.rows, v) == Visible(s.rows, v) - {k};
    ReplayOne(hist, Del(r, k, x, c), r, v);
  }

  /** A retracted row is gone for good: unlike a deleted one it cannot come back, whatever becomes of its xid. */
  lemma RetractLeavesNothing(w: World, s: Step)
    requires s.Retract? && Enabled(w, s)
    ensures s.k !in NewWork(w, s).rows && |NewWork(w, s).rows| == |w.files[s.r].work.rows| - 1
    ensures forall j :: j in w.files[s.r].work.rows && j != s.k ==>
      j in NewWork(w, s).rows && NewWork(w, s).rows[j] == w.files[s.r].work.rows[j]
  {
    var t := w.files[s.r].work;
    DeleteCounts(t, s.k);
    assert (t.rows - {s.k}).Keys == t.rows.Keys - {s.k};
  }

  lemma UpdateReproduces(s: Store, hist: seq<Op>, r: Rel, x: Xid, c: nat, k: Rowid, tuple: Bytes, v: View)
    requires Reproduces(s.rows, hist, r, v) && Stampable(s, k) && x != 0
    ensures
      var (s', j) := UpdateRow(s, k, x, c, tuple);
      Reproduces(s'.rows, hist + [Del(r, k, x, c), Ins(r, j, x, c, tuple)], r, v)
  {
    var del := Del(r, k, x, c);
    StampReproduces(s, hist, r, x, c, k, v);
    var (mid, j) := UpdateRow(s, k, x, c, tuple);
    InsertReproduces(SetXmax(s, k, x, c).0, hist + [del], r, x, c, tuple, v);
    assert hist + [del, Ins(r, j, x, c, tuple)] == hist + [del] + [Ins(r, j, x, c, tuple)];
  }

  lemma VacuumReproduces(w: World, s: Step, v: View)
    requires Ordered(w) && s.Vacuum? && Enabled(w, s) && Clean(w, s)
    requires Reproduces(w.files[s.r].work.rows, w.hist, s.r, v)
    requires Covers(v, w.committed, s.h) && Avoids(v, w.aborted)
    ensures Reproduces(VacuumDead(w.files[s.r].work, s.h).0.rows, w.hist, s.r, v)
  {
    var t := w.files[s.r].work;
    assert FileOk(w, w.files[s.r], s.r);
    forall k | k in ReclaimedKeys(t, s.h) ensures !VisibleTo(t.rows[k].header, v) {
      OrdersCoincide(t.rows[k].header.xmax, s.h);
    }
    VacuumHidesNothing(t, s.h, v);
  }

  /** From any one point of view, a statement changes the working copy as it changes the replayed table. */
  lemma WriteReproduces(w: World, s: Step, v: View)
    requires Ordered(w) && IsWrite(s) && Enabled(w, s) && Clean(w, s)
    requires Covers(v, w.committed, NewWork(w, s).watermark) && Avoids(v, w.aborted)
    requires Reproduces(w.files[s.r].work.rows, w.hist, s.r, v)
    ensures Reproduces(NewWork(w, s).rows, w.hist + Logged(w, s), s.r, v)
  {
    var t, be := w.files[s.r].work, w.backends[s.b];
    match s
    case Insert(_, r, tuple) => InsertReproduces(t, w.hist, r, be.xid, be.cid, tuple, v);
    case Delete(_, r, k) =>
      if Stampable(t, k) {
        StampReproduces(t, w.hist, r, be.xid, be.cid, k, v);
      } else {
        assert w.hist + [] == w.hist;
      }
    case Update(_, r, k, tuple) =>
      if Stampable(t, k) {
        UpdateReproduces(t, w.hist, r, be.xid, be.cid, k, tuple, v);
      } else {
        InsertReproduces(t, w.hist, r, be.xid, be.cid, tuple, v);
      }
    case Retract(_, r, k) => RetractReproduces(t, w.hist, r, be.xid, be.cid, k, v);
    case Vacuum(_, _, _) =>
      assert w.hist + [] == w.hist;
      VacuumReproduces(w, s, v);
  }

  /** If nothing is taken back, a file that is unchanged, committed or rolled back stays faithful. */
  lemma StaysFaithful(w: World, u: World, f: File, g: File, r: Rel)
    requires Faithful(w, f, r) && u.hist == w.hist && w.committed <= u.committed && w.aborted <= u.aborted
    requires
      || (g.base == f.base && g.work == f.work && g.pending == f.pending)
      || (g.base == g.work == f.work && g.pending == {})
      || (g.base == g.work == f.base && g.pending == {} && f.pending <= u.aborted)
    ensures Faithful(u, g, r)
  {
    forall v, h | Covers(v, u.committed, h) ensures Covers(v, w.committed, h) {
    }
    forall v | Avoids(v, u.aborted) ensures Avoids(v, w.aborted) {
    }
  }

  /** What a rollback loses belongs to aborted transactions. */
  lemma RollbackLosesAborted(port: Port, w: World, s: Step, r: Rel)
    requires Ordered(w) && Enabled(w, s) && (s.Abort? || s.LateAbort? || s.Crash?) && r < |w.files|
    ensures
      var u := Next(port, w, s);
      u.files[r] == w.files[r] || (u.files[r] == RolledBack(w.files[r]) && w.files[r].pending <= u.aborted)
  {
    var u := Next(port, w, s);
    assert FileOk(w, w.files[r], r);
    forall x | x in w.files[r].pending && u.files[r] != w.files[r] ensures x in u.aborted {
      assert s.Crash? && x !in w.aborted ==> x in Running(w);
    }
  }

  lemma StepKeepsInv(port: Port, w: World, s: Step)
    requires Inv(w) && Enabled(w, s) && Clean(w, s)
    ensures Inv(Next(port, w, s))
  {
    StepKeepsOrder(port, w, s);
    if IsWrite(s) {
      var f, t := w.files[s.r], NewWork(w, s);
      NewWorkOk(w, s);
      forall v | Covers(v, w.committed, t.watermark) && Avoids(v, w.aborted)
        ensures Reproduces(t.rows, w.hist + Logged(w, s), s.r, v)
      {
        assert Faithful(w, f, s.r) && Covers(v, w.committed, f.work.watermark);
        WriteReproduces(w, s, v);
      }
      WriteKeepsFaithful(w, s.b, s.r, t, Logged(w, s));
    } else {
      var u := Next(port, w, s);
      forall r | 0 <= r < |u.files| ensures Faithful(u, u.files[r], r) {
        assert Faithful(w, w.files[r], r);
        if s.Abort? || s.LateAbort? || s.Crash? {
          RollbackLosesAborted(port, w, s, r);
        }
        StaysFaithful(w, u, w.files[r], u.files[r], r);
      }
    }
  }

  // ---- whole runs ----

  ghost predicate CleanRun(port: Port, w: World, run: seq<Step>)
    requires ValidRun(port, w, run)
    decreases run
  {
    run == [] || (Clean(w, run[0]) && CleanRun(port, Next(port, w, run[0]), run[1..]))
  }

  lemma InitHasInv(nfiles: nat, nbackends: nat)
    ensures Inv(Init(nfiles, nbackends))
  {
  }

  lemma {:induction false} RunKeepsOrder(port: Port, w: World, run: seq<Step>)
    requires Ordered(w) && ValidRun(port, w, run)
    ensures Ordered(Exec(port, w, run))
    decreases run
  {
    if run != [] {
      StepKeepsOrder(port, w, run[0]);
      RunKeepsOrder(port, Next(port, w, run[0]), run[1..]);
    }
  }

  /** Every state that a run reaches satisfies the invariant, whatever crashes and failures it had. */
  lemma {:induction false} RunKeepsInv(port: Port, w: World, run: seq<Step>)
    requires Inv(w) && ValidRun(port, w, run) && CleanRun(port, w, run)
    ensures Inv(Exec(port, w, run))
    decreases run
  {
    if run != [] {
      StepKeepsInv(port, w, run[0]);
      RunKeepsInv(port, Next(port, w, run[0]), run[1..]);
    }
  }
}
