/**
 What a snapshot sees, over whole runs: its meaning, its stability, recovery from a crash, and the
 safety of vacuum.
 */
module Snapshots {
  import opened Basics
  import opened Xids
  import opened Storage
  import opened Visibility
  import opened Protocol
  import opened Invariants

  /** The point of view of a snapshot taken now: all that has committed, and own earlier commands. */
  function ViewNow(w: World, b: Bid): (v: View)
    requires b < |w.backends|
  {
    View(w.committed, w.backends[b].xid, w.backends[b].cid)
  }

  /** The point of view of whoever comes after: exactly the committed transactions. */
  function CommittedView(w: World): (v: View) {
    View(w.committed, 0, 0)
  }

  // ---- from one world to a later one ----

  /** The step ends (or restarts) the transaction of backend `b`. */
  predicate Ends(s: Step, b: Bid) {
    match s
    case Begin(c) => c == b
    case PreCommit(c) => c == b
    case Abort(c) => c == b
    case Crash => true
    case _ => false
  }

  predicate VacuumsWithin(s: Step, horizon: Xid) {
    s.Vacuum? ==> s.h <= horizon
  }

  /** Steps that leave a snapshot of backend `b` with the given xmin usable. */
  predicate LeavesUsable(run: seq<Step>, b: Bid, xmin: Xid) {
    forall i :: 0 <= i < |run| ==> !Ends(run[i], b) && VacuumsWithin(run[i], xmin)
  }

  /** How a later world may differ from the one in which backend `b` took its snapshot. */
  ghost predicate Since(w0: World, w: World, b: Bid, xmin: Xid)
    requires b < |w0.backends|
  {
    && |w.backends| == |w0.backends| && |w.files| == |w0.files|
    && w0.nextXid <= w.nextXid
    && w0.committed <= w.committed && w0.aborted <= w.aborted
    && (forall x :: x in w.committed ==> x in w0.committed || IsRunning(w0, x) || w0.nextXid <= x)
    && |w0.hist| <= |w.hist| && w.hist[..|w0.hist|] == w0.hist
    && w.backends[b].phase == Active
    && w0.backends[b].cid <= w.backends[b].cid
    && (w.backends[b].xid == w0.backends[b].xid || (w0.backends[b].xid == 0 && w0.nextXid <= w.backends[b].xid))
    && (forall i :: |w0.hist| <= i < |w.hist| ==>
          && w.hist[i].xid !in w0.committed
          && (w.hist[i].xid == w.backends[b].xid ==> w0.backends[b].cid <= w.hist[i].cid))
    && (forall r :: 0 <= r < |w.files| ==> w.files[r].work.watermark <= xmin)
  }

  lemma WriteKeepsSince(port: Port, w0: World, w: World, b: Bid, xmin: Xid, s: Step)
    requires b < |w0.backends| && Ordered(w0) && Ordered(w) && Since(w0, w, b, xmin)
    requires IsWrite(s) && Enabled(w, s) && VacuumsWithin(s, xmin)
    ensures Since(w0, Next(port, w, s), b, xmin)
  {
    var u := Next(port, w, s);
    var x := w.backends[s.b].xid;
    assert x != 0 ==> IsRunning(w, x) && x !in w.committed;
    assert s.b != b && x != 0 ==> x != w.backends[b].xid;
    assert u.hist == w.hist + Logged(w, s);
    assert NewWork(w, s).watermark <= xmin;
  }

  lemma StepKeepsSince(port: Port, w0: World, w: World, b: Bid, xmin: Xid, s: Step)
    requires b < |w0.backends| && Ordered(w0) && Ordered(w) && Since(w0, w, b, xmin)
    requires Enabled(w, s) && !Ends(s, b) && VacuumsWithin(s, xmin)
    ensures Since(w0, Next(port, w, s), b, xmin)
  {
    if IsWrite(s) {
      WriteKeepsSince(port, w0, w, b, xmin, s);
    } else {
      assert forall r :: 0 <= r < |w.files| ==> FileOk(w, w.files[r], r);
    }
  }

  lemma {:induction false} RunKeepsSince(port: Port, w0: World, w: World, b: Bid, xmin: Xid, run: seq<Step>)
    requires b < |w0.backends| && Ordered(w0) && Ordered(w) && Since(w0, w, b, xmin)
    requires ValidRun(port, w, run) && LeavesUsable(run, b, xmin)
    ensures Since(w0, Exec(port, w, run), b, xmin)
    decreases run
  {
    if run != [] {
      StepKeepsSince(port, w0, w, b, xmin, run[0]);
      StepKeepsOrder(port, w, run[0]);
      RunKeepsSince(port, w0, Next(port, w, run[0]), b, xmin, run[1..]);
    }
  }

  /** A snapshot starts out in its own world. */
  lemma SinceStarts(w: World, b: Bid)
    requires Ordered(w) && b < |w.backends| && w.backends[b].phase == Active
    ensures Since(w, w, b, TakeSnapshot(w, b).xmin)
  {
    var xmin := TakeSnapshot(w, b).xmin;
    forall r | 0 <= r < |w.files| ensures w.files[r].work.watermark <= xmin {
      assert FileOk(w, w.files[r], r);
    }
  }

  // ---- a snapshot decides as its point of view does ----

  /** The commit log consulted later still tells what had committed when the snapshot was taken. */
  lemma XidViewMeaning(w0: World, w: World, b: Bid, x: Xid)
    requires b < |w0.backends| && Ordered(w0) && Ordered(w) && Since(w0, w, b, TakeSnapshot(w0, b).xmin)
    requires FIRST_NORMAL <= x < w.nextXid
    ensures ViewXid(x, EnvOf(w, b), TakeSnapshot(w0, b)) ==
      if x == w.backends[b].xid then OurOwnXact
      else if x in w0.committed then CommittedAndVisible else NotVisible
  {
    var snap := TakeSnapshot(w0, b);
    OrdersCoincide(x, snap.xmin);
    OrdersCoincide(x, snap.xmax);
    assert x in w0.committed ==> x in w.committed;
  }

  lemma SeenIsVisible(w0: World, w: World, b: Bid, r: Rel)
    requires b < |w0.backends| && Ordered(w0) && Ordered(w) && r < |w.files|
    requires Since(w0, w, b, TakeSnapshot(w0, b).xmin)
    ensures Seen(w, b, r, TakeSnapshot(w0, b)) ==
      Visible(CopyOf(w, b, r).rows, View(w0.committed, w.backends[b].xid, w0.backends[b].cid))
  {
    var rows := CopyOf(w, b, r).rows;
    var snap := TakeSnapshot(w0, b);
    assert FileOk(w, w.files[r], r);
    assert w.backends[b].xid !in w0.committed;
    forall k | k in rows
      ensures RowVisible(rows[k].header, EnvOf(w, b), snap) ==
        VisibleTo(rows[k].header, View(w0.committed, w.backends[b].xid, w0.backends[b].cid))
    {
      var h := rows[k].header;
      XidViewMeaning(w0, w, b, h.xmin);
      if h.xmax != 0 {
        XidViewMeaning(w0, w, b, h.xmax);
      }
    }
  }

  /** The copy that the reader uses reproduces the history from the snapshot's point of view. */
  lemma CopyReproduces(w0: World, w: World, b: Bid, r: Rel)
    requires b < |w0.backends| && Ordered(w0) && Inv(w) && r < |w.files|
    requires Since(w0, w, b, TakeSnapshot(w0, b).xmin)
    ensures Reproduces(CopyOf(w, b, r).rows, w.hist, r, View(w0.committed, w.backends[b].xid, w0.backends[b].cid))
  {
    var v := View(w0.committed, w.backends[b].xid, w0.backends[b].cid);
    var f := w.files[r];
    assert FileOk(w, f, r) && Faithful(w, f, r);
    forall h: Xid | h <= TakeSnapshot(w0, b).xmin ensures Covers(v, w.committed, h) {
    }
    assert Avoids(v, w.aborted);
    if f.writer != Some(b) {
      assert Avoids(v, f.pending);
      assert Avoids(v, w.aborted + f.pending);
    }
  }

  /** Replaying up to now, or only up to the moment of the snapshot, makes no difference to it. */
  lemma ReplayUntilSnapshot(w0: World, w: World, b: Bid, r: Rel, xmin: Xid)
    requires b < |w0.backends| && Ordered(w0) && Ordered(w) && Since(w0, w, b, xmin)
    ensures Replay(w.hist, r, View(w0.committed, w.backends[b].xid, w0.backends[b].cid)) ==
            Replay(w0.hist, r, ViewNow(w0, b))
  {
    var v := View(w0.committed, w.backends[b].xid, w0.backends[b].cid);
    var later := w.hist[|w0.hist|..];
    assert w.hist == w0.hist + later;
    forall i | 0 <= i < |later| ensures !Sees(v, later[i].xid, later[i].cid) {
      assert later[i] == w.hist[|w0.hist| + i];
    }
    ReplayExtends(w0.hist, later, r, v);
    ReplayCongruence(w0.hist, r, v, ViewNow(w0, b));
  }

  // ---- reachable states ----

  /** `run` leads from `w` to `u`, and each vacuum on the way removes only dead rows. */
  ghost predicate ReachesCleanly(port: Port, w: World, run: seq<Step>, u: World) {
    Reaches(port, w, run, u) && CleanRun(port, w, run)
  }

  ghost predicate CanTakeSnapshot(w: World, b: Bid, r: Rel) {
    b < |w.backends| && r < |w.files| && w.backends[b].phase == Active && 0 <= w.nextXid < TWO31
  }

  lemma {:induction false} RunKeepsShape(port: Port, w: World, run: seq<Step>)
    requires ValidRun(port, w, run)
    ensures |Exec(port, w, run).files| == |w.files| && |Exec(port, w, run).backends| == |w.backends|
    decreases run
  {
    if run != [] {
      RunKeepsShape(port, Next(port, w, run[0]), run[1..]);
    }
  }

  lemma StepGrows(port: Port, w: World, s: Step)
    requires Enabled(w, s)
    ensures |w.hist| <= |Next(port, w, s).hist| && Next(port, w, s).hist[..|w.hist|] == w.hist
    ensures w.committed <= Next(port, w, s).committed && w.aborted <= Next(port, w, s).aborted
  {
  }

  /** Nothing that happened is taken back: the history and the commit log only grow. */
  lemma {:induction false} RunGrows(port: Port, w: World, run: seq<Step>)
    requires ValidRun(port, w, run)
    ensures
      var u := Exec(port, w, run);
      && |w.hist| <= |u.hist| && u.hist[..|w.hist|] == w.hist
      && w.committed <= u.committed && w.aborted <= u.aborted
    decreases run
  {
    if run != [] {
      StepGrows(port, w, run[0]);
      RunGrows(port, Next(port, w, run[0]), run[1..]);
    }
  }

  lemma ReachedIsOrdered(port: Port, nfiles: nat, nbackends: nat, run: seq<Step>, w: World)
    requires Reaches(port, Init(nfiles, nbackends), run, w)
    ensures Ordered(w) && |w.files| == nfiles && |w.backends| == nbackends
  {
    InitHasInv(nfiles, nbackends);
    RunKeepsOrder(port, Init(nfiles, nbackends), run);
    RunKeepsShape(port, Init(nfiles, nbackends), run);
  }

  lemma ReachedHasInv(port: Port, nfiles: nat, nbackends: nat, run: seq<Step>, w: World)
    requires ReachesCleanly(port, Init(nfiles, nbackends), run, w)
    ensures Inv(w) && |w.files| == nfiles && |w.backends| == nbackends
  {
    InitHasInv(nfiles, nbackends);
    RunKeepsInv(port, Init(nfiles, nbackends), run);
    RunKeepsShape(port, Init(nfiles, nbackends), run);
  }

  // ---- the theorems ----

  /**
   Snapshot meaning and stability. Take any run, any snapshot in it, and any continuation that
   leaves the snapshot usable, with any crashes and failed commits before and any other backends'
   inserts, updates, deletes, commits, aborts, failed commits and vacuums after. What the snapshot
   sees is the outcome of exactly the transactions that had committed when it was taken and of its
   own earlier commands. Nothing on the right-hand side depends on the continuation.
   */
  lemma SnapshotMeaning(port: Port, nfiles: nat, nbackends: nat, before: seq<Step>, w0: World,
                        after: seq<Step>, w: World, b: Bid, r: Rel)
    requires ReachesCleanly(port, Init(nfiles, nbackends), before, w0) && CanTakeSnapshot(w0, b, r)
    requires ReachesCleanly(port, w0, after, w) && LeavesUsable(after, b, TakeSnapshot(w0, b).xmin)
    ensures r < |w.files| && b < |w.backends|
    ensures Seen(w, b, r, TakeSnapshot(w0, b)) == Replay(w0.hist, r, ViewNow(w0, b))
  {
    ReachedHasInv(port, nfiles, nbackends, before, w0);
    SnapshotMeaningFrom(port, w0, after, b, r);
  }

  lemma SnapshotMeaningFrom(port: Port, w0: World, after: seq<Step>, b: Bid, r: Rel)
    requires Inv(w0) && b < |w0.backends| && r < |w0.files| && w0.backends[b].phase == Active
    requires ValidRun(port, w0, after) && CleanRun(port, w0, after)
    requires LeavesUsable(after, b, TakeSnapshot(w0, b).xmin)
    ensures
      var w := Exec(port, w0, after);
      && Inv(w) && r < |w.files| && b < |w.backends|
      && Since(w0, w, b, TakeSnapshot(w0, b).xmin)
      && Seen(w, b, r, TakeSnapshot(w0, b)) == Replay(w0.hist, r, ViewNow(w0, b))
  {
    var w := Exec(port, w0, after);
    SinceStarts(w0, b);
    RunKeepsSince(port, w0, w0, b, TakeSnapshot(w0, b).xmin, after);
    RunKeepsInv(port, w0, after);
    SeenIsVisible(w0, w, b, r);
    CopyReproduces(w0, w, b, r);
    ReplayUntilSnapshot(w0, w, b, r, TakeSnapshot(w0, b).xmin);
  }

  /**
   Durability at every instant. Whatever state a run has reached, the contents that SQLite has
   already committed are enough to reproduce every transaction that Postgres has committed, in
   every relation, and nothing else shows.
   */
  lemma DurableAtEveryInstant(port: Port, nfiles: nat, nbackends: nat, run: seq<Step>, w: World, r: Rel)
    requires ReachesCleanly(port, Init(nfiles, nbackends), run, w) && r < |w.files|
    ensures Visible(w.files[r].base.rows, CommittedView(w)) == Replay(w.hist, r, CommittedView(w))
  {
    ReachedHasInv(port, nfiles, nbackends, run, w);
    var f, v := w.files[r], CommittedView(w);
    assert FileOk(w, f, r) && Faithful(w, f, r);
    assert Avoids(v, w.aborted + f.pending);
    assert Covers(v, w.committed, f.base.watermark);
    assert Reproduces(f.base.rows, w.hist, r, v);
  }

  /**
   Crash self-healing. Stop any run at any instant, in particular between the SQLite commits of
   two relations or between the last of them and the Postgres commit record. After recovery the
   first snapshot of any backend sees, in every relation, exactly the outcome of the transactions
   that had committed before the crash.
   */
  lemma CrashSelfHeals(port: Port, nfiles: nat, nbackends: nat, run: seq<Step>, w: World, b: Bid, r: Rel)
    requires ReachesCleanly(port, Init(nfiles, nbackends), run, w) && b < |w.backends| && r < |w.files|
    ensures
      var crashed := Next(port, w, Crash);
      && Enabled(crashed, Begin(b))
      && (var u := Next(port, crashed, Begin(b));
          && CanTakeSnapshot(u, b, r) && u.committed == w.committed
          && Seen(u, b, r, TakeSnapshot(u, b)) == Replay(w.hist, r, CommittedView(w)))
  {
    ReachedHasInv(port, nfiles, nbackends, run, w);
    FailureHeals(port, w, Crash, b, r);
  }

  lemma FailureHeals(port: Port, w: World, failure: Step, b: Bid, r: Rel)
    requires Inv(w) && b < |w.backends| && r < |w.files| && IsFailure(failure)
    requires Enabled(w, failure) && Enabled(Next(port, w, failure), Begin(b))
    ensures
      var u := Next(port, Next(port, w, failure), Begin(b));
      && CanTakeSnapshot(u, b, r) && u.committed == w.committed
      && Seen(u, b, r, TakeSnapshot(u, b)) == Replay(w.hist, r, CommittedView(w))
  {
    var failed := Next(port, w, failure);
    StepKeepsInv(port, w, failure);
    StepKeepsInv(port, failed, Begin(b));
    SnapshotMeaningFrom(port, Next(port, failed, Begin(b)), [], b, r);
  }

  // ---- runs without failures ----

  /** The two steps after which SQLite may hold committed work of an aborted transaction. */
  predicate IsFailure(s: Step) {
    s.Crash? || s.LateAbort?
  }

  predicate FailureFree(run: seq<Step>) {
    forall i :: 0 <= i < |run| ==> !IsFailure(run[i])
  }

  predicate StampedBy(rows: Rows, x: Xid) {
    exists k :: k in rows && rows[k].header.xmax == x
  }

  /**
   No copy is stamped by an aborted transaction, and one that may still abort has stamped only the
   working copies that its abort would roll back.
   */
  ghost predicate StampsOk(w: World) {
    forall r :: 0 <= r < |w.files| ==>
      var f := w.files[r];
      && (forall x :: x in w.aborted ==> !StampedBy(f.base.rows, x) && !StampedBy(f.work.rows, x))
      && (forall b :: 0 <= b < |w.backends| && w.backends[b].phase == Active && w.backends[b].xid != 0 ==>
            && !StampedBy(f.base.rows, w.backends[b].xid)
            && (StampedBy(f.work.rows, w.backends[b].xid) ==> f.writer == Some(b) && r in w.backends[b].touched))
  }

  lemma StatementStamps(w: World, s: Step, x: Xid)
    requires IsWrite(s) && Enabled(w, s) && x != 0
    requires StampedBy(NewWork(w, s).rows, x)
    ensures StampedBy(w.files[s.r].work.rows, x) || x == w.backends[s.b].xid
  {
    var k :| k in NewWork(w, s).rows && NewWork(w, s).rows[k].header.xmax == x;
    assert k in w.files[s.r].work.rows ==>
      w.files[s.r].work.rows[k].header.xmax == x || x == w.backends[s.b].xid;
  }

  lemma WriteKeepsStamps(port: Port, w: World, s: Step)
    requires Ordered(w) && StampsOk(w) && IsWrite(s) && Enabled(w, s)
    ensures StampsOk(Next(port, w, s))
  {
    var u := Next(port, w, s);
    forall x: Xid | x != 0 && StampedBy(NewWork(w, s).rows, x)
      ensures StampedBy(w.files[s.r].work.rows, x) || x == w.backends[s.b].xid
    {
      StatementStamps(w, s, x);
    }
  }

  lemma AbortKeepsStamps(w: World, b: Bid)
    requires Ordered(w) && StampsOk(w) && Enabled(w, Abort(b))
    ensures StampsOk(Aborted(w, b))
  {
    var u := Aborted(w, b);
    forall r | 0 <= r < |w.files| ensures u.files[r] == w.files[r] || u.files[r] == RolledBack(w.files[r]) {
    }
  }

  lemma CommitFileKeepsStamps(port: Port, w: World, s: Step)
    requires Ordered(w) && StampsOk(w) && s.CommitFile? && Enabled(w, s)
    ensures StampsOk(Next(port, w, s))
  {
    var u := Next(port, w, s);
    forall r | 0 <= r < |u.files| ensures u.files[r] == w.files[r] ||
      (r == s.r && w.files[r].writer == Some(s.b) && u.files[r].base == u.files[r].work == w.files[r].work)
    {
    }
  }

  lemma OtherStepKeepsStamps(port: Port, w: World, s: Step)
    requires Ordered(w) && StampsOk(w) && !IsWrite(s) && Enabled(w, s) && !IsFailure(s)
    ensures StampsOk(Next(port, w, s))
  {
    if s.Abort? {
      AbortKeepsStamps(w, s.b);
    } else if s.CommitFile? {
      CommitFileKeepsStamps(port, w, s);
    } else {
      forall r | 0 <= r < |w.files| ensures !StampedBy(w.files[r].base.rows, ToXid(w.nextXid))
        && !StampedBy(w.files[r].work.rows, ToXid(w.nextXid))
      {
        assert FileOk(w, w.files[r], r);
      }
    }
  }

  /** In a run without failures, every vacuum removes only rows whose deleter committed. */
  lemma VacuumIsClean(w: World, s: Step)
    requires Ordered(w) && StampsOk(w) && Enabled(w, s)
    ensures s.Vacuum? ==>
      forall k :: k in ReclaimedKeys(w.files[s.r].work, s.h) ==> w.files[s.r].work.rows[k].header.xmax in w.committed
    ensures Clean(w, s)
  {
    if s.Vacuum? {
      var t := w.files[s.r].work;
      assert FileOk(w, w.files[s.r], s.r);
      forall k | k in ReclaimedKeys(t, s.h) ensures t.rows[k].header.xmax in w.committed {
        var x := t.rows[k].header.xmax;
        OrdersCoincide(x, s.h);
        assert StampedBy(t.rows, x);
        assert x !in Running(w);
      }
    }
  }

  /**
   Vacuum safety over runs: without a crash or a late abort, each stamp is running or committed,
   so no vacuum can destroy a row that some transaction still needs.
   */
  lemma {:induction false} FailureFreeRunsAreClean(port: Port, w: World, run: seq<Step>)
    requires Ordered(w) && StampsOk(w) && ValidRun(port, w, run) && FailureFree(run)
    ensures CleanRun(port, w, run)
    ensures StampsOk(Exec(port, w, run))
    decreases run
  {
    if run != [] {
      VacuumIsClean(w, run[0]);
      if IsWrite(run[0]) {
        WriteKeepsStamps(port, w, run[0]);
      } else {
        OtherStepKeepsStamps(port, w, run[0]);
      }
      StepKeepsOrder(port, w, run[0]);
      FailureFreeRunsAreClean(port, Next(port, w, run[0]), run[1..]);
    }
  }

  /**
   The first failure heals, whatever vacuums ran before it. Let a run without failures end in a crash,
   or in a SQLite COMMIT that fails after some of the relations have committed. The next transaction of
   any backend sees, in every relation, exactly the outcome of the transactions that had committed.
   */
  lemma FirstFailureHeals(port: Port, nfiles: nat, nbackends: nat, run: seq<Step>, w: World, failure: Step, b: Bid, r: Rel)
    requires Reaches(port, Init(nfiles, nbackends), run, w) && FailureFree(run)
    requires b < |w.backends| && r < |w.files| && IsFailure(failure)
    requires Enabled(w, failure) && Enabled(Next(port, w, failure), Begin(b))
    ensures
      var u := Next(port, Next(port, w, failure), Begin(b));
      && CanTakeSnapshot(u, b, r) && u.committed == w.committed
      && Seen(u, b, r, TakeSnapshot(u, b)) == Replay(w.hist, r, CommittedView(w))
  {
    InitHasInv(nfiles, nbackends);
    FailureFreeRunsAreClean(port, Init(nfiles, nbackends), run);
    ReachedHasInv(port, nfiles, nbackends, run, w);
    FailureHeals(port, w, failure, b, r);
  }

  /**
   The same theorem without any hypothesis on the vacuums: in a run without failures, no insert,
   delete, update, commit, abort or vacuum of any backend changes what a usable snapshot sees.
   */
  lemma VacuumNeverShows(port: Port, nfiles: nat, nbackends: nat, before: seq<Step>, w0: World,
                         after: seq<Step>, w: World, b: Bid, r: Rel)
    requires Reaches(port, Init(nfiles, nbackends), before, w0) && FailureFree(before) && CanTakeSnapshot(w0, b, r)
    requires Reaches(port, w0, after, w) && FailureFree(after) && LeavesUsable(after, b, TakeSnapshot(w0, b).xmin)
    ensures r < |w.files| && b < |w.backends|
    ensures Seen(w, b, r, TakeSnapshot(w0, b)) == Replay(w0.hist, r, ViewNow(w0, b))
  {
    InitHasInv(nfiles, nbackends);
    FailureFreeRunsAreClean(port, Init(nfiles, nbackends), before);
    ReachedIsOrdered(port, nfiles, nbackends, before, w0);
    FailureFreeRunsAreClean(port, w0, after);
    SnapshotMeaning(port, nfiles, nbackends, before, w0, after, w, b, r);
  }

  /** A point of view that may still arise: it knows every commit below `h` and counts no aborted one. */
  ghost predicate MayArise(w: World, h: Xid, v: View) {
    Covers(v, w.committed, h) && Avoids(v, w.aborted)
  }

  /** A row below the horizon that is not dead, and the point of view that needs it. */
  lemma NotDeadIsNeeded(w: World, s: Step, k: Rowid)
    requires Ordered(w) && s.Vacuum? && Enabled(w, s) && k in ReclaimedKeys(w.files[s.r].work, s.h)
    requires !Dead(w, w.files[s.r].work.rows[k])
    ensures
      var h := w.files[s.r].work.rows[k].header;
      var v := View(w.committed + {h.xmin}, 0, 0);
      && MayArise(w, s.h, v)
      && k in Visible(w.files[s.r].work.rows, v) && k !in Visible(NewWork(w, s).rows, v)
  {
    assert FileOk(w, w.files[s.r], s.r);
    var h := w.files[s.r].work.rows[k].header;
    OrdersCoincide(h.xmax, s.h);
    assert h.xmax !in Running(w);
    assert h.xmax in w.aborted;
  }

  /**
   When a vacuum is harmless, whatever the run has been: no point of view that may still arise loses a
   row if and only if each row below the horizon is dead. `vacuum_dead` asks only whether it is stamped.
   */
  lemma VacuumHarmlessIff(w: World, s: Step)
    requires Ordered(w) && s.Vacuum? && Enabled(w, s)
    ensures
      (forall v :: MayArise(w, s.h, v) ==> Visible(NewWork(w, s).rows, v) == Visible(w.files[s.r].work.rows, v))
      <==> Clean(w, s)
  {
    var t := w.files[s.r].work;
    assert FileOk(w, w.files[s.r], s.r);
    forall k | k in ReclaimedKeys(t, s.h) ensures t.rows[k].header.xmax < s.h {
      OrdersCoincide(t.rows[k].header.xmax, s.h);
    }
    if Clean(w, s) {
      forall v | MayArise(w, s.h, v) ensures Visible(NewWork(w, s).rows, v) == Visible(t.rows, v) {
        VacuumHidesNothing(t, s.h, v);
      }
    } else {
      var k :| k in ReclaimedKeys(t, s.h) && !Dead(w, t.rows[k]);
      NotDeadIsNeeded(w, s, k);
    }
  }

  /** Hence the hypothesis of the run theorems is exact: a vacuum keeps the invariant if and only if it is clean. */
  lemma VacuumKeepsInvIff(port: Port, w: World, s: Step)
    requires Inv(w) && s.Vacuum? && Enabled(w, s)
    ensures Inv(Next(port, w, s)) <==> Clean(w, s)
  {
    var u := Next(port, w, s);
    var t := w.files[s.r].work;
    if Clean(w, s) {
      StepKeepsInv(port, w, s);
    } else {
      var k :| k in ReclaimedKeys(t, s.h) && !Dead(w, t.rows[k]);
      NotDeadIsNeeded(w, s, k);
      var v := View(w.committed + {t.rows[k].header.xmin}, 0, 0);
      assert FileOk(w, w.files[s.r], s.r) && Faithful(w, w.files[s.r], s.r);
      assert Covers(v, w.committed, t.watermark);
      assert Reproduces(t.rows, w.hist, s.r, v);
      assert w.hist + [] == w.hist;
      assert !Reproduces(u.files[s.r].work.rows, u.hist, s.r, v);
      assert !Faithful(u, u.files[s.r], s.r);
    }
  }

  /**
   The watermark skip is sound. In every state that any run reaches, no copy of any relation holds
   a stamp below that copy's own watermark; a rollback restores rows and watermark together; and
   after `vacuum_dead(h)`, whether it ran or was skipped, no stamp below `h` is left.
   */
  lemma WatermarkSound(port: Port, nfiles: nat, nbackends: nat, run: seq<Step>, w: World, s: Step, r: Rel)
    requires Reaches(port, Init(nfiles, nbackends), run, w) && r < |w.files|
    requires (s.Vacuum? || s.SkipVacuum?) && Enabled(w, s)
    ensures forall t, k :: t in {w.files[r].base, w.files[r].work} && k in t.rows && t.rows[k].header.xmax != 0 ==>
      t.watermark <= t.rows[k].header.xmax
    ensures RolledBack(w.files[r]).work == w.files[r].base
    ensures
      var t := CopyOf(Next(port, w, s), s.b, s.r);
      && t == VacuumDead(CopyOf(w, s.b, s.r), s.h).0 && s.h <= t.watermark
      && forall k :: k in t.rows && t.rows[k].header.xmax != 0 ==> s.h <= t.rows[k].header.xmax
  {
    ReachedIsOrdered(port, nfiles, nbackends, run, w);
    assert FileOk(w, w.files[r], r) && FileOk(w, w.files[s.r], s.r);
    VacuumKeepsStore(w, CopyOf(w, s.b, s.r), s.h);
  }

  /** The transaction has committed, or is that of backend `b`. */
  predicate Done(w: World, b: Bid, x: Xid)
    requires b < |w.backends|
  {
    x in w.committed || (x != 0 && x == w.backends[b].xid)
  }

  /** The transaction is running in a backend other than `b`. */
  predicate RunsElsewhere(w: World, b: Bid, x: Xid)
    requires b < |w.backends|
  {
    IsRunning(w, x) && x != w.backends[b].xid
  }

  /**
   Snapshot kinds in every reachable state, for each row that a backend can read and through `row_visible`.
   SnapshotSelf sees what has been inserted and not deleted, by whoever is done or by the own transaction.
   An MVCC snapshot taken now, with a command id above those it has used, sees the same. SnapshotDirty also
   counts inserters that are running elsewhere, and reports exactly them and, for a row that it sees,
   exactly the deleter that is running elsewhere. SnapshotAny sees every row.
   */
  lemma KindsAgree(port: Port, nfiles: nat, nbackends: nat, run: seq<Step>, w: World, b: Bid, r: Rel, k: Rowid, snap: Snapshot)
    requires Reaches(port, Init(nfiles, nbackends), run, w) && b < |w.backends| && r < |w.files|
    requires k in CopyOf(w, b, r).rows && CommandsBelow(CopyOf(w, b, r).rows[k].header, EnvOf(w, b), snap.curcid)
    ensures 0 <= w.nextXid < TWO31
    ensures
      var h, env := CopyOf(w, b, r).rows[k].header, EnvOf(w, b);
      var seen := Done(w, b, h.xmin) && !Done(w, b, h.xmax);
      var d := VisibleDirty(h, env);
      && (RowVisible(h, env, snap.(kind := SnapSelf)) <==> seen)
      && (RowVisible(h, env, TakeSnapshot(w, b).(curcid := snap.curcid)) <==> seen)
      && (RowVisible(h, env, snap.(kind := SnapDirty)) <==>
            (Done(w, b, h.xmin) || RunsElsewhere(w, b, h.xmin)) && !Done(w, b, h.xmax))
      && RowVisible(h, env, snap.(kind := SnapAny))
      && (RowVisible(h, env, snap.(kind := SnapNonVacuumable)) <==> h.xmax !in w.committed)
      && d.visible == RowVisible(h, env, snap.(kind := SnapDirty))
      && d.inserter == (if RunsElsewhere(w, b, h.xmin) then h.xmin else 0)
      && d.deleter == (if d.visible && RunsElsewhere(w, b, h.xmax) then h.xmax else 0)
  {
    ReachedIsOrdered(port, nfiles, nbackends, run, w);
    var h, env := CopyOf(w, b, r).rows[k].header, EnvOf(w, b);
    assert env.Valid() && FileOk(w, w.files[r], r);
    MvccAgreesWithSelf(h, env, TakeSnapshot(w, b).(curcid := snap.curcid));
    DirtyAgreesWithSelf(h, env);
  }
}
