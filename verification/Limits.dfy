/**
 Where the protocol stops keeping its promises: concrete runs that break them.
 */
module Limits {
  import opened Basics
  import opened Xids
  import opened Storage
  import opened Protocol
  import opened Invariants
  import opened Snapshots
  import opened IndexDelete
  import opened IndexPath
  import opened TransactionEnd

  // ---- putting runs together ----

  lemma Chain(port: Port, w: World, p: seq<Step>, mid: World, q: seq<Step>, u: World)
    requires Reaches(port, w, p, mid) && Reaches(port, mid, q, u)
    ensures Reaches(port, w, p + q, u)
  {
    ExecAppend(port, w, p, q);
  }

  lemma Then(port: Port, w: World, p: seq<Step>, mid: World, s: Step, u: World)
    requires Reaches(port, w, p, mid) && Enabled(mid, s) && u == Next(port, mid, s)
    ensures Reaches(port, w, p + [s], u)
  {
    assert [s][1..] == [];
    Chain(port, w, p, mid, [s], u);
  }

  function Start(b: Bid): (run: seq<Step>) {
    [Begin(b)] + [AssignXid(b)]
  }

  /** The world in which backend `b` has begun a transaction and taken the next xid. */
  function Started(w: World, b: Bid): (u: World)
    requires b < |w.backends| && 0 <= w.nextXid < TWO31
  {
    w.(nextXid := w.nextXid + 1, backends := w.backends[b := Backend(Active, w.nextXid as Xid, 0, {})])
  }

  lemma Starts(port: Port, w: World, b: Bid)
    requires b < |w.backends| && w.backends[b] == RESTING && 0 <= w.nextXid && w.nextXid + 1 < TWO31
    ensures Reaches(port, w, Start(b), Started(w, b))
  {
    var mid := Next(port, w, Begin(b));
    assert Reaches(port, w, [], w) && [] + [Begin(b)] == [Begin(b)];
    Then(port, w, [], w, Begin(b), mid);
    Then(port, w, [Begin(b)], mid, AssignXid(b), Started(w, b));
  }

  /** PreCommit of a transaction that has touched relation 0 only. */
  function Flush(b: Bid): (run: seq<Step>) {
    [PreCommit(b)] + [Step.CommitFile(b, 0)]
  }

  function Flushed(port: Port, w: World, b: Bid): (u: World)
    requires b < |w.backends| && |w.files| == 1
  {
    w.(files := [File(w.files[0].work, w.files[0].work, None, {})],
       backends := w.backends[b := w.backends[b].(phase := Committing({}), touched := if port == Rust then {} else {0})])
  }

  ghost predicate HasWritten(w: World, b: Bid) {
    && b < |w.backends| && |w.files| == 1 && w.files[0].writer == Some(b)
    && w.backends[b].phase == Active && w.backends[b].touched == {0} && w.backends[b].xid != 0
  }

  lemma Flushes(port: Port, w: World, b: Bid)
    requires HasWritten(w, b)
    ensures Reaches(port, w, Flush(b), Flushed(port, w, b))
  {
    var w1 := Next(port, w, PreCommit(b));
    assert Reaches(port, w, [], w) && [] + [PreCommit(b)] == [PreCommit(b)];
    Then(port, w, [], w, PreCommit(b), w1);
    assert {0} - {0} == {};
    assert Next(port, w1, Step.CommitFile(b, 0)).files == Flushed(port, w, b).files;
    Then(port, w, [PreCommit(b)], w1, Step.CommitFile(b, 0), Flushed(port, w, b));
  }

  function Finish(b: Bid): (run: seq<Step>) {
    Flush(b) + [CommitRecord(b)]
  }

  function Finished(w: World, b: Bid): (u: World)
    requires b < |w.backends| && |w.files| == 1
  {
    w.(committed := w.committed + {w.backends[b].xid},
       files := [File(w.files[0].work, w.files[0].work, None, {})],
       backends := w.backends[b := RESTING])
  }

  lemma Finishes(port: Port, w: World, b: Bid)
    requires HasWritten(w, b)
    ensures Reaches(port, w, Finish(b), Finished(w, b))
  {
    Flushes(port, w, b);
    Then(port, w, Flush(b), Flushed(port, w, b), CommitRecord(b), Finished(w, b));
  }

  /** Backend `b` runs its first statement on relation 0, which leaves `t` and makes the changes `ops`. */
  function Wrote(w: World, b: Bid, t: Store, ops: seq<Op>): (u: World)
    requires b < |w.backends| && |w.files| == 1
  {
    w.(files := [File(w.files[0].base, t, Some(b), OwnXid(w, b))],
       backends := w.backends[b := w.backends[b].(touched := {0})],
       hist := w.hist + ops)
  }

  lemma Writes(port: Port, w: World, p: seq<Step>, mid: World, s: Step, t: Store, ops: seq<Op>)
    requires Reaches(port, w, p, mid) && IsWrite(s) && Enabled(mid, s) && s.r == 0 && |mid.files| == 1
    requires mid.files[0].pending == {} && mid.backends[s.b].touched == {}
    requires NewWork(mid, s).rows == t.rows && NewWork(mid, s).watermark == t.watermark && Logged(mid, s) == ops
    ensures Reaches(port, w, p + [s], Wrote(mid, s.b, t, ops))
  {
    assert mid.files[0].pending + OwnXid(mid, s.b) == OwnXid(mid, s.b);
    assert mid.backends[s.b].touched + {0} == {0};
    assert Next(port, mid, s).files == Wrote(mid, s.b, t, ops).files;
    Then(port, w, p, mid, s, Wrote(mid, s.b, t, ops));
  }

  // ---- one row ----

  const A_TUPLE: Bytes := [1]
  const B_TUPLE: Bytes := [2]
  const C_TUPLE: Bytes := [3]

  lemma TuplesDiffer()
    ensures A_TUPLE != B_TUPLE && A_TUPLE != C_TUPLE && B_TUPLE != C_TUPLE
  {
    assert A_TUPLE[0] == 1 && B_TUPLE[0] == 2 && C_TUPLE[0] == 3;
  }

  /** Row 1, inserted by transaction 3 and stamped by `xmax`. */
  function Row1(xmax: Xid): (s: Store) {
    Store(map[1 := Row(Header(3, 0, xmax, 0), A_TUPLE)], 0)
  }

  const INSERTED: Op := Ins(0, 1, 3, 0, A_TUPLE)

  /** Transaction 3 of backend 0 has inserted row 1. */
  const INSERT: seq<Step> := Start(0) + [Insert(0, 0, A_TUPLE)]

  function Resting(n: nat): (bs: seq<Backend>) {
    seq(n, i => RESTING)
  }

  function InsertedBy(n: nat): (w: World)
    requires n > 0
  {
    World(4, {}, {}, [File(EMPTY, Row1(0), Some(0), {3})], Resting(n)[0 := Backend(Active, 3, 0, {0})], [INSERTED])
  }

  lemma Inserts(port: Port, n: nat)
    requires n > 0
    ensures Reaches(port, Init(1, n), INSERT, InsertedBy(n))
  {
    var w := Init(1, n);
    assert w.backends == Resting(n) && w.files == [File(EMPTY, EMPTY, None, {})];
    Starts(port, w, 0);
    Writes(port, w, Start(0), Started(w, 0), Insert(0, 0, A_TUPLE), Row1(0), [INSERTED]);
    assert Wrote(Started(w, 0), 0, Row1(0), [INSERTED]) == InsertedBy(n) by {
      assert w.hist + [INSERTED] == [INSERTED];
      assert Started(w, 0).backends[0 := Backend(Active, 3, 0, {0})] == InsertedBy(n).backends;
    }
  }

  /** And committed. */
  function Row1Committed(n: nat): (w: World) {
    World(4, {3}, {}, [File(Row1(0), Row1(0), None, {})], Resting(n), [INSERTED])
  }

  lemma InsertCommits(port: Port, n: nat)
    requires n > 0
    ensures Reaches(port, Init(1, n), INSERT + Finish(0), Row1Committed(n))
  {
    Inserts(port, n);
    Finishes(port, InsertedBy(n), 0);
    assert {} + {3} == {3};
    assert Finished(InsertedBy(n), 0).backends == Resting(n);
    Chain(port, Init(1, n), INSERT, InsertedBy(n), Finish(0), Row1Committed(n));
  }

  // ---- a crash, then a vacuum ----

  /** The next transaction deletes the row and dies before its commit record; then comes a vacuum. */
  const DELETE_CRASHED: seq<Step> := Start(0) + [Delete(0, 0, 1)] + Flush(0) + [Crash]
  const VACUUM: seq<Step> := [Begin(0)] + [Vacuum(0, 0, 5)]

  const HIST: seq<Op> := [INSERTED, Del(0, 1, 4, 0)]

  const AFTER_CRASH: World := World(5, {3}, {4}, [File(Row1(4), Row1(4), None, {})], [RESTING], HIST)
  const AFTER_VACUUM: World :=
    World(5, {3}, {4}, [File(Row1(4), Store(map[], 5), Some(0), {})], [Backend(Active, 0, 0, {0})], HIST)

  lemma DeleteCrashes(port: Port)
    ensures Reaches(port, Row1Committed(1), DELETE_CRASHED, AFTER_CRASH)
  {
    var w := Row1Committed(1);
    Starts(port, w, 0);
    Writes(port, w, Start(0), Started(w, 0), Delete(0, 0, 1), Row1(4), [Del(0, 1, 4, 0)]);
    var deleted := Wrote(Started(w, 0), 0, Row1(4), [Del(0, 1, 4, 0)]);
    Flushes(port, deleted, 0);
    var flushed := Flushed(port, deleted, 0);
    Chain(port, w, Start(0) + [Delete(0, 0, 1)], deleted, Flush(0), flushed);
    assert Running(flushed) == {4};
    assert flushed.hist == HIST;
    assert Next(port, flushed, Crash) == AFTER_CRASH by {
      assert Next(port, flushed, Crash).backends == [RESTING];
      assert Next(port, flushed, Crash).files == AFTER_CRASH.files;
    }
    Then(port, w, Start(0) + [Delete(0, 0, 1)] + Flush(0), flushed, Crash, AFTER_CRASH);
  }

  lemma VacuumRuns(port: Port)
    ensures Reaches(port, AFTER_CRASH, VACUUM, AFTER_VACUUM)
  {
    var w1 := Next(port, AFTER_CRASH, Begin(0));
    assert Reaches(port, AFTER_CRASH, [], AFTER_CRASH) && [] + [Begin(0)] == [Begin(0)];
    Then(port, AFTER_CRASH, [], AFTER_CRASH, Begin(0), w1);
    assert Running(w1) == {};
    assert ReclaimedKeys(Row1(4), 5) == {1};
    Writes(port, AFTER_CRASH, [Begin(0)], w1, Vacuum(0, 0, 5), Store(map[], 5), []);
    assert HIST + [] == HIST;
  }

  /**
   `vacuum_dead` trusts every stamp below the horizon. After a crash between the SQLite commit and the
   Postgres commit record, it physically removes a row that is committed and was never deleted.
   */
  lemma VacuumAfterCrashLosesARow(port: Port)
    ensures Reaches(port, Init(1, 1), INSERT + Finish(0) + DELETE_CRASHED + VACUUM, AFTER_VACUUM)
    ensures Replay(AFTER_VACUUM.hist, 0, CommittedView(AFTER_VACUUM)) == map[1 := A_TUPLE]
    ensures Seen(AFTER_VACUUM, 0, 0, TakeSnapshot(AFTER_VACUUM, 0)) == map[]
  {
    InsertCommits(port, 1);
    DeleteCrashes(port);
    VacuumRuns(port);
    Chain(port, Init(1, 1), INSERT + Finish(0), Row1Committed(1), DELETE_CRASHED, AFTER_CRASH);
    Chain(port, Init(1, 1), INSERT + Finish(0) + DELETE_CRASHED, AFTER_CRASH, VACUUM, AFTER_VACUUM);
    var v := View({3}, 0, 0);
    assert HIST[..1] == [] + [HIST[0]] && HIST == HIST[..1] + [HIST[1]];
    ReplayOne([], HIST[0], 0, v);
    ReplayOne(HIST[..1], HIST[1], 0, v);
  }

  const BEGUN_AFTER_CRASH: World := AFTER_CRASH.(backends := [Backend(Active, 0, 0, {})])

  /**
   `build_index` takes every stamp for a deletion. An index built after such a crash has no entry for the
   row, which is committed and which a sequential scan reads.
   */
  lemma IndexMissesARow(port: Port, key: KeyOf)
    ensures Reaches(port, Init(1, 1), INSERT + Finish(0) + DELETE_CRASHED + [Begin(0)], BEGUN_AFTER_CRASH)
    ensures PositiveRowids(CopyOf(BEGUN_AFTER_CRASH, 0, 0).rows)
    ensures forall e :: !Built(SelectAll(CopyOf(BEGUN_AFTER_CRASH, 0, 0).rows), key, e)
    ensures Seen(BEGUN_AFTER_CRASH, 0, 0, TakeSnapshot(BEGUN_AFTER_CRASH, 0)) == map[1 := A_TUPLE]
  {
    var w, rows := BEGUN_AFTER_CRASH, Row1(4).rows;
    InsertCommits(port, 1);
    DeleteCrashes(port);
    Chain(port, Init(1, 1), INSERT + Finish(0), Row1Committed(1), DELETE_CRASHED, AFTER_CRASH);
    Then(port, Init(1, 1), INSERT + Finish(0) + DELETE_CRASHED, AFTER_CRASH, Begin(0), w);
    assert CopyOf(w, 0, 0).rows == rows;
    SelectAllIsExact(rows);
    forall i | 0 <= i < |SelectAll(rows)| ensures SelectAll(rows)[i].row.header.xmax == 4 {
      assert SelectAll(rows)[i] in SelectAll(rows);
    }
    assert forall x: nat :: x < 5 ==> !IsRunning(w, x);
    OrdersCoincide(3, 5);
  }

  // ---- a rowid that is issued twice ----

  /** The insert aborts; the next transaction inserts another tuple and goes on to its next command. */
  const REISSUE: seq<Step> := INSERT + [Abort(0)] + Start(0) + [Insert(0, 0, B_TUPLE)] + [NextCommand(0)]

  const TWICE: seq<Op> := [INSERTED, Ins(0, 1, 4, 0, B_TUPLE)]

  const ABORTED: World := World(4, {}, {3}, [File(EMPTY, EMPTY, None, {})], [RESTING], [INSERTED])

  const REISSUED: World :=
    World(5, {}, {3}, [File(EMPTY, Store(map[1 := Row(Header(4, 0, 0, 0), B_TUPLE)], 0), Some(0), {4})],
          [Backend(Active, 4, 1, {0})], TWICE)

  lemma InsertAborts(port: Port)
    ensures Reaches(port, Init(1, 1), INSERT + [Abort(0)], ABORTED)
  {
    Inserts(port, 1);
    assert Next(port, InsertedBy(1), Abort(0)) == ABORTED by {
      assert Next(port, InsertedBy(1), Abort(0)).files == ABORTED.files;
      assert {} + {3} == {3};
    }
    Then(port, Init(1, 1), INSERT, InsertedBy(1), Abort(0), ABORTED);
  }

  lemma Reissues(port: Port)
    ensures Reaches(port, Init(1, 1), REISSUE, REISSUED)
  {
    var w, t := Init(1, 1), REISSUED.files[0].work;
    InsertAborts(port);
    Starts(port, ABORTED, 0);
    Chain(port, w, INSERT + [Abort(0)], ABORTED, Start(0), Started(ABORTED, 0));
    Writes(port, w, INSERT + [Abort(0)] + Start(0), Started(ABORTED, 0), Insert(0, 0, B_TUPLE), t, [TWICE[1]]);
    var again := Wrote(Started(ABORTED, 0), 0, t, [TWICE[1]]);
    assert again.hist == TWICE;
    assert Next(port, again, NextCommand(0)) == REISSUED;
    Then(port, w, INSERT + [Abort(0)] + Start(0) + [Insert(0, 0, B_TUPLE)], again, NextCommand(0), REISSUED);
  }

  /**
   `storage.rowid` is not AUTOINCREMENT. An insert that aborts and the next insert are given the same rowid.
   With an index on the whole tuple, built when the relation was empty, the entry made for the first leads
   to the tuple of the second: looking up the aborted tuple finds a row, which a sequential scan does not.
   */
  lemma RowidIsReissued(port: Port)
    ensures Reaches(port, Init(1, 1), REISSUE, REISSUED)
    ensures
      var t := Seen(REISSUED, 0, 0, TakeSnapshot(REISSUED, 0));
      && FetchedByIndex(t, {}, REISSUED.hist, 0, 0, tuple => tuple, A_TUPLE) == map[1 := B_TUPLE]
      && FilteredByKey(t, tuple => tuple, A_TUPLE) == map[]
  {
    Reissues(port);
    TuplesDiffer();
    var t, key := Seen(REISSUED, 0, 0, TakeSnapshot(REISSUED, 0)), (tuple: Bytes) => tuple;
    assert t == map[1 := B_TUPLE];
    assert REISSUED.hist[0] == Ins(0, 1, 3, 0, A_TUPLE);
    assert Inserted(REISSUED.hist, 0, 0, 1, A_TUPLE);
    assert key(A_TUPLE) == A_TUPLE;
    assert HasEntry({}, REISSUED.hist, 0, 0, key, A_TUPLE, 1);
  }

  // ---- a visible row that is reported deletable ----

  const UNCOMMITTED: World :=
    World(4, {}, {}, [File(EMPTY, Row1(0), Some(0), {3})], [Backend(Active, 3, 1, {0}), RESTING], [INSERTED])

  /**
   Backend 0 has inserted a row and reads it with its next command, while backend 1, whatever its horizon,
   does not find the row and would report its index entry as deletable.
   */
  lemma SeenRowLooksGone(port: Port, oldest: Xid)
    ensures Reaches(port, Init(1, 2), INSERT + [NextCommand(0)], UNCOMMITTED)
    ensures Seen(UNCOMMITTED, 0, 0, TakeSnapshot(UNCOMMITTED, 0)) == map[1 := A_TUPLE]
    ensures Deletable(CopyOf(UNCOMMITTED, 1, 0).rows, EnvOf(UNCOMMITTED, 1), oldest, 1)
  {
    Inserts(port, 2);
    assert Next(port, InsertedBy(2), NextCommand(0)).backends == UNCOMMITTED.backends;
    Then(port, Init(1, 2), INSERT, InsertedBy(2), NextCommand(0), UNCOMMITTED);
  }

  // ---- a COMMIT that fails ----

  /** A transaction inserts into two relations; the first COMMIT succeeds, the second fails. */
  const FAILING: seq<Step> :=
    Start(0) + [Insert(0, 0, A_TUPLE)] + [Insert(0, 1, A_TUPLE)] + [PreCommit(0)] + [Step.CommitFile(0, 0)] + [LateAbort(0)]

  const FLUSHED_FILE: File := File(Row1(0), Row1(0), None, {})
  const OPEN_FILE: File := File(EMPTY, Row1(0), Some(0), {3})
  const CLOSED_FILE: File := File(EMPTY, EMPTY, None, {})

  const BOTH_INSERTED: seq<Op> := [INSERTED, Ins(1, 1, 3, 0, A_TUPLE)]

  function Failed(port: Port): (w: World) {
    World(4, {}, {3}, [FLUSHED_FILE, if port == Rust then OPEN_FILE else CLOSED_FILE], [RESTING, RESTING], BOTH_INSERTED)
  }

  function BothInserted(): (w: World) {
    World(4, {}, {}, [OPEN_FILE, OPEN_FILE], [Backend(Active, 3, 0, {0, 1}), RESTING], BOTH_INSERTED)
  }

  lemma InsertsBoth(port: Port)
    ensures Reaches(port, Init(2, 2), Start(0) + [Insert(0, 0, A_TUPLE)] + [Insert(0, 1, A_TUPLE)], BothInserted())
  {
    var w := Init(2, 2);
    assert w.files == [CLOSED_FILE, CLOSED_FILE] && w.backends == [RESTING, RESTING];
    Starts(port, w, 0);
    var w0 := Started(w, 0);
    var w1 := World(4, {}, {}, [OPEN_FILE, CLOSED_FILE], [Backend(Active, 3, 0, {0}), RESTING], [INSERTED]);
    assert Next(port, w0, Insert(0, 0, A_TUPLE)) == w1 by {
      assert NewWork(w0, Insert(0, 0, A_TUPLE)).rows == Row1(0).rows;
      assert {} + OwnXid(w0, 0) == {3} && {} + {0} == {0};
      assert Next(port, w0, Insert(0, 0, A_TUPLE)).files == w1.files;
      assert Next(port, w0, Insert(0, 0, A_TUPLE)).backends == w1.backends;
    }
    Then(port, w, Start(0), w0, Insert(0, 0, A_TUPLE), w1);
    assert Next(port, w1, Insert(0, 1, A_TUPLE)) == BothInserted() by {
      assert NewWork(w1, Insert(0, 1, A_TUPLE)).rows == Row1(0).rows;
      assert {} + OwnXid(w1, 0) == {3};
      assert Next(port, w1, Insert(0, 1, A_TUPLE)).files == BothInserted().files;
      assert {0} + {1} == {0, 1};
    }
    Then(port, w, Start(0) + [Insert(0, 0, A_TUPLE)], w1, Insert(0, 1, A_TUPLE), BothInserted());
  }

  lemma FailsHalfway(port: Port)
    ensures Reaches(port, Init(2, 2), FAILING, Failed(port))
  {
    var w, run := Init(2, 2), Start(0) + [Insert(0, 0, A_TUPLE)] + [Insert(0, 1, A_TUPLE)];
    InsertsBoth(port);
    var w2 := Next(port, BothInserted(), PreCommit(0));
    Then(port, w, run, BothInserted(), PreCommit(0), w2);
    var w3 := Next(port, w2, Step.CommitFile(0, 0));
    Then(port, w, run + [PreCommit(0)], w2, Step.CommitFile(0, 0), w3);
    assert w3.files == [FLUSHED_FILE, OPEN_FILE];
    assert Next(port, w3, LateAbort(0)) == Failed(port) by {
      assert Next(port, w3, LateAbort(0)).files == Failed(port).files;
      assert {} + {3} == {3};
    }
    Then(port, w, run + [PreCommit(0)] + [Step.CommitFile(0, 0)], w3, LateAbort(0), Failed(port));
  }

  /**
   In Rust the backend comes to rest with an empty list and the second relation's SQLite transaction still
   open, so that nobody else can write to that relation; in the Zig port nothing stays open.
   */
  lemma FailedCommitLeaks(port: Port)
    ensures Reaches(port, Init(2, 2), FAILING, Failed(port))
    ensures OpenBy(Failed(port), 0) == if port == Rust then {1} else {}
    ensures Failed(port).backends[0] == RESTING
    ensures CanWrite(Next(port, Failed(port), Begin(1)), 1, 1) <==> port == Zig
  {
    FailsHalfway(port);
    assert port == Rust ==> 1 in OpenBy(Failed(port), 0);
  }

  // ---- two updates of one row ----

  /** Two transactions have begun, and each updates row 1: first one to the end, then the other. */
  const BOTH_BEGIN: seq<Step> := Start(0) + Start(1)
  const FIRST_UPDATE: seq<Step> := [Update(0, 0, 1, B_TUPLE)] + Finish(0)
  const SECOND_UPDATE: seq<Step> := [Update(1, 0, 1, C_TUPLE)] + Finish(1)

  const BOTH_BEGUN: World :=
    World(6, {3}, {}, [File(Row1(0), Row1(0), None, {})], [Backend(Active, 4, 0, {}), Backend(Active, 5, 0, {})], [INSERTED])

  const FIRST: Store := Store(map[1 := Row(Header(3, 0, 4, 0), A_TUPLE), 2 := Row(Header(4, 0, 0, 0), B_TUPLE)], 0)
  const BOTH: Store := Store(FIRST.rows[3 := Row(Header(5, 0, 0, 0), C_TUPLE)], 0)

  const FIRST_OPS: seq<Op> := [Del(0, 1, 4, 0), Ins(0, 2, 4, 0, B_TUPLE)]
  const SECOND_OPS: seq<Op> := [Ins(0, 3, 5, 0, C_TUPLE)]

  const FIRST_DONE: World :=
    World(6, {3, 4}, {}, [File(FIRST, FIRST, None, {})], [RESTING, Backend(Active, 5, 0, {})], [INSERTED] + FIRST_OPS)
  const BOTH_DONE: World :=
    World(6, {3, 4, 5}, {}, [File(BOTH, BOTH, None, {})], [RESTING, RESTING], [INSERTED] + FIRST_OPS + SECOND_OPS)

  lemma BothBegin(port: Port)
    ensures Reaches(port, Row1Committed(2), BOTH_BEGIN, BOTH_BEGUN)
  {
    var w := Row1Committed(2);
    assert w.backends == [RESTING, RESTING];
    Starts(port, w, 0);
    Starts(port, Started(w, 0), 1);
    Chain(port, w, Start(0), Started(w, 0), Start(1), BOTH_BEGUN);
  }

  lemma FirstUpdates(port: Port)
    ensures Reaches(port, BOTH_BEGUN, FIRST_UPDATE, FIRST_DONE)
  {
    var w, s := BOTH_BEGUN, Update(0, 0, 1, B_TUPLE);
    assert Reaches(port, w, [], w) && [] + [s] == [s];
    NextAfter(SetXmax(Row1(0), 1, 4, 0).0.rows, 1);
    assert NewWork(w, s).rows == FIRST.rows;
    Writes(port, w, [], w, s, FIRST, FIRST_OPS);
    var mid := Wrote(w, 0, FIRST, FIRST_OPS);
    Finishes(port, mid, 0);
    assert {3} + {4} == {3, 4};
    Chain(port, w, [s], mid, Finish(0), FIRST_DONE);
  }

  lemma SecondUpdates(port: Port)
    ensures Reaches(port, FIRST_DONE, SECOND_UPDATE, BOTH_DONE)
  {
    var w, s := FIRST_DONE, Update(1, 0, 1, C_TUPLE);
    assert Reaches(port, w, [], w) && [] + [s] == [s];
    NextAfter(FIRST.rows, 2);
    assert NewWork(w, s).rows == BOTH.rows;
    Writes(port, w, [], w, s, BOTH, SECOND_OPS);
    var mid := Wrote(w, 1, BOTH, SECOND_OPS);
    Finishes(port, mid, 1);
    assert {3, 4} + {5} == {3, 4, 5};
    Chain(port, w, [s], mid, Finish(1), BOTH_DONE);
  }

  /** The next rowid, if the largest is known. */
  lemma NextAfter(rows: Rows, k: Rowid)
    requires k in rows && forall j :: j in rows ==> j <= k
    ensures NextRowid(rows) == k + 1
  {
  }

  lemma BothRead(b: Bid)
    requires b < 2
    ensures Seen(BOTH_BEGUN, b, 0, TakeSnapshot(BOTH_BEGUN, b)) == map[1 := A_TUPLE]
  {
    var w := BOTH_BEGUN;
    assert w.backends[0].xid == 4 && w.backends[1].xid == 5;
    assert IsRunning(w, 4) && forall x: nat :: x < 4 ==> !IsRunning(w, x);
    assert TakeSnapshot(w, b).xmin == 4;
    OrdersCoincide(3, 4);
    assert CopyOf(w, b, 0) == Row1(0);
  }

  lemma BothShow()
    ensures Visible(BOTH.rows, View({3, 4, 5}, 0, 0)) == map[2 := B_TUPLE, 3 := C_TUPLE]
  {
  }

  lemma BothUpdate(port: Port)
    ensures Reaches(port, Init(1, 2), INSERT + Finish(0) + BOTH_BEGIN + FIRST_UPDATE + SECOND_UPDATE, BOTH_DONE)
  {
    var w, start := Init(1, 2), INSERT + Finish(0);
    InsertCommits(port, 2);
    BothBegin(port);
    FirstUpdates(port);
    SecondUpdates(port);
    Chain(port, w, start, Row1Committed(2), BOTH_BEGIN, BOTH_BEGUN);
    Chain(port, w, start + BOTH_BEGIN, BOTH_BEGUN, FIRST_UPDATE, FIRST_DONE);
    Chain(port, w, start + BOTH_BEGIN + FIRST_UPDATE, FIRST_DONE, SECOND_UPDATE, BOTH_DONE);
  }

  /**
   `update_row` inserts the new version whatever becomes of the old one. Two transactions that both read
   row 1 and update it both commit, and one row has become two.
   */
  lemma BothUpdatesSurvive(port: Port)
    ensures Reaches(port, Init(1, 2), INSERT + Finish(0) + BOTH_BEGIN + FIRST_UPDATE + SECOND_UPDATE, BOTH_DONE)
    ensures forall b :: 0 <= b < 2 ==> Seen(BOTH_BEGUN, b, 0, TakeSnapshot(BOTH_BEGUN, b)) == map[1 := A_TUPLE]
    ensures Visible(BOTH_DONE.files[0].base.rows, CommittedView(BOTH_DONE)) == map[2 := B_TUPLE, 3 := C_TUPLE]
  {
    BothUpdate(port);
    forall b | 0 <= b < 2 ensures Seen(BOTH_BEGUN, b, 0, TakeSnapshot(BOTH_BEGUN, b)) == map[1 := A_TUPLE] {
      BothRead(b);
    }
    BothShow();
  }
}
