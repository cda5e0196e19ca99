/**
 The two-engine transaction protocol as a state machine: several Postgres backends write to
 several relations, each kept in its own SQLite file, and a run may crash at any step.

 Postgres is the environment. It hands out xids, keeps the commit log, numbers commands and takes
 snapshots. Each SQLite file has its committed contents and, while one backend holds a write
 transaction on it, that backend's working copy; SQLite admits one writer at a time.
 */
module Protocol {
  import opened Basics
  import opened Xids
  import opened Storage
  import opened Visibility

  type Bid = nat

  /**
   One SQLite file. `base` is what has been committed to SQLite and `work` is what the writer
   sees; without a writer they are equal. `pending` is bookkeeping of the model, not of SQLite: the
   xids that wrote in the open SQLite transaction.
   */
  datatype File = File(base: Store, work: Store, writer: Option<Bid>, pending: set<Xid>)

  /** `Committing(todo)`: PreCommit has begun and `todo` are the relations not yet visited by it. */
  datatype Phase = Idle | Active | Committing(todo: set<Rel>)

  /** `xid` is 0 until the transaction first needs one; `touched` is TX_RELS. */
  datatype Backend = Backend(phase: Phase, xid: Xid, cid: nat, touched: set<Rel>)

  const RESTING: Backend := Backend(Idle, 0, 0, {})

  /** A logical change: what a transaction did to a table, with no trace of how it is stored. */
  datatype Op =
    | Ins(rel: Rel, rowid: Rowid, xid: Xid, cid: nat, tuple: Bytes)
    | Del(rel: Rel, rowid: Rowid, xid: Xid, cid: nat)

  /** `hist` lists every logical change ever made, in the order in which they were made. */
  datatype World = World(
    nextXid: int,
    committed: set<Xid>,
    aborted: set<Xid>,
    files: seq<File>,
    backends: seq<Backend>,
    hist: seq<Op>
  )

  function Init(nfiles: nat, nbackends: nat): (w: World) {
    World(FIRST_NORMAL, {}, {},
          seq(nfiles, i => File(EMPTY, EMPTY, None, {})), seq(nbackends, i => RESTING), [])
  }

  predicate IsRunning(w: World, x: int) {
    FIRST_NORMAL <= x < w.nextXid && x < TWO32 && x !in w.committed && x !in w.aborted
  }

  /** The xids that Postgres reports as in progress. */
  function Running(w: World): (s: set<Xid>)
    ensures forall x: Xid :: x in s <==> IsRunning(w, x)
  {
    set x: Xid | FIRST_NORMAL <= x < w.nextXid && IsRunning(w, x)
  }

  // ---- steps ----

  /** The contents that backend `b` reads: its own working copy, else what SQLite has committed. */
  function CopyOf(w: World, b: Bid, r: Rel): (s: Store)
    requires r < |w.files|
  {
    if w.files[r].writer == Some(b) then w.files[r].work else w.files[r].base
  }

  datatype Step =
    | Begin(b: Bid)
    | AssignXid(b: Bid)
    | NextCommand(b: Bid)
    | Touch(b: Bid, r: Rel)
    | Insert(b: Bid, r: Rel, tuple: Bytes)
    | Delete(b: Bid, r: Rel, k: Rowid)
    | Update(b: Bid, r: Rel, k: Rowid, tuple: Bytes)
    | Retract(b: Bid, r: Rel, k: Rowid)
    | Vacuum(b: Bid, r: Rel, h: Xid)
    /** A vacuum that finds the watermark at or past its horizon: it reads, and opens nothing. */
    | SkipVacuum(b: Bid, r: Rel, h: Xid)
    | PreCommit(b: Bid)
    | CommitFile(b: Bid, r: Rel)
    | CommitRecord(b: Bid)
    | Abort(b: Bid)
    /** An error after PreCommit began: a failed SQLite COMMIT, or Postgres giving up itself. */
    | LateAbort(b: Bid)
    | Crash

  predicate CanWrite(w: World, b: Bid, r: Rel) {
    && b < |w.backends| && r < |w.files|
    && w.backends[b].phase == Active
    && (w.files[r].writer == None || w.files[r].writer == Some(b))
  }

  /** A horizon that Postgres may report: not after any running transaction. */
  predicate IsHorizon(w: World, h: Xid) {
    FIRST_NORMAL <= h <= w.nextXid && forall x: Xid :: x in Running(w) ==> h <= x
  }

  predicate Enabled(w: World, s: Step) {
    match s
    case Begin(b) => b < |w.backends| && w.backends[b].phase == Idle
    case AssignXid(b) =>
      b < |w.backends| && w.backends[b].phase == Active && w.backends[b].xid == 0 && w.nextXid + 1 < TWO31
    case NextCommand(b) => b < |w.backends| && w.backends[b].phase == Active
    case Touch(b, r) => b < |w.backends| && r < |w.files| && w.backends[b].phase == Active
    case Insert(b, r, _) => CanWrite(w, b, r) && w.backends[b].xid != 0
    case Delete(b, r, _) => CanWrite(w, b, r) && w.backends[b].xid != 0
    case Update(b, r, _, _) => CanWrite(w, b, r) && w.backends[b].xid != 0
    case Retract(b, r, k) =>
      // the row is the speculative insert of this very command
      && CanWrite(w, b, r) && w.backends[b].xid != 0 && Stampable(w.files[r].work, k)
      && w.files[r].work.rows[k].header.xmin == w.backends[b].xid
      && w.files[r].work.rows[k].header.cmin == w.backends[b].cid
    case Vacuum(b, r, h) => CanWrite(w, b, r) && IsHorizon(w, h) && w.files[r].work.watermark < h
    case SkipVacuum(b, r, h) =>
      && b < |w.backends| && r < |w.files| && w.backends[b].phase == Active
      && IsHorizon(w, h) && h <= CopyOf(w, b, r).watermark
    case PreCommit(b) => b < |w.backends| && w.backends[b].phase == Active
    case CommitFile(b, r) =>
      && b < |w.backends| && r < |w.files|
      && w.backends[b].phase.Committing? && r in w.backends[b].phase.todo
    case CommitRecord(b) =>
      b < |w.backends| && w.backends[b].phase.Committing? && w.backends[b].phase.todo == {}
    case Abort(b) => b < |w.backends| && w.backends[b].phase == Active
    case LateAbort(b) => b < |w.backends| && w.backends[b].phase.Committing?
    case Crash => true
  }

  /** SQLite COMMIT, if the backend has a transaction open on the file. */
  function Committed(f: File, b: Bid): (g: File) {
    if f.writer == Some(b) then File(f.work, f.work, None, {}) else f
  }

  /** SQLite ROLLBACK, or the death of the connection. */
  function RolledBack(f: File): (g: File) {
    File(f.base, f.base, None, {})
  }

  /** `on_abort`: roll back every touched relation that has a SQLite transaction of this backend. */
  function RollbackTouched(files: seq<File>, b: Bid, touched: set<Rel>): (g: seq<File>)
    ensures |g| == |files|
  {
    seq(|files|, i requires 0 <= i < |files| =>
      if i in touched && files[i].writer == Some(b) then RolledBack(files[i]) else files[i])
  }

  function OwnXid(w: World, b: Bid): (s: set<Xid>)
    requires b < |w.backends|
  {
    if w.backends[b].xid == 0 then {} else {w.backends[b].xid}
  }

  /** A write by `b` to relation `r`: it opens the SQLite transaction if need be. */
  function Write(w: World, b: Bid, r: Rel, s: Store, ops: seq<Op>): (u: World)
    requires b < |w.backends| && r < |w.files|
  {
    var f := w.files[r];
    w.(files := w.files[r := File(f.base, s, Some(b), f.pending + OwnXid(w, b))],
       backends := w.backends[b := w.backends[b].(touched := w.backends[b].touched + {r})],
       hist := w.hist + ops)
  }

  /** `ensure_in_xact`: the relation is put on the list. */
  function Touched(w: World, b: Bid, r: Rel): (u: World)
    requires b < |w.backends|
  {
    w.(backends := w.backends[b := w.backends[b].(touched := w.backends[b].touched + {r})])
  }

  function Aborted(w: World, b: Bid): (u: World)
    requires b < |w.backends|
  {
    w.(aborted := w.aborted + OwnXid(w, b),
       files := RollbackTouched(w.files, b, w.backends[b].touched),
       backends := w.backends[b := RESTING])
  }

  function Crashed(w: World): (u: World) {
    w.(aborted := w.aborted + Running(w),
       files := seq(|w.files|, i requires 0 <= i < |w.files| => RolledBack(w.files[i])),
       backends := seq(|w.backends|, i => RESTING))
  }

  /** The steps that run a statement on the `storage` table. */
  predicate IsWrite(s: Step) {
    s.Insert? || s.Delete? || s.Update? || s.Retract? || s.Vacuum?
  }

  /** The working copy that a statement leaves behind. */
  ghost function NewWork(w: World, s: Step): (t: Store)
    requires IsWrite(s) && Enabled(w, s)
  {
    var t, be := w.files[s.r].work, w.backends[s.b];
    match s
    case Insert(_, _, tuple) => InsertRow(t, be.xid, be.cid, tuple).0
    case Delete(_, _, k) => SetXmax(t, k, be.xid, be.cid).0
    case Update(_, _, k, tuple) => UpdateRow(t, k, be.xid, be.cid, tuple).0
    case Retract(_, _, k) => PhysicalDelete(t, k).0
    case Vacuum(_, _, h) => VacuumDead(t, h).0
  }

  /**
   The logical changes that a statement makes. `tuple_delete` reports TM_Deleted, and nothing
   happened, when no row was stamped. `tuple_update` then reports success all the same: all that
   happened is an insertion.
   */
  ghost function Logged(w: World, s: Step): (ops: seq<Op>)
    requires IsWrite(s) && Enabled(w, s)
    ensures forall i :: 0 <= i < |ops| ==> ops[i].rel == s.r && ops[i].xid == w.backends[s.b].xid != 0
    ensures forall i :: 0 <= i < |ops| ==> ops[i].cid == w.backends[s.b].cid
  {
    var t, be := w.files[s.r].work, w.backends[s.b];
    match s
    case Insert(_, r, tuple) => [Ins(r, InsertRow(t, be.xid, be.cid, tuple).1, be.xid, be.cid, tuple)]
    case Delete(_, r, k) => if SetXmax(t, k, be.xid, be.cid).1 == 0 then [] else [Del(r, k, be.xid, be.cid)]
    case Update(_, r, k, tuple) =>
      var inserted := Ins(r, UpdateRow(t, k, be.xid, be.cid, tuple).1, be.xid, be.cid, tuple);
      if Stampable(t, k) then [Del(r, k, be.xid, be.cid), inserted] else [inserted]
    case Retract(_, r, k) => [Del(r, k, be.xid, be.cid)]
    case Vacuum(_, _, _) => []
  }

  ghost function Next(port: Port, w: World, s: Step): (u: World)
    requires Enabled(w, s)
  {
    if IsWrite(s) then Write(w, s.b, s.r, NewWork(w, s), Logged(w, s))
    else match s
      case Begin(b) => w.(backends := w.backends[b := Backend(Active, 0, 0, {})])
      case AssignXid(b) =>
        w.(nextXid := w.nextXid + 1, backends := w.backends[b := w.backends[b].(xid := ToXid(w.nextXid))])
      case NextCommand(b) => w.(backends := w.backends[b := w.backends[b].(cid := w.backends[b].cid + 1)])
      case Touch(b, r) => Touched(w, b, r)
      case SkipVacuum(b, r, _) => Touched(w, b, r)
      case PreCommit(b) =>
        // the one difference between the implementations: Rust empties the list before it commits
        var be := w.backends[b];
        w.(backends := w.backends[b :=
          be.(phase := Committing(be.touched), touched := if port == Rust then {} else be.touched)])
      case CommitFile(b, r) =>
        w.(files := w.files[r := Committed(w.files[r], b)],
           backends := w.backends[b := w.backends[b].(phase := Committing(w.backends[b].phase.todo - {r}))])
      case CommitRecord(b) =>
        w.(committed := w.committed + OwnXid(w, b), backends := w.backends[b := RESTING])
      case Abort(b) => Aborted(w, b)
      case LateAbort(b) => Aborted(w, b)
      case Crash => Crashed(w)
  }

  // ---- runs ----

  /** The world after the steps of `run`, each of which must be enabled when its turn comes. */
  ghost predicate ValidRun(port: Port, w: World, run: seq<Step>)
    decreases run
  {
    run == [] || (Enabled(w, run[0]) && ValidRun(port, Next(port, w, run[0]), run[1..]))
  }

  ghost function Exec(port: Port, w: World, run: seq<Step>): (u: World)
    requires ValidRun(port, w, run)
    decreases run
  {
    if run == [] then w else Exec(port, Next(port, w, run[0]), run[1..])
  }

  /** `run` is a run that leads from `w` to `u`. */
  ghost predicate Reaches(port: Port, w: World, run: seq<Step>, u: World) {
    ValidRun(port, w, run) && u == Exec(port, w, run)
  }

  lemma ExecUnfolds(port: Port, w: World, p: seq<Step>, q: seq<Step>)
    requires p != [] && Enabled(w, p[0]) && ValidRun(port, Next(port, w, p[0]), p[1..] + q)
    ensures ValidRun(port, w, p + q) && Exec(port, w, p + q) == Exec(port, Next(port, w, p[0]), p[1..] + q)
  {
    assert (p + q)[1..] == p[1..] + q;
  }

  lemma {:induction false} ExecAppend(port: Port, w: World, p: seq<Step>, q: seq<Step>)
    requires ValidRun(port, w, p) && ValidRun(port, Exec(port, w, p), q)
    ensures ValidRun(port, w, p + q)
    ensures Exec(port, w, p + q) == Exec(port, Exec(port, w, p), q)
    decreases p
  {
    if p == [] {
      assert p + q == q;
    } else {
      ExecAppend(port, Next(port, w, p[0]), p[1..], q);
      ExecUnfolds(port, w, p, q);
    }
  }

  // ---- what a reader sees ----

  /** Postgres' answers about xids, as given to backend `b`. */
  function EnvOf(w: World, b: Bid): (env: XactEnv)
    requires b < |w.backends|
  {
    XactEnv(OwnXid(w, b), w.committed, Running(w))
  }

  function FirstRunning(w: World, x: nat): (m: nat)
    requires x <= w.nextXid
    ensures x <= m <= w.nextXid
    ensures m < w.nextXid ==> IsRunning(w, m)
    ensures forall y: nat :: x <= y < m ==> !IsRunning(w, y)
    decreases w.nextXid - x
  {
    if x == w.nextXid || IsRunning(w, x) then x else FirstRunning(w, x + 1)
  }

  /** The running xids of other backends, as listed in a snapshot. */
  function Others(w: World, b: Bid, n: nat): (xs: seq<Xid>)
    requires n <= w.nextXid <= TWO32 && b < |w.backends|
    ensures forall y: Xid :: y in xs <==> y < n && IsRunning(w, y) && y !in OwnXid(w, b)
  {
    if n == 0 then []
    else Others(w, b, n - 1) +
         if IsRunning(w, n - 1) && n - 1 !in OwnXid(w, b) then [(n - 1) as Xid] else []
  }

  /** The MVCC snapshot that backend `b` gets if it takes one now. */
  function TakeSnapshot(w: World, b: Bid): (snap: Snapshot)
    requires 0 <= w.nextXid < TWO31 && b < |w.backends|
  {
    Snapshot(SnapMvcc, FirstRunning(w, 0) as Xid, w.nextXid as Xid, Others(w, b, w.nextXid), w.backends[b].cid)
  }

  /** The table that backend `b` reads from relation `r` under `snap`. */
  function Seen(w: World, b: Bid, r: Rel, snap: Snapshot): (t: Table)
    requires r < |w.files| && b < |w.backends|
  {
    var rows := CopyOf(w, b, r).rows;
    map k | k in rows && RowVisible(rows[k].header, EnvOf(w, b), snap) :: rows[k].tuple
  }

  // ---- what it ought to see ----

  /** A point of view: the transactions whose changes count, and the own commands that count. */
  datatype View = View(xids: set<Xid>, own: Xid, curcid: nat)

  predicate Sees(v: View, x: Xid, c: nat) {
    x in v.xids || (x == v.own && c < v.curcid)
  }

  function ApplyOp(t: Table, op: Op): (u: Table) {
    match op
    case Ins(_, k, _, _, tuple) => t[k := tuple]
    case Del(_, k, _, _) => t - {k}
  }

  /**
   The table that results from carrying out, on an empty plain table and in the order in which they
   were made, exactly those changes to relation `r` that count from point of view `v`.
   */
  function Replay(hist: seq<Op>, r: Rel, v: View): (t: Table) {
    if hist == [] then map[]
    else
      var t := Replay(hist[..|hist| - 1], r, v);
      var op := hist[|hist| - 1];
      if op.rel == r && Sees(v, op.xid, op.cid) then ApplyOp(t, op) else t
  }
}
