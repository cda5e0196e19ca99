/**
 One backend's SQLite connections: the storage calls, and the transaction callbacks that walk the
 touched relations.
 */
module Backends {
  import opened Basics
  import opened Xids
  import opened Storage
  import opened Savepoints

  type Conns = map<Rel, Conn>

  /** What a callback does to the connection of a touched relation. */
  datatype Callback = StartSub(id: SubId) | CommitSub(id: SubId) | AbortSub(id: SubId) | PreCommit | AbortTop

  function Apply(c: Conn, cb: Callback): (d: Conn) {
    match cb
    case StartSub(id) => SubStart(c, id)
    case CommitSub(id) => SubCommit(c, id)
    case AbortSub(id) => SubAbort(c, id)
    case PreCommit => SqlCommit(c)
    case AbortTop => SqlRollback(c)
  }

  function ApplyTo(conns: Conns, rels: set<Rel>, cb: Callback): (d: Conns) {
    map r | r in conns :: if r in rels then Apply(conns[r], cb) else conns[r]
  }

  /** The connection that a storage call works on: the file's contents `disk`, unless in a transaction. */
  function Opened(conns: Conns, r: Rel, disk: Store): (c: Conn) {
    if r in conns && conns[r].inTxn then conns[r] else Conn(false, disk, disk, [])
  }

  /** The contents from which a storage call starts: the own work in a transaction, else those of the file. */
  function StartOf(conns: Conns, r: Rel, disk: Store): (s: Store) {
    if r in conns && conns[r].inTxn then conns[r].work else disk
  }

  /** A storage call has left what is committed, and the savepoints, as they were. */
  predicate KeepsDisk(conns: Conns, r: Rel, disk: Store, d: Conn) {
    if r in conns && conns[r].inTxn then d.disk == conns[r].disk && d.saves == conns[r].saves
    else d.disk == disk && d.saves == []
  }

  // ---- what the callbacks are for ----

  /** The work of `before` is in the file, and nothing is open any more. */
  predicate MadeDurable(before: Conn, after: Conn) {
    after.disk == after.work == before.work && !after.inTxn && after.saves == []
  }

  /** The work of `before` is gone, and nothing is open any more. */
  predicate Undone(before: Conn, after: Conn) {
    after.disk == after.work == before.disk && !after.inTxn && after.saves == []
  }

  predicate IsSub(cb: Callback) {
    cb.StartSub? || cb.CommitSub? || cb.AbortSub?
  }

  function EventOf(cb: Callback): (e: Event)
    requires IsSub(cb)
  {
    match cb
    case StartSub(id) => Start(id)
    case CommitSub(id) => Commit(id)
    case AbortSub(id) => Abort(id)
  }

  /**
   The callback has done to a connection what its event does to nested transactions: the contents stay as
   they are when a subtransaction starts or commits, and become what they were at its start when it aborts.
   */
  ghost predicate TakesEffect(cb: Callback, before: Conn, after: Conn)
    requires IsSub(cb)
  {
    forall n, last :: Simulates(before, n, last) && Fits(n, last, EventOf(cb)) ==>
      && Simulates(after, Step(n, EventOf(cb)), LastId(last, EventOf(cb)))
      && after.work == if cb.AbortSub? then n.frames[|n.frames| - 1].saved else before.work
  }

  lemma ApplyTakesEffect(c: Conn, cb: Callback)
    requires IsSub(cb)
    ensures TakesEffect(cb, c, Apply(c, cb))
  {
    forall n, last | Simulates(c, n, last) && Fits(n, last, EventOf(cb))
      ensures Simulates(Apply(c, cb), Step(n, EventOf(cb)), LastId(last, EventOf(cb)))
    {
      EventSimulated(c, n, last, EventOf(cb));
    }
  }

  /** COMMIT and ROLLBACK, on a set of relations. */
  lemma EndsTakeEffect(conns: Conns, rels: set<Rel>)
    requires rels <= conns.Keys && forall r :: r in conns ==> conns[r].Valid()
    ensures forall r :: r in rels ==> MadeDurable(conns[r], ApplyTo(conns, rels, PreCommit)[r])
    ensures forall r :: r in rels ==> Undone(conns[r], ApplyTo(conns, rels, AbortTop)[r])
  {
  }

  /** The relations whose connection has a SQLite transaction open. */
  function Open(conns: Conns): (s: set<Rel>) {
    set r | r in conns && conns[r].inTxn
  }

  method PickAny<T>(s: set<T>) returns (x: T)
    requires |s| > 0
    ensures x in s
  {
    x :| x in s;
  }

  /** SQLite's rowid choice, found by visiting every key. */
  method FindNextRowid(rows: Rows) returns (k: Rowid)
    ensures k == NextRowid(rows)
  {
    if |rows.Keys| == 0 {
      assert rows == map[];
      return 1;
    }
    var todo := rows.Keys;
    var m := PickAny(todo);
    while |todo| > 0
      invariant todo <= rows.Keys && m in rows.Keys
      invariant forall x :: x in rows.Keys && x !in todo ==> x <= m
      decreases todo
    {
      var x := PickAny(todo);
      m := if x > m then x else m;
      todo := todo - {x};
    }
    assert m == MaxOf(rows.Keys);
    k := m + 1;
  }

  /** The loop of `insert_batch`: one statement stepped over the tuples. */
  method StepInserts(s: Store, xmin: Xid, cmin: nat, tuples: seq<Bytes>) returns (t: Store, ks: seq<Rowid>)
    ensures (t, ks) == InsertBatch(s, xmin, cmin, tuples)
    ensures Added(s, t, ks, xmin, cmin, tuples)
  {
    t, ks := s, [];
    for i := 0 to |tuples|
      invariant (t, ks) == InsertBatch(s, xmin, cmin, tuples[..i])
    {
      assert tuples[..i + 1][..i] == tuples[..i];
      var k := FindNextRowid(t.rows);
      t := t.(rows := t.rows[k := Row(Header(xmin, cmin, 0, 0), tuples[i])]);
      ks := ks + [k];
    }
    assert tuples[..|tuples|] == tuples;
    InsertBatchIsExact(s, xmin, cmin, tuples);
  }

  class Backend {
    var conns: Conns
    var txRels: set<Rel>

    ghost predicate Valid()
      reads this
    {
      txRels <= conns.Keys && forall r :: r in conns ==> conns[r].Valid()
    }

    /** Every open SQLite transaction is on the list that commit and abort will walk. */
    ghost predicate Tidy()
      reads this
    {
      Open(conns) <= txRels
    }

    constructor ()
      ensures Valid() && Tidy() && conns == map[] && txRels == {}
    {
      conns := map[];
      txRels := {};
    }

    // ---- storage calls ----

    /** `ensure_in_xact`: puts the relation on the list; opens no transaction. */
    method EnsureInXact(r: Rel, disk: Store)
      requires Valid()
      modifies this
      ensures Valid() && txRels == old(txRels) + {r}
      ensures conns == old(conns)[r := Opened(old(conns), r, disk)]
      ensures Open(conns) <= old(Open(conns))
    {
      conns := conns[r := Opened(conns, r, disk)];
      txRels := txRels + {r};
    }

    /** `insert_batch`: one statement stepped over the tuples. */
    method InsertRows(r: Rel, disk: Store, xmin: Xid, cmin: nat, tuples: seq<Bytes>) returns (ks: seq<Rowid>)
      requires Valid()
      modifies this
      ensures Valid() && txRels == old(txRels) + {r} && (old(Tidy()) ==> Tidy())
      ensures
        var c := Opened(old(conns), r, disk);
        && (conns[r].work, ks) == InsertBatch(c.work, xmin, cmin, tuples)
        && conns == old(conns)[r := BeginIfNeeded(c).(work := conns[r].work)]
      ensures conns[r].inTxn && KeepsDisk(old(conns), r, disk, conns[r])
      ensures Added(StartOf(old(conns), r, disk), conns[r].work, ks, xmin, cmin, tuples)
    {
      EnsureInXact(r, disk);
      var c := BeginIfNeeded(conns[r]);
      var t: Store;
      t, ks := StepInserts(c.work, xmin, cmin, tuples);
      conns := conns[r := c.(work := t)];
    }

    /** `set_xmax`, as `tuple_delete` uses it: no row affected means that the row counts as deleted. */
    method Delete(r: Rel, disk: Store, k: Rowid, xid: Xid, cid: nat) returns (n: nat)
      requires Valid()
      modifies this
      ensures Valid() && txRels == old(txRels) + {r} && (old(Tidy()) ==> Tidy())
      ensures
        var c := Opened(old(conns), r, disk);
        && n == SetXmax(c.work, k, xid, cid).1
        && conns == old(conns)[r := BeginIfNeeded(c).(work := SetXmax(c.work, k, xid, cid).0)]
      ensures conns[r].inTxn && KeepsDisk(old(conns), r, disk, conns[r])
      ensures (conns[r].work, n) == SetXmax(StartOf(old(conns), r, disk), k, xid, cid)
      ensures n == if k in StartOf(old(conns), r, disk).rows && StartOf(old(conns), r, disk).rows[k].header.xmax == 0 then 1 else 0
    {
      EnsureInXact(r, disk);
      var c := BeginIfNeeded(conns[r]);
      n := 0;
      if k in c.work.rows && c.work.rows[k].header.xmax == 0 {
        var row := c.work.rows[k];
        row := row.(header := row.header.(xmax := xid, cmax := cid));
        c := c.(work := c.work.(rows := c.work.rows[k := row]));
        n := 1;
      }
      conns := conns[r := c];
    }

    /** `update_row`: the second statement runs whatever the first one matched. */
    method Update(r: Rel, disk: Store, k: Rowid, xid: Xid, cid: nat, tuple: Bytes) returns (j: Rowid)
      requires Valid()
      modifies this
      ensures Valid() && txRels == old(txRels) + {r} && (old(Tidy()) ==> Tidy())
      ensures
        var c := Opened(old(conns), r, disk);
        && j == UpdateRow(c.work, k, xid, cid, tuple).1
        && conns == old(conns)[r := BeginIfNeeded(c).(work := UpdateRow(c.work, k, xid, cid, tuple).0)]
      ensures conns[r].inTxn && KeepsDisk(old(conns), r, disk, conns[r])
      ensures (conns[r].work, j) == UpdateRow(StartOf(old(conns), r, disk), k, xid, cid, tuple)
    {
      var _ := Delete(r, disk, k, xid, cid);
      var c := conns[r];
      j := FindNextRowid(c.work.rows);
      c := c.(work := c.work.(rows := c.work.rows[j := Row(Header(xid, cid, 0, 0), tuple)]));
      conns := conns[r := c];
    }

    /** `vacuum_dead`: the watermark is read first and written last, in the same SQLite transaction. */
    method Vacuum(r: Rel, disk: Store, h: Xid) returns (removed: nat)
      requires Valid()
      modifies this
      ensures Valid() && txRels == old(txRels) + {r} && (old(Tidy()) ==> Tidy())
      ensures
        var c := Opened(old(conns), r, disk);
        && removed == VacuumDead(c.work, h).1
        && conns[r].work == VacuumDead(c.work, h).0
        && (h <= c.work.watermark ==> conns == old(conns)[r := c])
        && (h > c.work.watermark ==> conns == old(conns)[r := BeginIfNeeded(c).(work := conns[r].work)])
      ensures KeepsDisk(old(conns), r, disk, conns[r])
      ensures (conns[r].work, removed) == VacuumDead(StartOf(old(conns), r, disk), h)
      ensures removed == |StartOf(old(conns), r, disk).rows| - |conns[r].work.rows|
    {
      VacuumCounts(StartOf(conns, r, disk), h);
      EnsureInXact(r, disk);
      var last := conns[r].work.watermark;
      if h <= last {
        return 0;
      }
      var c := BeginIfNeeded(conns[r]);
      var dead := ReclaimedKeys(c.work, h);
      removed := |dead|;
      c := c.(work := Store(c.work.rows - dead, last));
      c := c.(work := c.work.(watermark := h));
      conns := conns[r := c];
    }

    // ---- transaction callbacks ----

    /** `on_sub_start`, `on_sub_commit` and `on_sub_abort`: the same walk, whatever order the set is in. */
    method OnSubtransaction(cb: Callback)
      requires Valid() && IsSub(cb)
      modifies this`conns
      ensures Valid() && conns == ApplyTo(old(conns), txRels, cb)
      ensures forall r :: r in txRels ==> TakesEffect(cb, old(conns)[r], conns[r])
      ensures forall r :: r in conns && r !in txRels ==> conns[r] == old(conns)[r]
      ensures old(Tidy()) ==> Tidy()
    {
      forall c ensures TakesEffect(cb, c, Apply(c, cb)) {
        ApplyTakesEffect(c, cb);
      }
      var todo := txRels;
      while |todo| > 0
        invariant todo <= txRels && conns == ApplyTo(old(conns), txRels - todo, cb)
        decreases todo
      {
        var r := PickAny(todo);
        conns := conns[r := Apply(conns[r], cb)];
        todo := todo - {r};
      }
    }

    /** `on_abort`. ROLLBACK is taken to succeed; a failure is only a warning in the source. */
    method OnAbort()
      requires Valid()
      modifies this
      ensures Valid() && txRels == {} && conns == ApplyTo(old(conns), old(txRels), AbortTop)
      ensures Open(conns) == old(Open(conns) - txRels)
      ensures conns.Keys == old(conns).Keys
      ensures forall r :: r in old(txRels) ==> Undone(old(conns)[r], conns[r])
      ensures forall r :: r in conns && r !in old(txRels) ==> conns[r] == old(conns)[r]
    {
      var rels := txRels;
      txRels := {};
      var todo := rels;
      while |todo| > 0
        invariant todo <= rels <= old(conns).Keys && txRels == {}
        invariant conns == ApplyTo(old(conns), rels - todo, AbortTop)
        decreases todo
      {
        var r := PickAny(todo);
        conns := conns[r := SqlRollback(conns[r])];
        todo := todo - {r};
      }
      EndsTakeEffect(old(conns), rels);
    }

    /**
     `onPrecommit` of the Zig port. `failing` are the relations whose COMMIT fails; the first of them
     to be visited ends the walk with an error. `done` are the relations that were committed.
     */
    method OnPrecommitZig(failing: set<Rel>) returns (ok: bool, done: set<Rel>)
      requires Valid()
      modifies this
      ensures Valid() && done <= old(txRels) && conns == ApplyTo(old(conns), done, PreCommit)
      ensures conns.Keys == old(conns).Keys
      ensures forall r :: r in done ==> MadeDurable(old(conns)[r], conns[r])
      ensures forall r :: r in conns && r !in done ==> conns[r] == old(conns)[r]
      ensures ok <==> forall r :: r in old(txRels) ==> !(old(conns)[r].inTxn && r in failing)
      ensures ok ==> done == old(txRels) && txRels == {}
      ensures !ok ==> txRels == old(txRels) && exists r :: r in txRels - done && r in failing && conns[r].inTxn
    {
      var todo := txRels;
      done := {};
      while |todo| > 0
        invariant todo <= txRels == old(txRels) <= old(conns).Keys && done == txRels - todo
        invariant conns == ApplyTo(old(conns), done, PreCommit)
        invariant forall r :: r in done ==> !(old(conns)[r].inTxn && r in failing)
        decreases todo
      {
        var r := PickAny(todo);
        if conns[r].inTxn && r in failing {
          EndsTakeEffect(old(conns), done);
          return false, done;
        }
        conns := conns[r := SqlCommit(conns[r])];
        todo := todo - {r};
        done := done + {r};
      }
      txRels := {};
      EndsTakeEffect(old(conns), done);
      ok := true;
    }

    /** `on_precommit` of the Rust implementation: the list is emptied before the walk. */
    method OnPrecommitRust(failing: set<Rel>) returns (ok: bool, done: set<Rel>)
      requires Valid()
      modifies this
      ensures Valid() && txRels == {} && done <= old(txRels) && conns == ApplyTo(old(conns), done, PreCommit)
      ensures conns.Keys == old(conns).Keys
      ensures forall r :: r in done ==> MadeDurable(old(conns)[r], conns[r])
      ensures forall r :: r in conns && r !in done ==> conns[r] == old(conns)[r]
      ensures ok <==> forall r :: r in old(txRels) ==> !(old(conns)[r].inTxn && r in failing)
      ensures ok ==> done == old(txRels)
      ensures !ok ==> exists r :: r in old(txRels) - done && r in failing && conns[r].inTxn
    {
      var rels := txRels;
      txRels := {};
      var todo := rels;
      done := {};
      while |todo| > 0
        invariant todo <= rels <= old(conns).Keys && done == rels - todo && txRels == {}
        invariant conns == ApplyTo(old(conns), done, PreCommit)
        invariant forall r :: r in done ==> !(old(conns)[r].inTxn && r in failing)
        decreases todo
      {
        var r := PickAny(todo);
        if conns[r].inTxn && r in failing {
          EndsTakeEffect(old(conns), done);
          return false, done;
        }
        conns := conns[r := SqlCommit(conns[r])];
        todo := todo - {r};
        done := done + {r};
      }
      EndsTakeEffect(old(conns), done);
      ok := true;
    }

    /** The end of a transaction in the Zig port: whatever fails, nothing stays open. */
    method EndZig(failing: set<Rel>) returns (ok: bool, done: set<Rel>)
      requires Valid() && Tidy()
      modifies this
      ensures Valid() && txRels == {} && Open(conns) == {}
      ensures done <= old(txRels) && (ok ==> done == old(txRels))
      ensures ok <==> forall r :: r in old(txRels) ==> !(old(conns)[r].inTxn && r in failing)
      ensures conns.Keys == old(conns).Keys
      ensures forall r :: r in done ==> MadeDurable(old(conns)[r], conns[r])
      ensures forall r :: r in old(txRels) - done ==> Undone(old(conns)[r], conns[r])
      ensures forall r :: r in conns && r !in old(txRels) ==> conns[r] == old(conns)[r]
      ensures ok ==> conns == ApplyTo(old(conns), old(txRels), PreCommit)
      ensures !ok ==> conns == ApplyTo(ApplyTo(old(conns), done, PreCommit), old(txRels), AbortTop)
    {
      ok, done := OnPrecommitZig(failing);
      if !ok {
        OnAbort();
      }
    }

    /** The same in the Rust implementation: nothing stays open if and only if every COMMIT succeeded. */
    method EndRust(failing: set<Rel>) returns (ok: bool, done: set<Rel>)
      requires Valid() && Tidy()
      modifies this
      ensures Valid() && txRels == {}
      ensures done <= old(txRels) && conns == ApplyTo(old(conns), done, PreCommit)
      ensures ok <==> forall r :: r in old(txRels) ==> !(old(conns)[r].inTxn && r in failing)
      ensures conns.Keys == old(conns).Keys
      ensures forall r :: r in done ==> MadeDurable(old(conns)[r], conns[r])
      ensures forall r :: r in conns && r !in done ==> conns[r] == old(conns)[r]
      ensures Open(conns) == old(Open(conns)) - done
      ensures Open(conns) == {} <==> ok
    {
      ok, done := OnPrecommitRust(failing);
      if !ok {
        ghost var r :| r in old(txRels) - done && r in failing && conns[r].inTxn;
        assert r in Open(conns);
        OnAbort();
      }
    }
  }
}
