/**
 When SQLite issues a rowid twice. `storage.rowid` is not AUTOINCREMENT: the next rowid is one above the
 largest that is physically present, whatever has been issued before.
 */
module Rowids {
  import opened Basics
  import opened Storage
  import opened Protocol
  import opened Snapshots

  predicate Issues(op: Op, r: Rel, k: Rowid) {
    op.Ins? && op.rel == r && op.rowid == k
  }

  /** Row `k` of the relation has been inserted at some time, by whatever became of its transaction. */
  ghost predicate Issued(hist: seq<Op>, r: Rel, k: Rowid) {
    exists i :: 0 <= i < |hist| && Issues(hist[i], r, k)
  }

  /** The highest rowid ever issued is not present, nor is any above it. */
  ghost predicate HighestGone(hist: seq<Op>, r: Rel, rows: Rows) {
    exists k :: Issued(hist, r, k) && forall j :: j in rows ==> j < k
  }

  // ---- what every step keeps ----

  ghost predicate AllIssued(hist: seq<Op>, r: Rel, rows: Rows) {
    forall k :: k in rows ==> 1 <= k && Issued(hist, r, k)
  }

  ghost predicate NoGaps(hist: seq<Op>, r: Rel) {
    && (forall k :: Issued(hist, r, k) ==> 1 <= k)
    && (forall j, k :: 1 <= j <= k && Issued(hist, r, k) ==> Issued(hist, r, j))
  }

  /** Stored rowids have been issued, and rowids are issued without gaps. */
  ghost predicate Ledger(w: World, r: Rel) {
    && r < |w.files| && NoGaps(w.hist, r)
    && AllIssued(w.hist, r, w.files[r].base.rows) && AllIssued(w.hist, r, w.files[r].work.rows)
  }

  predicate Inserts(s: Step, r: Rel) {
    (s.Insert? || s.Update?) && s.r == r
  }

  lemma IssuedExtends(hist: seq<Op>, ops: seq<Op>, r: Rel, k: Rowid)
    ensures Issued(hist + ops, r, k) <==> Issued(hist, r, k) || Issued(ops, r, k)
  {
    if i :| 0 <= i < |hist| && Issues(hist[i], r, k) {
      assert (hist + ops)[i] == hist[i];
    }
    if i :| 0 <= i < |ops| && Issues(ops[i], r, k) {
      assert (hist + ops)[|hist| + i] == ops[i];
    }
  }

  /** A statement issues the next rowid if it inserts, and otherwise none. */
  lemma StatementIssues(w: World, s: Step, r: Rel, k: Rowid)
    requires IsWrite(s) && Enabled(w, s)
    ensures Issued(Logged(w, s), r, k) <==> Inserts(s, r) && k == NextRowid(w.files[s.r].work.rows)
    ensures k in NewWork(w, s).rows ==>
      k in w.files[s.r].work.rows || (Inserts(s, s.r) && k == NextRowid(w.files[s.r].work.rows))
  {
    var t, be, ops := w.files[s.r].work, w.backends[s.b], Logged(w, s);
    if s.Update? {
      SameKeysSameRowid(t.rows, SetXmax(t, s.k, be.xid, be.cid).0.rows);
    }
    if Inserts(s, r) {
      assert Issues(ops[|ops| - 1], r, NextRowid(t.rows));
    }
  }

  /** The next rowid has been issued before exactly when the highest one issued is gone. */
  lemma NextIsIssuedIff(hist: seq<Op>, r: Rel, rows: Rows)
    requires NoGaps(hist, r) && AllIssued(hist, r, rows)
    ensures Issued(hist, r, NextRowid(rows)) <==> HighestGone(hist, r, rows)
  {
    if HighestGone(hist, r, rows) {
      var k :| Issued(hist, r, k) && forall j :: j in rows ==> j < k;
      assert 1 <= NextRowid(rows) <= k;
    }
  }

  lemma WriteKeepsLedger(w: World, s: Step, r: Rel)
    requires Ledger(w, r) && IsWrite(s) && Enabled(w, s)
    ensures NoGaps(w.hist + Logged(w, s), r)
    ensures AllIssued(w.hist + Logged(w, s), r, w.files[r].base.rows)
    ensures AllIssued(w.hist + Logged(w, s), r, if s.r == r then NewWork(w, s).rows else w.files[r].work.rows)
  {
    var next := NextRowid(w.files[s.r].work.rows);
    forall k ensures Issued(w.hist + Logged(w, s), r, k) <==> Issued(w.hist, r, k) || (Inserts(s, r) && k == next) {
      IssuedExtends(w.hist, Logged(w, s), r, k);
      StatementIssues(w, s, r, k);
    }
    forall k | k in NewWork(w, s).rows ensures k in w.files[s.r].work.rows || (Inserts(s, s.r) && k == next) {
      StatementIssues(w, s, r, k);
    }
    assert Inserts(s, r) ==> forall j :: 1 <= j < next ==> Issued(w.hist, r, j);
  }

  lemma StepKeepsLedger(port: Port, w: World, s: Step, r: Rel)
    requires Ledger(w, r) && Enabled(w, s)
    ensures Ledger(Next(port, w, s), r)
  {
    if IsWrite(s) {
      WriteKeepsLedger(w, s, r);
    }
  }

  lemma {:induction false} RunKeepsLedger(port: Port, w: World, run: seq<Step>, r: Rel)
    requires Ledger(w, r) && ValidRun(port, w, run)
    ensures Ledger(Exec(port, w, run), r)
    decreases run
  {
    if run != [] {
      StepKeepsLedger(port, w, run[0], r);
      RunKeepsLedger(port, Next(port, w, run[0]), run[1..], r);
    }
  }

  /**
   In every state that a run can reach, through whatever aborts, crashes and vacuums: the next insert into
   the relation is given a rowid that was issued before if and only if the highest rowid ever issued is
   not physically present any more.
   */
  lemma InsertReissuesIff(port: Port, nfiles: nat, nbackends: nat, run: seq<Step>, w: World, r: Rel)
    requires Reaches(port, Init(nfiles, nbackends), run, w) && r < |w.files|
    ensures Issued(w.hist, r, NextRowid(w.files[r].work.rows)) <==> HighestGone(w.hist, r, w.files[r].work.rows)
  {
    RunKeepsShape(port, Init(nfiles, nbackends), run);
    RunKeepsLedger(port, Init(nfiles, nbackends), run, r);
    NextIsIssuedIff(w.hist, r, w.files[r].work.rows);
  }

  // ---- over a whole run ----

  /** No rowid that was issued from position `n` of the history on had been issued before. */
  ghost predicate FreshFrom(hist: seq<Op>, n: nat, r: Rel) {
    forall i, j :: 0 <= i < j < |hist| && n <= j && hist[i].Ins? && hist[j].Ins? && hist[i].rel == hist[j].rel == r ==>
      hist[i].rowid != hist[j].rowid
  }

  /** Each time the run inserts into the relation, the highest rowid issued until then is present. */
  ghost predicate KeepsHighest(port: Port, w: World, run: seq<Step>, r: Rel)
    requires ValidRun(port, w, run)
    decreases run
  {
    run == [] ||
    (&& (Inserts(run[0], r) ==> r < |w.files| && !HighestGone(w.hist, r, w.files[r].work.rows))
     && KeepsHighest(port, Next(port, w, run[0]), run[1..], r))
  }

  lemma PrefixIsFresh(hist: seq<Op>, longer: seq<Op>, n: nat, r: Rel)
    requires |hist| <= |longer| && longer[..|hist|] == hist && FreshFrom(longer, n, r)
    ensures FreshFrom(hist, n, r)
  {
    assert forall i :: 0 <= i < |hist| ==> hist[i] == longer[i];
  }

  /** A history that issues at most one rowid more stays fresh exactly when that one is new. */
  lemma FreshExtends(hist: seq<Op>, ops: seq<Op>, n: nat, r: Rel)
    requires FreshFrom(hist, n, r) && FreshFrom(ops, 0, r) && n <= |hist|
    ensures FreshFrom(hist + ops, n, r) <==> forall k :: Issued(ops, r, k) ==> !Issued(hist, r, k)
  {
    var all := hist + ops;
    if k :| Issued(ops, r, k) && Issued(hist, r, k) {
      var i :| 0 <= i < |hist| && Issues(hist[i], r, k);
      var j :| 0 <= j < |ops| && Issues(ops[j], r, k);
      assert all[i] == hist[i] && all[|hist| + j] == ops[j];
    } else {
      forall i, j | 0 <= i < j < |all| && n <= j && all[i].Ins? && all[j].Ins? && all[i].rel == all[j].rel == r
        ensures all[i].rowid != all[j].rowid
      {
        if i < |hist| <= j {
          assert Issues(hist[i], r, all[i].rowid) && Issues(ops[j - |hist|], r, all[j].rowid);
          assert Issued(hist, r, all[i].rowid) && Issued(ops, r, all[j].rowid);
        } else if |hist| <= i {
          assert all[i] == ops[i - |hist|] && all[j] == ops[j - |hist|];
        }
      }
    }
  }

  lemma OneInsertIsFresh(w: World, s: Step, r: Rel)
    requires IsWrite(s) && Enabled(w, s)
    ensures FreshFrom(Logged(w, s), 0, r)
  {
  }

  /** One statement keeps the history fresh exactly when it does not reissue a rowid. */
  lemma StatementIsFreshIff(w: World, s: Step, n: nat, r: Rel)
    requires Ledger(w, r) && IsWrite(s) && Enabled(w, s) && n <= |w.hist| && FreshFrom(w.hist, n, r)
    ensures FreshFrom(w.hist + Logged(w, s), n, r) <==>
      (Inserts(s, r) ==> !HighestGone(w.hist, r, w.files[r].work.rows))
  {
    var next := NextRowid(w.files[s.r].work.rows);
    forall k ensures Issued(Logged(w, s), r, k) <==> Inserts(s, r) && k == next {
      StatementIssues(w, s, r, k);
    }
    OneInsertIsFresh(w, s, r);
    FreshExtends(w.hist, Logged(w, s), n, r);
    NextIsIssuedIff(w.hist, r, w.files[r].work.rows);
  }

  /** A run issues no rowid again if and only if it never inserts while the highest one issued is gone. */
  lemma {:induction false} RunIsFreshIff(port: Port, w: World, run: seq<Step>, n: nat, r: Rel)
    requires Ledger(w, r) && ValidRun(port, w, run) && n <= |w.hist| && FreshFrom(w.hist, n, r)
    ensures FreshFrom(Exec(port, w, run).hist, n, r) <==> KeepsHighest(port, w, run, r)
    decreases run
  {
    if run != [] {
      var s, u := run[0], Next(port, w, run[0]);
      StepKeepsLedger(port, w, s, r);
      if IsWrite(s) {
        StatementIsFreshIff(w, s, n, r);
      }
      RunGrows(port, u, run[1..]);
      if FreshFrom(u.hist, n, r) {
        RunIsFreshIff(port, u, run[1..], n, r);
      } else if FreshFrom(Exec(port, w, run).hist, n, r) {
        PrefixIsFresh(u.hist, Exec(port, w, run).hist, n, r);
      }
    }
  }
}
