/**
 How a transaction leaves the SQLite connections of its backend, in the two implementations.
 */
module TransactionEnd {
  import opened Basics
  import opened Protocol
  import opened Invariants
  import opened Snapshots

  /** Every open SQLite transaction belongs to a backend that still has it on its lists. */
  ghost predicate Tidy(w: World) {
    && (forall b :: 0 <= b < |w.backends| && w.backends[b].phase == Idle ==> w.backends[b].touched == {})
    && (forall r :: 0 <= r < |w.files| && w.files[r].writer.Some? ==>
          var b := w.files[r].writer.value;
          b < |w.backends| && r in w.backends[b].touched && StillToCommit(w.backends[b], r))
  }

  lemma StepKeepsTidy(w: World, s: Step)
    requires Tidy(w) && Enabled(w, s)
    ensures Tidy(Next(Zig, w, s))
  {
    var u := Next(Zig, w, s);
    forall r | 0 <= r < |u.files| && u.files[r].writer.Some?
      ensures
        var b := u.files[r].writer.value;
        b < |u.backends| && r in u.backends[b].touched && StillToCommit(u.backends[b], r)
    {
      assert w.files[r].writer == u.files[r].writer || (IsWrite(s) && r == s.r);
    }
  }

  lemma {:induction false} RunKeepsTidy(w: World, run: seq<Step>)
    requires Tidy(w) && ValidRun(Zig, w, run)
    ensures Tidy(Exec(Zig, w, run))
    decreases run
  {
    if run != [] {
      StepKeepsTidy(w, run[0]);
      RunKeepsTidy(Next(Zig, w, run[0]), run[1..]);
    }
  }

  /**
   Clean transaction end, Zig port. Whatever run led here, through commits, aborts, COMMITs that
   failed partway through the relations, and crashes: a backend between transactions has an empty
   list of touched relations and no SQLite transaction open anywhere.
   */
  lemma ZigEndsClean(nfiles: nat, nbackends: nat, run: seq<Step>, w: World, b: Bid)
    requires Reaches(Zig, Init(nfiles, nbackends), run, w)
    requires b < |w.backends| && w.backends[b].phase == Idle
    ensures w.backends[b].touched == {} && forall r :: 0 <= r < |w.files| ==> w.files[r].writer != Some(b)
  {
    RunKeepsTidy(Init(nfiles, nbackends), run);
  }

  /** In the Rust implementation the list of touched relations is empty from PreCommit on. */
  ghost predicate RustForgets(w: World) {
    forall b :: 0 <= b < |w.backends| && w.backends[b].phase.Committing? ==> w.backends[b].touched == {}
  }

  lemma {:induction false} RunKeepsRustForgets(w: World, run: seq<Step>)
    requires RustForgets(w) && ValidRun(Rust, w, run)
    ensures RustForgets(Exec(Rust, w, run))
    decreases run
  {
    if run != [] {
      RunKeepsRustForgets(Next(Rust, w, run[0]), run[1..]);
    }
  }

  /** The relations on which backend `b` has a SQLite transaction open. */
  function OpenBy(w: World, b: Bid): (s: set<Rel>) {
    set r: Rel | r < |w.files| && w.files[r].writer == Some(b)
  }

  /** Backend `b` will still commit or roll back each SQLite transaction that it has open. */
  ghost predicate Listed(w: World, b: Bid) {
    b < |w.backends| && forall r :: r in OpenBy(w, b) ==> StillToCommit(w.backends[b], r)
  }

  lemma RustStepKeepsListed(w: World, s: Step, b: Bid)
    requires Listed(w, b) && Enabled(w, s) && s != LateAbort(b)
    ensures Listed(Next(Rust, w, s), b)
  {
    var u := Next(Rust, w, s);
    forall r | r in OpenBy(u, b) ensures StillToCommit(u.backends[b], r) {
      assert r in OpenBy(w, b) || (IsWrite(s) && r == s.r && b == s.b);
    }
  }

  lemma {:induction false} RustRunKeepsListed(w: World, run: seq<Step>, b: Bid)
    requires Listed(w, b) && ValidRun(Rust, w, run) && LateAbort(b) !in run
    ensures Listed(Exec(Rust, w, run), b)
    decreases run
  {
    if run != [] {
      RustStepKeepsListed(w, run[0], b);
      RustRunKeepsListed(Next(Rust, w, run[0]), run[1..], b);
    }
  }

  /**
   Rust: in every run, an error after PreCommit began rolls nothing back. Every file stays as it is, and
   every SQLite transaction that the backend had open stays open, while its list is empty.
   */
  lemma RustLateAbortRollsNothingBack(nfiles: nat, nbackends: nat, run: seq<Step>, w: World, b: Bid)
    requires Reaches(Rust, Init(nfiles, nbackends), run, w) && Enabled(w, LateAbort(b))
    ensures
      var u := Next(Rust, w, LateAbort(b));
      u.files == w.files && OpenBy(u, b) == OpenBy(w, b) && u.backends[b] == RESTING
  {
    RunKeepsRustForgets(Init(nfiles, nbackends), run);
    assert RollbackTouched(w.files, b, {}) == w.files;
  }

  /**
   The first such error of a backend leaves open exactly the SQLite transactions of relations that
   PreCommit had not visited: it ends cleanly if and only if PreCommit had got past all of them, so never
   when the error is a failed COMMIT.
   */
  lemma RustLeaksIff(nfiles: nat, nbackends: nat, run: seq<Step>, w: World, b: Bid)
    requires Reaches(Rust, Init(nfiles, nbackends), run, w) && Enabled(w, LateAbort(b)) && LateAbort(b) !in run
    ensures
      var unvisited := w.backends[b].phase.todo;
      OpenBy(Next(Rust, w, LateAbort(b)), b) == OpenBy(w, b) * unvisited
  {
    RunKeepsShape(Rust, Init(nfiles, nbackends), run);
    RustRunKeepsListed(Init(nfiles, nbackends), run, b);
    RustLateAbortRollsNothingBack(nfiles, nbackends, run, w, b);
    assert forall r :: r in OpenBy(w, b) ==> r in w.backends[b].phase.todo;
  }

  ghost predicate NoneOpen(w: World) {
    forall r :: 0 <= r < |w.files| ==> w.files[r].writer == None
  }

  /** A run that only reads, in any number of transactions and backends, never opens a SQLite transaction. */
  lemma {:induction false} ReadingNeverOpens(port: Port, w: World, run: seq<Step>)
    requires NoneOpen(w) && ValidRun(port, w, run)
    requires forall i :: 0 <= i < |run| ==> !IsWrite(run[i])
    ensures NoneOpen(Exec(port, w, run))
    decreases run
  {
    if run != [] {
      ReadingNeverOpens(port, Next(port, w, run[0]), run[1..]);
    }
  }

  // ---- the list of touched relations ----

  /** The storage calls: each of them goes through `ensure_in_xact`. */
  predicate IsCall(s: Step) {
    IsWrite(s) || s.Touch? || s.SkipVacuum?
  }

  /** The relations that backend `b` has used since its transaction began, told from the steps alone. */
  function Used(before: set<Rel>, run: seq<Step>, b: Bid): (rels: set<Rel>)
    decreases run
  {
    if run == [] then before
    else
      var s := run[0];
      var now := if s == Begin(b) then {} else if IsCall(s) && s.b == b then before + {s.r} else before;
      Used(now, run[1..], b)
  }

  lemma StepLists(port: Port, w: World, s: Step, b: Bid)
    requires Enabled(w, s) && b < |w.backends|
    ensures
      var be, be' := w.backends[b], Next(port, w, s).backends[b];
      && (be.phase == Active && be'.phase == Active ==>
            be'.touched == if IsCall(s) && s.b == b then be.touched + {s.r} else be.touched)
      && (be.phase != Active && be'.phase == Active ==> s == Begin(b) && be'.touched == {})
      && (s == Begin(b) ==> be.phase != Active)
  {
  }

  /** In every run, the list on which commit and abort act is exactly the relations used since the transaction began. */
  lemma {:induction false} TouchedIsUsed(port: Port, w: World, run: seq<Step>, b: Bid, before: set<Rel>)
    requires ValidRun(port, w, run) && b < |w.backends|
    requires w.backends[b].phase == Active ==> before == w.backends[b].touched
    ensures b < |Exec(port, w, run).backends|
    ensures Exec(port, w, run).backends[b].phase == Active ==>
      Exec(port, w, run).backends[b].touched == Used(before, run, b)
    decreases run
  {
    if run != [] {
      var s := run[0];
      StepLists(port, w, s, b);
      var now := if s == Begin(b) then {} else if IsCall(s) && s.b == b then before + {s.r} else before;
      TouchedIsUsed(port, Next(port, w, s), run[1..], b, now);
    }
  }
}
