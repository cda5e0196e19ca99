/**
 Subtransactions mapped to SQLite savepoints: one connection, its working copy and its savepoint stack.
 */
module Savepoints {
  import opened Storage

  type SubId = nat

  datatype Savepoint = Savepoint(id: SubId, saved: Store)

  /** A connection: whether its SQLite transaction is open, the committed and working contents, the stack. */
  datatype Conn = Conn(inTxn: bool, disk: Store, work: Store, saves: seq<Savepoint>) {
    ghost predicate Valid() {
      !inTxn ==> work == disk && saves == []
    }
  }

  // ---- SQLite ----

  function BeginIfNeeded(c: Conn): (d: Conn) {
    c.(inTxn := true)
  }

  function SqlCommit(c: Conn): (d: Conn) {
    if c.inTxn then Conn(false, c.work, c.work, []) else c
  }

  function SqlRollback(c: Conn): (d: Conn) {
    if c.inTxn then Conn(false, c.disk, c.disk, []) else c
  }

  function SqlSavepoint(c: Conn, id: SubId): (d: Conn) {
    c.(saves := c.saves + [Savepoint(id, c.work)])
  }

  /** Position of the most recent savepoint of that name, or -1. */
  function Find(saves: seq<Savepoint>, id: SubId): (i: int)
    ensures -1 <= i < |saves|
    ensures i >= 0 ==> saves[i].id == id
    ensures forall j :: i < j < |saves| ==> saves[j].id != id
  {
    if saves == [] then -1
    else if saves[|saves| - 1].id == id then |saves| - 1
    else Find(saves[..|saves| - 1], id)
  }

  /** RELEASE removes the savepoint and those above it; without one of that name it only fails. */
  function SqlRelease(c: Conn, id: SubId): (d: Conn) {
    var i := Find(c.saves, id);
    if i < 0 then c else c.(saves := c.saves[..i])
  }

  /** ROLLBACK TO restores the saved contents and removes those above, but leaves the savepoint itself. */
  function SqlRollbackTo(c: Conn, id: SubId): (d: Conn) {
    var i := Find(c.saves, id);
    if i < 0 then c else c.(work := c.saves[i].saved, saves := c.saves[..i + 1])
  }

  // ---- the callbacks, for one touched relation ----

  function SubStart(c: Conn, id: SubId): (d: Conn) {
    SqlSavepoint(BeginIfNeeded(c), id)
  }

  function SubCommit(c: Conn, id: SubId): (d: Conn) {
    if c.inTxn then SqlRelease(c, id) else c
  }

  function SubAbort(c: Conn, id: SubId): (d: Conn) {
    if c.inTxn then SqlRollbackTo(c, id) else c
  }

  // ---- events ----

  /** `Write(f)` is any statement: it opens the transaction and maps the working contents to new ones. */
  datatype Event = Start(id: SubId) | Commit(id: SubId) | Abort(id: SubId) | Write(f: Store -> Store)

  function Handle(c: Conn, e: Event): (d: Conn) {
    match e
    case Start(id) => SubStart(c, id)
    case Commit(id) => SubCommit(c, id)
    case Abort(id) => SubAbort(c, id)
    case Write(f) => BeginIfNeeded(c).(work := f(c.work))
  }

  function HandleAll(c: Conn, events: seq<Event>): (d: Conn)
    decreases events
  {
    if events == [] then c else HandleAll(Handle(c, events[0]), events[1..])
  }

  // ---- the reference: nested transactions ----

  /** The current contents, and for each open subtransaction the contents when it started. */
  datatype Nested = Nested(current: Store, frames: seq<Savepoint>)

  /** An ending subtransaction is the innermost open one; a starting one has a higher id than any before. */
  predicate Fits(n: Nested, last: SubId, e: Event) {
    match e
    case Start(id) => last < id
    case Commit(id) => n.frames != [] && n.frames[|n.frames| - 1].id == id
    case Abort(id) => n.frames != [] && n.frames[|n.frames| - 1].id == id
    case Write(_) => true
  }

  function Step(n: Nested, e: Event): (m: Nested)
    requires (e.Commit? || e.Abort?) ==> n.frames != []
  {
    match e
    case Start(id) => n.(frames := n.frames + [Savepoint(id, n.current)])
    case Commit(_) => n.(frames := n.frames[..|n.frames| - 1])
    case Abort(_) => Nested(n.frames[|n.frames| - 1].saved, n.frames[..|n.frames| - 1])
    case Write(f) => n.(current := f(n.current))
  }

  function LastId(last: SubId, e: Event): (id: SubId) {
    if e.Start? then e.id else last
  }

  ghost predicate WellNested(n: Nested, last: SubId, events: seq<Event>)
    decreases events
  {
    events == [] || (Fits(n, last, events[0]) &&
                     WellNested(Step(n, events[0]), LastId(last, events[0]), events[1..]))
  }

  ghost function StepAll(n: Nested, last: SubId, events: seq<Event>): (m: Nested)
    requires WellNested(n, last, events)
    decreases events
  {
    if events == [] then n else StepAll(Step(n, events[0]), LastId(last, events[0]), events[1..])
  }

  // ---- the refinement ----

  /**
   The open frames sit on SQLite's stack in order; whatever else is on it is left over from aborted
   subtransactions.
   */
  predicate Matches(saves: seq<Savepoint>, frames: seq<Savepoint>)
    decreases |saves|
  {
    if saves == [] then frames == []
    else if frames != [] && frames[|frames| - 1] == saves[|saves| - 1] then
      Matches(saves[..|saves| - 1], frames[..|frames| - 1])
    else Matches(saves[..|saves| - 1], frames)
  }

  predicate Increasing(saves: seq<Savepoint>, last: SubId) {
    && (forall i, j :: 0 <= i < j < |saves| ==> saves[i].id < saves[j].id)
    && (forall i :: 0 <= i < |saves| ==> saves[i].id <= last)
  }

  ghost predicate Simulates(c: Conn, n: Nested, last: SubId) {
    && c.Valid() && c.work == n.current
    && Increasing(c.saves, last) && Matches(c.saves, n.frames)
    && (n.frames != [] ==> c.inTxn)
  }

  /** The innermost open frame is found on the stack, and below it the outer frames match. */
  lemma {:induction false} InnermostIsFound(saves: seq<Savepoint>, frames: seq<Savepoint>, last: SubId)
    requires Matches(saves, frames) && Increasing(saves, last) && frames != []
    ensures
      var top := frames[|frames| - 1];
      var i := Find(saves, top.id);
      i >= 0 && saves[i] == top && Matches(saves[..i], frames[..|frames| - 1])
    decreases |saves|
  {
    var n := |saves| - 1;
    var top := frames[|frames| - 1];
    if saves[n] != top {
      InnermostIsFound(saves[..n], frames, last);
      var i := Find(saves[..n], top.id);
      assert saves[..n][..i] == saves[..i];
      assert saves[n].id != top.id;
    }
  }

  /** A savepoint that no open frame is equal to changes nothing. */
  lemma LeftoverMatches(saves: seq<Savepoint>, s: Savepoint, frames: seq<Savepoint>, last: SubId)
    requires Matches(saves, frames) && Increasing(saves + [s], last)
    ensures Matches(saves + [s], frames)
  {
    assert (saves + [s])[..|saves|] == saves;
    if frames != [] {
      InnermostIsFound(saves, frames, last);
      assert saves == (saves + [s])[..|saves|];
      var i := Find(saves, frames[|frames| - 1].id);
      assert (saves + [s])[i].id < (saves + [s])[|saves|].id;
    }
  }

  lemma StartSimulated(c: Conn, n: Nested, last: SubId, id: SubId)
    requires Simulates(c, n, last) && last < id
    ensures Simulates(Handle(c, Start(id)), Step(n, Start(id)), id)
  {
    var d := Handle(c, Start(id));
    assert d.saves[..|c.saves|] == c.saves;
    assert (n.frames + [Savepoint(id, n.current)])[..|n.frames|] == n.frames;
  }

  lemma CommitSimulated(c: Conn, n: Nested, last: SubId, id: SubId)
    requires Simulates(c, n, last) && Fits(n, last, Commit(id))
    ensures Simulates(Handle(c, Commit(id)), Step(n, Commit(id)), last)
  {
    InnermostIsFound(c.saves, n.frames, last);
  }

  lemma AbortSimulated(c: Conn, n: Nested, last: SubId, id: SubId)
    requires Simulates(c, n, last) && Fits(n, last, Abort(id))
    ensures Simulates(Handle(c, Abort(id)), Step(n, Abort(id)), last)
  {
    InnermostIsFound(c.saves, n.frames, last);
    var i := Find(c.saves, id);
    assert c.saves[..i + 1] == c.saves[..i] + [c.saves[i]];
    LeftoverMatches(c.saves[..i], c.saves[i], n.frames[..|n.frames| - 1], last);
  }

  lemma EventSimulated(c: Conn, n: Nested, last: SubId, e: Event)
    requires Simulates(c, n, last) && Fits(n, last, e)
    ensures Simulates(Handle(c, e), Step(n, e), LastId(last, e))
  {
    match e
    case Write(_) =>
    case Start(id) => StartSimulated(c, n, last, id);
    case Commit(id) => CommitSimulated(c, n, last, id);
    case Abort(id) => AbortSimulated(c, n, last, id);
  }

  lemma {:induction false} EventsSimulated(c: Conn, n: Nested, last: SubId, events: seq<Event>)
    requires Simulates(c, n, last) && WellNested(n, last, events)
    ensures Simulates(HandleAll(c, events), StepAll(n, last, events), LastIdOf(last, events))
    decreases events
  {
    if events != [] {
      EventSimulated(c, n, last, events[0]);
      EventsSimulated(Handle(c, events[0]), Step(n, events[0]), LastId(last, events[0]), events[1..]);
    }
  }

  function LastIdOf(last: SubId, events: seq<Event>): (id: SubId)
    decreases events
  {
    if events == [] then last else LastIdOf(LastId(last, events[0]), events[1..])
  }

  /**
   Savepoint refinement. For every well-nested sequence of subtransaction starts, commits and aborts
   and any statements in between, the working copy of a relation that was touched before the outermost
   subtransaction is after each event what nested transactions prescribe, although ROLLBACK TO leaves
   the savepoints of aborted subtransactions on SQLite's stack.
   */
  lemma SavepointsRefineNesting(c: Conn, n: Nested, last: SubId, events: seq<Event>)
    requires Simulates(c, n, last) && WellNested(n, last, events)
    ensures HandleAll(c, events).work == StepAll(n, last, events).current
  {
    EventsSimulated(c, n, last, events);
  }

  /** A connection with no savepoints, in or out of a transaction, starts out right. */
  lemma FreshSimulates(c: Conn)
    requires c.Valid() && c.saves == []
    ensures Simulates(c, Nested(c.work, []), 0)
  {
  }

  /** ROLLBACK TO leaves its savepoint behind: whatever is written next, it can be undone once more. */
  lemma RollbackToRepeats(c: Conn, id: SubId, s: Store)
    requires Find(c.saves, id) >= 0
    ensures
      var back := SqlRollbackTo(c, id);
      && Find(back.saves, id) == |back.saves| - 1
      && SqlRollbackTo(back.(work := s), id) == back
  {
    var i := Find(c.saves, id);
    assert c.saves[..i + 1][|c.saves[..i + 1]| - 1].id == id;
  }

  // ---- relations that are touched late ----

  /** What can happen inside subtransaction `id`: statements, and subtransactions of its own that have ended. */
  ghost predicate Body(n: Nested, id: SubId, events: seq<Event>) {
    var inside := Step(n, Start(id));
    WellNested(inside, id, events) && StepAll(inside, id, events).frames == inside.frames
  }

  /**
   Subtransaction `id` starts, runs `events` and aborts. A relation that was not touched before the
   subtransaction started does not take part in its start.
   */
  function StartRunAbort(c: Conn, touched: bool, id: SubId, events: seq<Event>): (d: Conn) {
    SubAbort(HandleAll(if touched then SubStart(c, id) else c, events), id)
  }

  lemma TouchedIsUndone(c: Conn, n: Nested, last: SubId, id: SubId, events: seq<Event>)
    requires Simulates(c, n, last) && last < id && Body(n, id, events)
    ensures StartRunAbort(c, true, id, events).work == c.work
  {
    var inside := Step(n, Start(id));
    EventSimulated(c, n, last, Start(id));
    EventsSimulated(SubStart(c, id), inside, id, events);
    EventSimulated(HandleAll(SubStart(c, id), events), StepAll(inside, id, events), LastIdOf(id, events), Abort(id));
  }

  /** A relation touched late keeps the work of the aborted subtransaction: here, any one statement. */
  lemma UntouchedKeepsWork(c: Conn, n: Nested, last: SubId, id: SubId, s: Store)
    requires Simulates(c, n, last) && last < id
    ensures Body(n, id, [Write(_ => s)])
    ensures StartRunAbort(c, false, id, [Write(_ => s)]).work == s
  {
    var events := [Write(_ => s)];
    var inside := Step(n, Start(id));
    assert events[1..] == [];
    assert HandleAll(Handle(c, events[0]), events[1..]) == Handle(c, events[0]);
    assert WellNested(Step(inside, events[0]), id, events[1..]);
    assert StepAll(Step(inside, events[0]), id, events[1..]) == Step(inside, events[0]);
  }

  /**
   A relation first touched inside a subtransaction has no savepoint for it. Aborting the subtransaction
   undoes whatever it did to the relation if and only if the relation was touched before it started.
   */
  lemma AbortUndoesIff(c: Conn, n: Nested, last: SubId, id: SubId, touched: bool)
    requires Simulates(c, n, last) && last < id
    ensures
      (forall events :: Body(n, id, events) ==> StartRunAbort(c, touched, id, events).work == c.work) <==> touched
  {
    if touched {
      forall events | Body(n, id, events) ensures StartRunAbort(c, touched, id, events).work == c.work {
        TouchedIsUndone(c, n, last, id, events);
      }
    } else {
      var other := c.work.(watermark := if c.work.watermark == 0 then 1 else 0);
      UntouchedKeepsWork(c, n, last, id, other);
    }
  }
}
