/**
 Cached prepared statements and the read transaction they hold. Outside a SQLite transaction, a
 connection keeps one read view for as long as any of its statements is part-way through its rows.
 */
module Statements {
  import opened Basics

  /** The cached read statements, by what they select. */
  datatype Sql = AllRows | OneRow | MetaValue | RowCount | XmaxOf(n: nat)

  /** Contents of the file, counted by the commits made to it. */
  type Version = nat

  /** `active` are the statements part-way through; `view` is what they read, if there are any. */
  datatype Reader = Reader(active: set<Sql>, view: Version)

  const AT_REST: Reader := Reader({}, 0)

  // ---- SQLite ----

  function Reset(c: Reader, q: Sql): (d: Reader) {
    c.(active := c.active - {q})
  }

  /** One `sqlite3_step`: it takes a read view unless the connection holds one; DONE ends the statement. */
  function StepOnce(c: Reader, q: Sql, now: Version, row: bool): (d: Reader) {
    Reader(if row then c.active + {q} else c.active - {q}, if c.active == {} then now else c.view)
  }

  // ---- storage calls ----

  /**
   `Lookup` steps its statement once (`fetch_one_ref`, `select_one`, `meta_get`, `estimate_size`);
   `Walk` steps it until there are no more rows (`select_all`, `select_xmax_batch`).
   */
  datatype Call = Lookup(q: Sql, hit: bool) | Walk(q: Sql, rows: nat)

  function WalkSteps(c: Reader, q: Sql, now: Version, rows: nat): (d: Reader)
    decreases rows
  {
    if rows == 0 then StepOnce(c, q, now, false) else WalkSteps(StepOnce(c, q, now, true), q, now, rows - 1)
  }

  /** Every call starts by resetting the cached statement. Only the Zig port resets it after a hit. */
  function Perform(port: Port, c: Reader, now: Version, call: Call): (d: Reader) {
    var c1 := Reset(c, call.q);
    match call
    case Lookup(q, hit) =>
      var c2 := StepOnce(c1, q, now, hit);
      if hit && port == Zig then Reset(c2, q) else c2
    case Walk(q, rows) => WalkSteps(c1, q, now, rows)
  }

  /** The contents that the call reads. */
  function ReadBy(c: Reader, now: Version, call: Call): (v: Version) {
    if Reset(c, call.q).active == {} then now else c.view
  }

  /** The call as it is written, stepping and resetting one statement; `v` is what it read. */
  method RunCall(port: Port, c: Reader, now: Version, call: Call) returns (d: Reader, v: Version)
    ensures d == Perform(port, c, now, call)
    ensures v == ReadBy(c, now, call)
  {
    d := Reset(c, call.q);
    ghost var c1 := d;
    match call {
      case Lookup(q, hit) =>
        d := StepOnce(d, q, now, hit);
        v := d.view;
        if hit && port == Zig {
          d := Reset(d, q);
        }
      case Walk(q, rows) =>
        var left := rows;
        while left > 0
          invariant 0 <= left <= rows
          invariant left == rows || (q in d.active && d.view == ReadBy(c, now, call))
          invariant left == rows ==> d == c1
          invariant WalkSteps(d, q, now, left) == WalkSteps(c1, q, now, rows)
        {
          d := StepOnce(d, q, now, true);
          left := left - 1;
        }
        d := StepOnce(d, q, now, false);
        v := d.view;
    }
  }

  // ---- interleaving with commits of other backends ----

  datatype Event = OwnCall(call: Call) | OtherCommit

  datatype State = State(reader: Reader, now: Version)

  function Next(port: Port, s: State, e: Event): (t: State) {
    match e
    case OwnCall(call) => s.(reader := Perform(port, s.reader, s.now, call))
    case OtherCommit => s.(now := s.now + 1)
  }

  function Exec(port: Port, s: State, events: seq<Event>): (t: State)
    decreases events
  {
    if events == [] then s else Exec(port, Next(port, s, events[0]), events[1..])
  }

  lemma {:induction false} WalkFinishes(c: Reader, q: Sql, now: Version, rows: nat)
    ensures WalkSteps(c, q, now, rows).active == c.active - {q}
    decreases rows
  {
    if rows > 0 {
      WalkFinishes(StepOnce(c, q, now, true), q, now, rows - 1);
    }
  }

  /** A call of the Zig port leaves no statement of its own part-way, and disturbs no other. */
  lemma ZigCallFinishes(c: Reader, now: Version, call: Call)
    ensures Perform(Zig, c, now, call).active == c.active - {call.q}
  {
    if call.Walk? {
      WalkFinishes(Reset(c, call.q), call.q, now, call.rows);
    }
  }

  /**
   Read freshness, Zig port. After any interleaving of its own reads with commits of other backends,
   no statement is part-way through, so the next read sees everything that has been committed.
   */
  lemma {:induction false} ZigReadsAreFresh(s: State, events: seq<Event>, call: Call)
    requires s.reader.active == {}
    ensures
      var t := Exec(Zig, s, events);
      t.reader.active == {} && ReadBy(t.reader, t.now, call) == t.now
    decreases events
  {
    if events != [] {
      if events[0].OwnCall? {
        ZigCallFinishes(s.reader, s.now, events[0].call);
      }
      ZigReadsAreFresh(Next(Zig, s, events[0]), events[1..], call);
    }
  }

  // ---- which Rust reads are fresh ----

  /** The statements whose last call found a row: told from the events alone. */
  function Left(events: seq<Event>): (qs: set<Sql>) {
    if events == [] then {}
    else
      var before := Left(events[..|events| - 1]);
      match events[|events| - 1]
      case OtherCommit => before
      case OwnCall(call) => if call.Lookup? && call.hit then before + {call.q} else before - {call.q}
  }

  /** Commits of others since the last call that did not find another statement part-way through. */
  function Missed(events: seq<Event>): (n: nat) {
    if events == [] then 0
    else
      var before := events[..|events| - 1];
      match events[|events| - 1]
      case OtherCommit => Missed(before) + 1
      case OwnCall(call) => if Left(before) <= {call.q} then 0 else Missed(before)
  }

  /** The event is a call that uses statement `q`. */
  predicate Uses(e: Event, q: Sql) {
    e.OwnCall? && e.call.q == q
  }

  predicate Hits(e: Event) {
    e.OwnCall? && e.call.Lookup? && e.call.hit
  }

  lemma {:induction false} LeftMeaning(events: seq<Event>, q: Sql)
    ensures q in Left(events) <==>
      exists i :: 0 <= i < |events| && Uses(events[i], q) && Hits(events[i]) &&
        forall j :: i < j < |events| ==> !Uses(events[j], q)
  {
    if events != [] {
      var n := |events| - 1;
      LeftMeaning(events[..n], q);
      if !Uses(events[n], q) && q in Left(events) {
        var i :| 0 <= i < n && Uses(events[..n][i], q) && Hits(events[..n][i]) &&
          forall j :: i < j < n ==> !Uses(events[..n][j], q);
        assert events[..n][i] == events[i];
        assert forall j :: i < j < n ==> events[..n][j] == events[j];
      }
      if i :| 0 <= i < n && Uses(events[i], q) && Hits(events[i]) && forall j :: i < j <= n ==> !Uses(events[j], q) {
        assert events[..n][i] == events[i];
        assert forall j :: i < j < n ==> events[..n][j] == events[j];
      }
    }
  }

  lemma {:induction false} ExecLast(port: Port, s: State, events: seq<Event>)
    requires events != []
    ensures Exec(port, s, events) == Next(port, Exec(port, s, events[..|events| - 1]), events[|events| - 1])
    decreases events
  {
    if |events| > 1 {
      ExecLast(port, Next(port, s, events[0]), events[1..]);
      assert events[1..][..|events| - 2] == events[..|events| - 1][1..];
    } else {
      assert events[1..] == [] && events[..0] == [];
    }
  }

  lemma {:induction false} WalkKeepsView(c: Reader, q: Sql, now: Version, rows: nat)
    ensures WalkSteps(c, q, now, rows).view == if c.active == {} then now else c.view
    decreases rows
  {
    if rows > 0 {
      var d := StepOnce(c, q, now, true);
      assert q in d.active;
      WalkKeepsView(d, q, now, rows - 1);
    }
  }

  /** What a Rust call leaves behind. */
  lemma RustCallLeaves(c: Reader, now: Version, call: Call)
    ensures
      var d := Perform(Rust, c, now, call);
      && d.active == (if call.Lookup? && call.hit then c.active + {call.q} else c.active - {call.q})
      && d.view == (if c.active <= {call.q} then now else c.view)
  {
    var c1 := Reset(c, call.q);
    assert c1.active == {} <==> c.active <= {call.q};
    assert c1.active + {call.q} == c.active + {call.q} && c1.active - {call.q} == c.active - {call.q};
    if call.Walk? {
      WalkFinishes(c1, call.q, now, call.rows);
      WalkKeepsView(c1, call.q, now, call.rows);
    }
  }

  lemma {:induction false} RustReaderAfter(events: seq<Event>)
    ensures
      var t := Exec(Rust, State(AT_REST, 0), events);
      t.reader.active == Left(events) && t.now - t.reader.view == Missed(events)
  {
    if events != [] {
      var n := |events| - 1;
      RustReaderAfter(events[..n]);
      ExecLast(Rust, State(AT_REST, 0), events);
      if events[n].OwnCall? {
        var t := Exec(Rust, State(AT_REST, 0), events[..n]);
        RustCallLeaves(t.reader, t.now, events[n].call);
      }
    }
  }

  /**
   Read freshness, Rust. After any interleaving of its own calls with commits of other backends, a read
   sees everything that has been committed if and only if no other statement was left part-way by a hit,
   or nobody has committed since those statements took their view.
   */
  lemma RustReadIsFreshIff(events: seq<Event>, call: Call)
    ensures
      var t := Exec(Rust, State(AT_REST, 0), events);
      ReadBy(t.reader, t.now, call) == t.now <==> Left(events) <= {call.q} || Missed(events) == 0
  {
    var t := Exec(Rust, State(AT_REST, 0), events);
    RustReaderAfter(events);
    assert Reset(t.reader, call.q).active == {} <==> t.reader.active <= {call.q};
  }

  /** Which calls leave a statement part-way in the Rust implementation: exactly the lookups that hit. */
  lemma RustLeavesActiveIff(c: Reader, now: Version, call: Call)
    ensures call.q in Perform(Rust, c, now, call).active <==> call.Lookup? && call.hit
  {
    if call.Walk? {
      WalkFinishes(Reset(c, call.q), call.q, now, call.rows);
    }
  }

  /** An index fetch that hits, a commit elsewhere, and the next sequential scan misses that commit. */
  lemma RustReadsStale(rows: nat)
    ensures
      var s := Exec(Rust, State(AT_REST, 0), [OwnCall(Lookup(OneRow, true)), OtherCommit]);
      s.now == 1 && ReadBy(s.reader, s.now, Walk(AllRows, rows)) == 0
  {
    var e := [OwnCall(Lookup(OneRow, true)), OtherCommit];
    var s1 := Next(Rust, State(AT_REST, 0), e[0]);
    assert e[1..] == [OtherCommit] && [OtherCommit][1..] == [];
    assert Exec(Rust, s1, [OtherCommit]) == Exec(Rust, Next(Rust, s1, OtherCommit), []);
    assert OneRow in Reset(s1.reader, AllRows).active;
  }
}
