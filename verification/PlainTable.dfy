/**
 One transaction's commands against the versioned rows, compared with the same commands against a
 plain table: a bag of tuples with no versions, no xids and no command ids.
 */
module PlainTable {
  import opened Basics
  import opened Xids
  import opened Storage
  import opened Protocol
  import opened Invariants
  import opened Snapshots

  datatype Command = Add(tuple: Bytes) | Remove(k: Rowid) | Replace(k: Rowid, tuple: Bytes)

  ghost function Perform(s: Store, x: Xid, c: nat, cmd: Command): (t: Store) {
    match cmd
    case Add(tuple) => InsertRow(s, x, c, tuple).0
    case Remove(k) => SetXmax(s, k, x, c).0
    case Replace(k, tuple) => UpdateRow(s, k, x, c, tuple).0
  }

  /** The commands of transaction `x`, the first of them with command id `c`. */
  ghost function PerformAll(s: Store, x: Xid, c: nat, cmds: seq<Command>): (t: Store)
    decreases cmds
  {
    if cmds == [] then s else PerformAll(Perform(s, x, c, cmds[0]), x, c + 1, cmds[1..])
  }

  /**
   Each command that names a row names one that it sees and that nobody has stamped; `victims` are
   the tuples that the named rows hold.
   */
  ghost predicate Targeted(s: Store, x: Xid, c: nat, xids: set<Xid>, cmds: seq<Command>, victims: seq<Bytes>)
    decreases cmds
  {
    && |victims| == |cmds|
    && (cmds == [] ||
        (&& (cmds[0].Add? || Aims(s, x, c, xids, cmds[0].k, victims[0]))
         && Targeted(Perform(s, x, c, cmds[0]), x, c + 1, xids, cmds[1..], victims[1..])))
  }

  /** Command `c` of transaction `x` sees row `k`, unstamped and with the given tuple. */
  ghost predicate Aims(s: Store, x: Xid, c: nat, xids: set<Xid>, k: Rowid, tuple: Bytes) {
    Stampable(s, k) && s.rows[k].tuple == tuple && k in Visible(s.rows, View(xids, x, c))
  }

  /** Everything that `x` wrote so far, it wrote before command `c`. */
  ghost predicate OwnBefore(s: Store, x: Xid, c: nat) {
    forall k :: k in s.rows ==>
      && (s.rows[k].header.xmin == x ==> s.rows[k].header.cmin < c)
      && (s.rows[k].header.xmax == x ==> s.rows[k].header.cmax < c)
  }

  // ---- bags ----

  /** How many of the rows numbered 1 to `n` hold the tuple. */
  function Copies(t: Table, n: nat, tuple: Bytes): (m: nat) {
    if n == 0 then 0 else Copies(t, n - 1, tuple) + if n in t && t[n] == tuple then 1 else 0
  }

  /** `m` is the bag of the tuples of `t`, whose rows are numbered 1 to `n`. */
  ghost predicate IsBag(t: Table, n: nat, m: multiset<Bytes>) {
    forall tuple :: m[tuple] == Copies(t, n, tuple)
  }

  lemma {:induction false} CopiesAdd(t: Table, n: nat, k: Rowid, added: Bytes, tuple: Bytes)
    requires k !in t && 1 <= k
    ensures Copies(t[k := added], n, tuple) == Copies(t, n, tuple) + if k <= n && added == tuple then 1 else 0
  {
    if n > 0 {
      CopiesAdd(t, n - 1, k, added, tuple);
    }
  }

  lemma BagAdd(t: Table, n: nat, k: Rowid, added: Bytes, m: multiset<Bytes>)
    requires k !in t && 1 <= k <= n && IsBag(t, n, m)
    ensures IsBag(t[k := added], n, m + multiset{added})
  {
    forall tuple ensures (m + multiset{added})[tuple] == Copies(t[k := added], n, tuple) {
      CopiesAdd(t, n, k, added, tuple);
    }
  }

  lemma BagRemove(t: Table, n: nat, k: Rowid, m: multiset<Bytes>)
    requires k in t && 1 <= k <= n && IsBag(t, n, m)
    ensures t[k] in m && IsBag(t - {k}, n, m - multiset{t[k]})
  {
    assert (t - {k})[k := t[k]] == t;
    CopiesAdd(t - {k}, n, k, t[k], t[k]);
    forall tuple ensures (m - multiset{t[k]})[tuple] == Copies(t - {k}, n, tuple) {
      CopiesAdd(t - {k}, n, k, t[k], tuple);
    }
  }

  /** The plain counterpart of a command, given the tuple that the named row holds. */
  function PlainCommand(m: multiset<Bytes>, cmd: Command, victim: Bytes): (p: multiset<Bytes>) {
    match cmd
    case Add(tuple) => m + multiset{tuple}
    case Remove(_) => m - multiset{victim}
    case Replace(_, tuple) => m - multiset{victim} + multiset{tuple}
  }

  /** The same commands on a bag: each names its victim by the tuple it is meant to remove. */
  function PlainAll(m: multiset<Bytes>, cmds: seq<Command>, victims: seq<Bytes>): (p: multiset<Bytes>)
    requires |cmds| == |victims|
    decreases cmds
  {
    if cmds == [] then m else PlainAll(PlainCommand(m, cmds[0], victims[0]), cmds[1..], victims[1..])
  }

  // ---- one command ----

  lemma PerformKeepsOrder(s: Store, x: Xid, c: nat, cmd: Command)
    requires OwnBefore(s, x, c) && x != 0
    ensures OwnBefore(Perform(s, x, c, cmd), x, c + 1)
  {
  }

  /** Command ids that no row carries may be counted or not. */
  lemma LaterCommandSeesSame(s: Store, x: Xid, c: nat, xids: set<Xid>)
    requires OwnBefore(s, x, c)
    ensures Visible(s.rows, View(xids, x, c + 1)) == Visible(s.rows, View(xids, x, c))
  {
    forall k | k in s.rows
      ensures VisibleTo(s.rows[k].header, View(xids, x, c + 1)) == VisibleTo(s.rows[k].header, View(xids, x, c))
    {
    }
  }

  lemma PerformOnTable(s: Store, x: Xid, c: nat, xids: set<Xid>, cmd: Command)
    requires OwnBefore(s, x, c) && x != 0 && (cmd.Add? || Stampable(s, cmd.k))
    ensures
      var t := Visible(s.rows, View(xids, x, c));
      var newest := NextRowid(s.rows);
      Visible(Perform(s, x, c, cmd).rows, View(xids, x, c + 1)) == match cmd
        case Add(tuple) => t[newest := tuple]
        case Remove(k) => t - {k}
        case Replace(k, tuple) => (t - {k})[newest := tuple]
  {
    var v := View(xids, x, c + 1);
    LaterCommandSeesSame(s, x, c, xids);
    match cmd
    case Add(tuple) => InsertShows(s, x, c, tuple, v);
    case Remove(k) => StampHides(s, k, x, c, v);
    case Replace(k, tuple) =>
      StampHides(s, k, x, c, v);
      InsertShows(SetXmax(s, k, x, c).0, x, c, tuple, v);
      SameKeysSameRowid(s.rows, SetXmax(s, k, x, c).0.rows);
  }

  // ---- the refinement ----

  /** `m` is the bag of tuples that command `c` of transaction `x` sees. */
  ghost predicate SeesBag(s: Store, x: Xid, c: nat, xids: set<Xid>, n: nat, m: multiset<Bytes>) {
    IsBag(Visible(s.rows, View(xids, x, c)), n, m)
  }

  /** No rowid exceeds `n`. */
  ghost predicate Within(s: Store, n: nat) {
    forall k :: k in s.rows ==> k <= n
  }

  lemma WithinBefore(s: Store, x: Xid, c: nat, cmds: seq<Command>, n: nat)
    requires Within(PerformAll(s, x, c, cmds), n)
    ensures Within(s, n)
  {
    PerformAllKeepsRows(s, x, c, cmds);
  }

  /**
   For any sequence of commands of one transaction: if `m` is the bag of tuples that the first command
   sees, then what the same commands make of the plain bag `m` is the bag that the next command sees.
   `n` is any bound on the rowids.
   */
  lemma CommandsRefinePlainTable(s: Store, x: Xid, c: nat, xids: set<Xid>,
      cmds: seq<Command>, victims: seq<Bytes>, n: nat, m: multiset<Bytes>)
    requires PositiveRowids(s.rows) && OwnBefore(s, x, c) && x != 0
    requires Targeted(s, x, c, xids, cmds, victims)
    requires Within(PerformAll(s, x, c, cmds), n)
    requires SeesBag(s, x, c, xids, n, m)
    ensures SeesBag(PerformAll(s, x, c, cmds), x, c + |cmds|, xids, n, PlainAll(m, cmds, victims))
  {
    RefinesTo(s, x, c, xids, cmds, victims, n, m, PerformAll(s, x, c, cmds), c + |cmds|, PlainAll(m, cmds, victims));
  }

  /** The same with what is reached at the end, contents `t`, command id `end` and bag `p`, given outright. */
  lemma {:induction false} RefinesTo(s: Store, x: Xid, c: nat, xids: set<Xid>, cmds: seq<Command>, victims: seq<Bytes>,
      n: nat, m: multiset<Bytes>, t: Store, end: nat, p: multiset<Bytes>)
    requires PositiveRowids(s.rows) && OwnBefore(s, x, c) && x != 0
    requires Targeted(s, x, c, xids, cmds, victims)
    requires t == PerformAll(s, x, c, cmds) && end == c + |cmds| && p == PlainAll(m, cmds, victims)
    requires Within(t, n) && SeesBag(s, x, c, xids, n, m)
    ensures SeesBag(t, x, end, xids, n, p)
    decreases cmds
  {
    if cmds != [] {
      var mid := Perform(s, x, c, cmds[0]);
      WithinBefore(mid, x, c + 1, cmds[1..], n);
      CommandOnBag(s, x, c, xids, cmds[0], victims[0], n, m);
      RefinesTo(mid, x, c + 1, xids, cmds[1..], victims[1..], n, PlainCommand(m, cmds[0], victims[0]), t, end, p);
    }
  }

  lemma CommandOnBag(s: Store, x: Xid, c: nat, xids: set<Xid>, cmd: Command, victim: Bytes, n: nat, m: multiset<Bytes>)
    requires PositiveRowids(s.rows) && OwnBefore(s, x, c) && x != 0
    requires cmd.Add? || Aims(s, x, c, xids, cmd.k, victim)
    requires Within(Perform(s, x, c, cmd), n)
    requires SeesBag(s, x, c, xids, n, m)
    ensures SeesBag(Perform(s, x, c, cmd), x, c + 1, xids, n, PlainCommand(m, cmd, victim))
    ensures PositiveRowids(Perform(s, x, c, cmd).rows) && OwnBefore(Perform(s, x, c, cmd), x, c + 1)
  {
    PerformKeepsOrder(s, x, c, cmd);
    var t := Visible(s.rows, View(xids, x, c));
    var newest := NextRowid(s.rows);
    PerformOnTable(s, x, c, xids, cmd);
    RowsAreKept(s, x, c, cmd);
    match cmd
    case Add(tuple) => BagAdd(t, n, newest, tuple, m);
    case Remove(k) => BagRemove(t, n, k, m);
    case Replace(k, tuple) =>
      BagRemove(t, n, k, m);
      BagAdd(t - {k}, n, newest, tuple, m - multiset{victim});
  }

  // ---- what never changes ----

  /** `t` still holds every row of `s`, unchanged except that a missing stamp may have been set. */
  ghost predicate KeepsRows(s: Store, t: Store) {
    forall k :: k in s.rows ==>
      && k in t.rows
      && t.rows[k].tuple == s.rows[k].tuple
      && t.rows[k].header.xmin == s.rows[k].header.xmin
      && t.rows[k].header.cmin == s.rows[k].header.cmin
      && (s.rows[k].header.xmax != 0 ==> t.rows[k].header == s.rows[k].header)
  }

  function NewRows(cmds: seq<Command>): (n: nat) {
    if cmds == [] then 0 else (if cmds[0].Remove? then 0 else 1) + NewRows(cmds[1..])
  }

  lemma StampKeepsRows(s: Store, x: Xid, c: nat, k: Rowid)
    ensures KeepsRows(s, SetXmax(s, k, x, c).0)
    ensures SetXmax(s, k, x, c).0.rows.Keys == s.rows.Keys
  {
  }

  lemma InsertKeepsRows(s: Store, x: Xid, c: nat, tuple: Bytes)
    ensures KeepsRows(s, InsertRow(s, x, c, tuple).0)
    ensures InsertRow(s, x, c, tuple).0.rows.Keys == s.rows.Keys + {NextRowid(s.rows)}
    ensures |InsertRow(s, x, c, tuple).0.rows.Keys| == |s.rows.Keys| + 1
  {
  }

  lemma RowsAreKept(s: Store, x: Xid, c: nat, cmd: Command)
    ensures KeepsRows(s, Perform(s, x, c, cmd))
    ensures |Perform(s, x, c, cmd).rows.Keys| == |s.rows.Keys| + if cmd.Remove? then 0 else 1
    ensures PositiveRowids(s.rows) ==> PositiveRowids(Perform(s, x, c, cmd).rows)
    ensures !cmd.Remove? ==> NextRowid(s.rows) in Perform(s, x, c, cmd).rows
  {
    match cmd
    case Add(tuple) => InsertKeepsRows(s, x, c, tuple);
    case Remove(k) => StampKeepsRows(s, x, c, k);
    case Replace(k, tuple) =>
      var mid := SetXmax(s, k, x, c).0;
      StampKeepsRows(s, x, c, k);
      SameKeysSameRowid(s.rows, mid.rows);
      InsertKeepsRows(mid, x, c, tuple);
  }

  /**
   Whatever commands run, rows are immutable but for one stamp each, and the physical table grows by
   exactly the inserts and updates.
   */
  lemma {:induction false} PerformAllKeepsRows(s: Store, x: Xid, c: nat, cmds: seq<Command>)
    ensures KeepsRows(s, PerformAll(s, x, c, cmds))
    ensures |PerformAll(s, x, c, cmds).rows.Keys| == |s.rows.Keys| + NewRows(cmds)
    decreases cmds
  {
    if cmds != [] {
      RowsAreKept(s, x, c, cmds[0]);
      PerformAllKeepsRows(Perform(s, x, c, cmds[0]), x, c + 1, cmds[1..]);
    }
  }

  /**
   `update_row` inserts the new version whatever becomes of the old one. It replaces the old row in
   the eyes of the next command exactly when the old row was unstamped or not visible to begin with.
   */
  lemma UpdateReplacesIff(s: Store, k: Rowid, x: Xid, c: nat, tuple: Bytes, xids: set<Xid>)
    requires OwnBefore(s, x, c) && x != 0
    ensures
      var (s', j) := UpdateRow(s, k, x, c, tuple);
      var t := Visible(s.rows, View(xids, x, c));
      Visible(s'.rows, View(xids, x, c + 1)) == (t - {k})[j := tuple] <==> Stampable(s, k) || k !in t
  {
    var v := View(xids, x, c + 1);
    var mid := SetXmax(s, k, x, c).0;
    var (s', j) := UpdateRow(s, k, x, c, tuple);
    var t := Visible(s.rows, View(xids, x, c));
    LaterCommandSeesSame(s, x, c, xids);
    InsertShows(mid, x, c, tuple, v);
    SameKeysSameRowid(s.rows, mid.rows);
    if Stampable(s, k) {
      StampHides(s, k, x, c, v);
    } else if k in t {
      assert k in t[j := tuple] && k !in (t - {k})[j := tuple];
    } else {
      assert t - {k} == t;
    }
  }

  // ---- a backend's own steps ----

  /** Backend `b` may run statements on relation `r`. */
  ghost predicate Ready(w: World, b: Bid, r: Rel) {
    CanWrite(w, b, r) && w.backends[b].xid != 0 && 0 <= w.nextXid < TWO31
  }

  function StepFor(b: Bid, r: Rel, cmd: Command): (s: Step) {
    match cmd
    case Add(tuple) => Insert(b, r, tuple)
    case Remove(k) => Delete(b, r, k)
    case Replace(k, tuple) => Update(b, r, k, tuple)
  }

  /** Each command is a statement followed by an increment of the command counter. */
  function StepsFor(b: Bid, r: Rel, cmds: seq<Command>): (run: seq<Step>) {
    if cmds == [] then [] else [StepFor(b, r, cmds[0]), NextCommand(b)] + StepsFor(b, r, cmds[1..])
  }

  ghost function AfterCommand(port: Port, w: World, b: Bid, r: Rel, cmd: Command): (u: World)
    requires Ready(w, b, r)
    ensures Ready(u, b, r)
  {
    Next(port, Next(port, w, StepFor(b, r, cmd)), NextCommand(b))
  }

  /** What a snapshot that backend `b` takes now makes it read. */
  ghost function Reads(w: World, b: Bid, r: Rel): (t: Table)
    requires b < |w.backends| && r < |w.files| && 0 <= w.nextXid < TWO31
  {
    Seen(w, b, r, TakeSnapshot(w, b))
  }

  /** Each command that names a row names an unstamped one that it reads; `victims` are the tuples read. */
  ghost predicate AimsAtReads(port: Port, w: World, b: Bid, r: Rel, cmds: seq<Command>, victims: seq<Bytes>)
    requires Ready(w, b, r)
    decreases cmds
  {
    && |victims| == |cmds|
    && (cmds == [] ||
        (&& (cmds[0].Add? ||
             (&& Stampable(CopyOf(w, b, r), cmds[0].k)
              && cmds[0].k in Reads(w, b, r) && Reads(w, b, r)[cmds[0].k] == victims[0]))
         && AimsAtReads(port, AfterCommand(port, w, b, r, cmds[0]), b, r, cmds[1..], victims[1..])))
  }

  /** The current command of backend `b` has not written to relation `r` yet. */
  ghost predicate NothingWrittenYet(w: World, b: Bid, r: Rel)
    requires b < |w.backends| && r < |w.files|
  {
    OwnBefore(CopyOf(w, b, r), w.backends[b].xid, w.backends[b].cid)
  }

  lemma CommandInMachine(port: Port, w: World, b: Bid, r: Rel, cmd: Command)
    requires Ordered(w) && Ready(w, b, r)
    ensures
      var u, be := AfterCommand(port, w, b, r, cmd), w.backends[b];
      && Ordered(u) && u.committed == w.committed
      && u.backends[b].xid == be.xid && u.backends[b].cid == be.cid + 1
      && CopyOf(u, b, r) == Perform(CopyOf(w, b, r), be.xid, be.cid, cmd)
  {
    assert FileOk(w, w.files[r], r);
    StepKeepsOrder(port, w, StepFor(b, r, cmd));
    StepKeepsOrder(port, Next(port, w, StepFor(b, r, cmd)), NextCommand(b));
  }

  /** A snapshot taken now reads what the point of view of the current command sees. */
  lemma ReadsAreVisible(w: World, b: Bid, r: Rel)
    requires Ordered(w) && Ready(w, b, r)
    ensures Reads(w, b, r) == Visible(CopyOf(w, b, r).rows, ViewNow(w, b))
  {
    SinceStarts(w, b);
    SeenIsVisible(w, w, b, r);
  }

  /** Backend `b` has got from `w` to `u` by carrying out `cmds`. */
  ghost predicate Performed(w: World, u: World, b: Bid, r: Rel, cmds: seq<Command>)
    requires Ready(w, b, r)
  {
    && Ordered(u) && Ready(u, b, r) && u.committed == w.committed
    && u.backends[b].xid == w.backends[b].xid && u.backends[b].cid == w.backends[b].cid + |cmds|
    && CopyOf(u, b, r) == PerformAll(CopyOf(w, b, r), w.backends[b].xid, w.backends[b].cid, cmds)
  }

  lemma StepsUnfold(port: Port, w: World, b: Bid, r: Rel, cmds: seq<Command>)
    requires Ready(w, b, r) && cmds != []
    requires ValidRun(port, AfterCommand(port, w, b, r, cmds[0]), StepsFor(b, r, cmds[1..]))
    ensures ValidRun(port, w, StepsFor(b, r, cmds))
    ensures Exec(port, w, StepsFor(b, r, cmds)) ==
      Exec(port, AfterCommand(port, w, b, r, cmds[0]), StepsFor(b, r, cmds[1..]))
  {
    var run, first := StepsFor(b, r, cmds), [StepFor(b, r, cmds[0]), NextCommand(b)];
    var w1 := Next(port, w, first[0]);
    assert first[1..] == [first[1]] && [first[1]][1..] == [];
    assert ValidRun(port, w1, first[1..]);
    assert Exec(port, w1, first[1..]) == AfterCommand(port, w, b, r, cmds[0]);
    ExecAppend(port, w, first, StepsFor(b, r, cmds[1..]));
  }

  lemma PerformedUnfolds(port: Port, w: World, b: Bid, r: Rel, cmds: seq<Command>, u: World)
    requires Ordered(w) && Ready(w, b, r) && cmds != []
    requires Performed(AfterCommand(port, w, b, r, cmds[0]), u, b, r, cmds[1..])
    ensures Performed(w, u, b, r, cmds)
  {
    CommandInMachine(port, w, b, r, cmds[0]);
  }

  lemma {:induction false} CommandsInMachine(port: Port, w: World, b: Bid, r: Rel, cmds: seq<Command>)
    requires Ordered(w) && Ready(w, b, r)
    ensures ValidRun(port, w, StepsFor(b, r, cmds))
    ensures Performed(w, Exec(port, w, StepsFor(b, r, cmds)), b, r, cmds)
    decreases cmds
  {
    if cmds != [] {
      CommandInMachine(port, w, b, r, cmds[0]);
      CommandsInMachine(port, AfterCommand(port, w, b, r, cmds[0]), b, r, cmds[1..]);
      StepsUnfold(port, w, b, r, cmds);
      PerformedUnfolds(port, w, b, r, cmds, Exec(port, w, StepsFor(b, r, cmds)));
    }
  }

  lemma {:induction false} ReadsAreTargets(port: Port, w: World, b: Bid, r: Rel, cmds: seq<Command>, victims: seq<Bytes>)
    requires Ordered(w) && Ready(w, b, r) && AimsAtReads(port, w, b, r, cmds, victims)
    ensures Targeted(CopyOf(w, b, r), w.backends[b].xid, w.backends[b].cid, w.committed, cmds, victims)
    decreases cmds
  {
    if cmds != [] {
      ReadsAreVisible(w, b, r);
      CommandInMachine(port, w, b, r, cmds[0]);
      ReadsAreTargets(port, AfterCommand(port, w, b, r, cmds[0]), b, r, cmds[1..], victims[1..]);
    }
  }

  /**
   Refinement to a plain table, in the machine. Take any run, and let a backend carry on with any commands,
   each of which names, if any, an unstamped row that it reads. If `m` is the bag of tuples that it read
   before, then what the same commands make of the plain bag `m` is what its next snapshot reads.
   */
  lemma BackendRefinesPlainTable(port: Port, nfiles: nat, nbackends: nat, run: seq<Step>, w: World, b: Bid, r: Rel,
      cmds: seq<Command>, victims: seq<Bytes>, u: World, n: nat, m: multiset<Bytes>)
    requires Reaches(port, Init(nfiles, nbackends), run, w) && Ready(w, b, r) && NothingWrittenYet(w, b, r)
    requires AimsAtReads(port, w, b, r, cmds, victims) && IsBag(Reads(w, b, r), n, m)
    requires Reaches(port, w, StepsFor(b, r, cmds), u) && r < |u.files| && Within(CopyOf(u, b, r), n)
    ensures Ready(u, b, r) && IsBag(Reads(u, b, r), n, PlainAll(m, cmds, victims))
  {
    ReachedIsOrdered(port, nfiles, nbackends, run, w);
    CommandsInMachine(port, w, b, r, cmds);
    ReadsAreTargets(port, w, b, r, cmds, victims);
    assert Performed(w, u, b, r, cmds);
    PerformedRefines(w, u, b, r, cmds, victims, n, m);
  }

  lemma PerformedRefines(w: World, u: World, b: Bid, r: Rel, cmds: seq<Command>, victims: seq<Bytes>, n: nat, m: multiset<Bytes>)
    requires Ordered(w) && Ready(w, b, r) && Performed(w, u, b, r, cmds) && NothingWrittenYet(w, b, r)
    requires Targeted(CopyOf(w, b, r), w.backends[b].xid, w.backends[b].cid, w.committed, cmds, victims)
    requires IsBag(Reads(w, b, r), n, m) && Within(CopyOf(u, b, r), n)
    ensures IsBag(Reads(u, b, r), n, PlainAll(m, cmds, victims))
  {
    assert FileOk(w, w.files[r], r);
    ReadsAreVisible(w, b, r);
    ReadsAreVisible(u, b, r);
    RefinesTo(CopyOf(w, b, r), w.backends[b].xid, w.backends[b].cid, w.committed, cmds, victims, n, m,
              CopyOf(u, b, r), u.backends[b].cid, PlainAll(m, cmds, victims));
  }

  // ---- command ids ----

  /** No running transaction has written at a command id above its current one. */
  ghost predicate CommandsOk(w: World) {
    forall r, b :: 0 <= r < |w.files| && 0 <= b < |w.backends| && w.backends[b].xid != 0 ==>
      && OwnBefore(w.files[r].base, w.backends[b].xid, w.backends[b].cid + 1)
      && OwnBefore(w.files[r].work, w.backends[b].xid, w.backends[b].cid + 1)
  }

  lemma StatementKeepsCommands(w: World, s: Step, x: Xid, c: nat)
    requires IsWrite(s) && Enabled(w, s) && x != 0 && OwnBefore(w.files[s.r].work, x, c)
    requires x == w.backends[s.b].xid ==> w.backends[s.b].cid < c
    ensures OwnBefore(NewWork(w, s), x, c)
  {
  }

  lemma WriteKeepsCommands(port: Port, w: World, s: Step)
    requires Ordered(w) && CommandsOk(w) && IsWrite(s) && Enabled(w, s)
    ensures CommandsOk(Next(port, w, s))
  {
    forall b | 0 <= b < |w.backends| && w.backends[b].xid != 0
      ensures OwnBefore(NewWork(w, s), w.backends[b].xid, w.backends[b].cid + 1)
    {
      StatementKeepsCommands(w, s, w.backends[b].xid, w.backends[b].cid + 1);
    }
  }

  /** A new xid has not written anything. */
  lemma AssignXidKeepsCommands(port: Port, w: World, b: Bid)
    requires Ordered(w) && CommandsOk(w) && Enabled(w, AssignXid(b))
    ensures CommandsOk(Next(port, w, AssignXid(b)))
  {
    forall r | 0 <= r < |w.files| ensures FileOk(w, w.files[r], r) {
    }
  }

  lemma OtherStepKeepsCommands(port: Port, w: World, s: Step)
    requires Ordered(w) && CommandsOk(w) && !IsWrite(s) && !s.AssignXid? && Enabled(w, s)
    ensures CommandsOk(Next(port, w, s))
  {
    var u := Next(port, w, s);
    forall r, b | 0 <= r < |u.files| && 0 <= b < |u.backends| && u.backends[b].xid != 0
      ensures OwnBefore(u.files[r].base, u.backends[b].xid, u.backends[b].cid + 1)
      ensures OwnBefore(u.files[r].work, u.backends[b].xid, u.backends[b].cid + 1)
    {
      assert u.files[r].base in {w.files[r].base, w.files[r].work} && u.files[r].work in {w.files[r].base, w.files[r].work};
      assert u.backends[b].xid == w.backends[b].xid && w.backends[b].cid <= u.backends[b].cid;
    }
  }

  lemma {:induction false} RunKeepsCommands(port: Port, w: World, run: seq<Step>)
    requires Ordered(w) && CommandsOk(w) && ValidRun(port, w, run)
    ensures CommandsOk(Exec(port, w, run))
    decreases run
  {
    if run != [] {
      if IsWrite(run[0]) {
        WriteKeepsCommands(port, w, run[0]);
      } else if run[0].AssignXid? {
        AssignXidKeepsCommands(port, w, run[0].b);
      } else {
        OtherStepKeepsCommands(port, w, run[0]);
      }
      StepKeepsOrder(port, w, run[0]);
      RunKeepsCommands(port, Next(port, w, run[0]), run[1..]);
    }
  }

  /** In every run, whenever a backend moves on to its next command, that command has not written anything. */
  lemma NextCommandStartsClean(port: Port, nfiles: nat, nbackends: nat, run: seq<Step>, w: World, b: Bid, r: Rel)
    requires Reaches(port, Init(nfiles, nbackends), run, w) && r < |w.files|
    requires Enabled(w, NextCommand(b)) && w.backends[b].xid != 0
    ensures NothingWrittenYet(Next(port, w, NextCommand(b)), b, r)
  {
    InitHasInv(nfiles, nbackends);
    RunKeepsCommands(port, Init(nfiles, nbackends), run);
  }
}
