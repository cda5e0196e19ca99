/**
 Which stored rows a snapshot sees.
 */
module Visibility {
  import opened Xids
  import opened Storage

  /**
   What Postgres answers when asked about an xid: `mine` for TransactionIdIsCurrentTransactionId,
   `committed` for TransactionIdDidCommit, `running` for TransactionIdIsInProgress.
   */
  datatype XactEnv = XactEnv(mine: set<Xid>, committed: set<Xid>, running: set<Xid>) {
    /** Postgres never answers that a transaction is both running and committed. */
    ghost predicate Valid() {
      mine <= running && running !! committed && 0 !in running && 0 !in committed
    }

    predicate DidCommit(x: Xid) {
      x != 0 && x in committed
    }
  }

  datatype SnapshotKind = SnapAny | SnapSelf | SnapDirty | SnapNonVacuumable | SnapMvcc

  datatype Snapshot = Snapshot(kind: SnapshotKind, xmin: Xid, xmax: Xid, xip: seq<Xid>, curcid: nat)

  datatype XidView = OurOwnXact | CommittedAndVisible | NotVisible

  function ViewXid(x: Xid, env: XactEnv, snap: Snapshot): (v: XidView) {
    if x in env.mine then OurOwnXact
    else if !env.DidCommit(x) then NotVisible
    else if Precedes(x, snap.xmin) then CommittedAndVisible
    else if !Precedes(x, snap.xmax) then NotVisible
    else if x in snap.xip then NotVisible
    else CommittedAndVisible
  }

  /** `xid_view`, which walks the in-progress array of the snapshot. */
  method XidViewByScan(x: Xid, env: XactEnv, snap: Snapshot) returns (v: XidView)
    ensures v == ViewXid(x, env, snap)
  {
    if x in env.mine {
      return OurOwnXact;
    }
    if !env.DidCommit(x) {
      return NotVisible;
    }
    if Precedes(x, snap.xmin) {
      return CommittedAndVisible;
    }
    if !Precedes(x, snap.xmax) {
      return NotVisible;
    }
    for i := 0 to |snap.xip|
      invariant x !in snap.xip[..i]
    {
      if x == snap.xip[i] {
        return NotVisible;
      }
    }
    return CommittedAndVisible;
  }

  predicate VisibleMvcc(h: Header, env: XactEnv, snap: Snapshot) {
    var inserted := match ViewXid(h.xmin, env, snap)
      case NotVisible => false
      case OurOwnXact => h.cmin < snap.curcid
      case CommittedAndVisible => true;
    inserted && (h.xmax == 0 || match ViewXid(h.xmax, env, snap)
      case NotVisible => true
      case OurOwnXact => h.cmax >= snap.curcid
      case CommittedAndVisible => false)
  }

  predicate VisibleSelf(h: Header, env: XactEnv) {
    (h.xmin in env.mine || env.DidCommit(h.xmin)) &&
    (h.xmax == 0 || !(h.xmax in env.mine || env.DidCommit(h.xmax)))
  }

  /** The verdict of a dirty snapshot and the in-progress inserter and deleter that it reports. */
  datatype DirtyVerdict = DirtyVerdict(visible: bool, inserter: Xid, deleter: Xid)

  function VisibleDirty(h: Header, env: XactEnv): (d: DirtyVerdict) {
    if h.xmin !in env.mine && h.xmin !in env.running && !env.DidCommit(h.xmin) then
      DirtyVerdict(false, 0, 0)
    else
      var inserter := if h.xmin in env.mine || h.xmin !in env.running then 0 else h.xmin;
      if h.xmax == 0 then DirtyVerdict(true, inserter, 0)
      else if h.xmax in env.mine then DirtyVerdict(false, inserter, 0)
      else if h.xmax in env.running then DirtyVerdict(true, inserter, h.xmax)
      else DirtyVerdict(!env.DidCommit(h.xmax), inserter, 0)
  }

  /** The fields of a dirty snapshot through which the in-progress xids are reported. */
  class DirtySnapshot {
    var xmin: Xid
    var xmax: Xid
    var speculativeToken: nat

    constructor (xmin: Xid, xmax: Xid, speculativeToken: nat)
      ensures this.xmin == xmin && this.xmax == xmax && this.speculativeToken == speculativeToken
    {
      this.xmin := xmin;
      this.xmax := xmax;
      this.speculativeToken := speculativeToken;
    }

    /** `visible_dirty`: whatever an earlier row left in the fields is gone afterwards. */
    method Visible(h: Header, env: XactEnv) returns (visible: bool)
      modifies this
      ensures DirtyVerdict(visible, xmin, xmax) == VisibleDirty(h, env)
      ensures speculativeToken == 0
    {
      xmin := 0;
      xmax := 0;
      speculativeToken := 0;
      if h.xmin in env.mine {
      } else if h.xmin in env.running {
        xmin := h.xmin;
      } else if !env.DidCommit(h.xmin) {
        return false;
      }
      if h.xmax == 0 {
        return true;
      }
      if h.xmax in env.mine {
        return false;
      }
      if h.xmax in env.running {
        xmax := h.xmax;
        return true;
      }
      return !env.DidCommit(h.xmax);
    }
  }

  /**
   One dirty snapshot put to one row after another, as a uniqueness check does. It starts with whatever
   its fields held before, and yet what it reports for each row depends on that row alone; a stale xid
   would make the check wait for the wrong transaction.
   */
  method DirtyVerdicts(hs: seq<Header>, env: XactEnv, xmin: Xid, xmax: Xid, token: nat)
    returns (verdicts: seq<DirtyVerdict>)
    ensures |verdicts| == |hs|
    ensures forall i :: 0 <= i < |hs| ==> verdicts[i] == VisibleDirty(hs[i], env)
  {
    var snap := new DirtySnapshot(xmin, xmax, token);
    verdicts := [];
    for n := 0 to |hs|
      invariant |verdicts| == n
      invariant forall i :: 0 <= i < n ==> verdicts[i] == VisibleDirty(hs[i], env)
    {
      var visible := snap.Visible(hs[n], env);
      verdicts := verdicts + [DirtyVerdict(visible, snap.xmin, snap.xmax)];
    }
  }

  /** `row_visible`, for the snapshot kinds that do not write to the snapshot and the one that does. */
  predicate RowVisible(h: Header, env: XactEnv, snap: Snapshot) {
    match snap.kind
    case SnapAny => true
    case SnapSelf => VisibleSelf(h, env)
    case SnapDirty => VisibleDirty(h, env).visible
    case SnapNonVacuumable => h.xmax == 0 || !env.DidCommit(h.xmax)
    case SnapMvcc => VisibleMvcc(h, env, snap)
  }

  /**
   A snapshot that Postgres takes in `env`: every xid below `xmin` has finished, every xid from
   `xmax` up is yet to start, and `xip` lists the running transactions of other backends.
   */
  ghost predicate TakenIn(snap: Snapshot, env: XactEnv) {
    && snap.kind == SnapMvcc
    && FIRST_NORMAL <= snap.xmin <= snap.xmax < TWO31
    && (forall x :: x in env.running ==> snap.xmin <= x < snap.xmax)
    && (forall x :: x in env.committed ==> x < snap.xmax)
    && (forall x :: x in snap.xip <==> x in env.running && x !in env.mine)
  }

  /** Nothing of the current transaction in the row was written at command `curcid` or later. */
  predicate CommandsBelow(h: Header, env: XactEnv, curcid: nat) {
    (h.xmin in env.mine ==> h.cmin < curcid) && (h.xmax in env.mine ==> h.cmax < curcid)
  }

  /** A fresh MVCC snapshot past every command of its own transaction decides like SnapshotSelf. */
  lemma MvccAgreesWithSelf(h: Header, env: XactEnv, snap: Snapshot)
    requires env.Valid() && TakenIn(snap, env) && CommandsBelow(h, env, snap.curcid)
    ensures VisibleMvcc(h, env, snap) == VisibleSelf(h, env)
  {
    forall x: Xid ensures ViewXid(x, env, snap) ==
      if x in env.mine then OurOwnXact else if env.DidCommit(x) then CommittedAndVisible else NotVisible
    {
      if env.DidCommit(x) {
        OrdersCoincide(x, snap.xmin);
        OrdersCoincide(x, snap.xmax);
      }
    }
  }

  /**
   SnapshotDirty sees a row without waiting for its inserter exactly when SnapshotSelf sees it. It asks the
   caller to wait for the inserter exactly when that one is running elsewhere, and for the deleter exactly
   when the row is visible and that one is running elsewhere.
   */
  lemma DirtyAgreesWithSelf(h: Header, env: XactEnv)
    requires env.Valid()
    ensures
      var d := VisibleDirty(h, env);
      && (d.visible && d.inserter == 0 <==> VisibleSelf(h, env))
      && d.inserter == (if h.xmin in env.running - env.mine then h.xmin else 0)
      && d.deleter == (if d.visible && h.xmax in env.running - env.mine then h.xmax else 0)
  {
  }

  /**
   SnapshotDirty answers as SnapshotSelf would if the inserter of the row, should it still be running
   elsewhere, had committed: it counts on inserters and ignores deleters that are yet to finish.
   */
  lemma DirtyAnticipatesInserter(h: Header, env: XactEnv)
    requires env.Valid() && h.xmin != h.xmax
    ensures
      var inserted := if h.xmin in env.running && h.xmin !in env.mine then {h.xmin} else {};
      VisibleDirty(h, env).visible == VisibleSelf(h, env.(committed := env.committed + inserted))
  {
  }

  /**
   `xid_view` consults only the top-level in-progress array. If `subs` are the subtransaction ids
   that were also running when the snapshot was taken, an xid that has since committed is
   classified as the snapshot means it (visible iff it was no longer running) exactly when it is
   not one of `subs` from inside the snapshot's xid range.
   */
  lemma TopLevelXidsOnlyIff(x: Xid, env: XactEnv, snap: Snapshot, subs: set<Xid>)
    requires FIRST_NORMAL <= x < TWO31 && x !in env.mine && env.DidCommit(x)
    requires snap.xmin <= snap.xmax < TWO31
    requires forall s :: s in subs ==> s !in snap.xip && snap.xmin <= s < snap.xmax
    ensures
      var wasRunning := x >= snap.xmax || (x >= snap.xmin && (x in snap.xip || x in subs));
      (ViewXid(x, env, snap) == NotVisible <==> wasRunning) <==> x !in subs
  {
    OrdersCoincide(x, snap.xmin);
    OrdersCoincide(x, snap.xmax);
  }
}
