/**
 The scan cursor: lazily cached sequential scan, TID-range scan and bitmap scan.
 */
module Scans {
  import opened Basics
  import opened Tids
  import opened Storage

  datatype Emitted = Emitted(rowid: Rowid, tuple: Bytes)

  /** A page of a TID bitmap: the offsets it holds, or the whole block once it has become lossy. */
  datatype Page = Exact(block: int, offsets: seq<int>) | Lossy(block: int)

  // ---- listings ----

  predicate AscendingOut(out: seq<Emitted>) {
    forall i, j :: 0 <= i < j < |out| ==> out[i].rowid < out[j].rowid
  }

  /** `out` is the table `t`, each row once, in rowid order. */
  ghost predicate Lists(out: seq<Emitted>, t: Table) {
    && AscendingOut(out)
    && (forall i :: 0 <= i < |out| ==> out[i].rowid in t && t[out[i].rowid] == out[i].tuple)
    && (forall k :: k in t ==> Emitted(k, t[k]) in out)
  }

  /** There is only one such listing. */
  lemma {:induction false} ListsOnce(a: seq<Emitted>, b: seq<Emitted>, t: Table)
    requires Lists(a, t) && Lists(b, t)
    ensures a == b
  {
    if |a| > 0 && |b| > 0 {
      var x, y := a[0], b[0];
      assert y in a && x in b;
      assert x == y;
      var t' := t - {x.rowid};
      RestLists(a, t);
      RestLists(b, t);
      ListsOnce(a[1..], b[1..], t');
      assert a == [x] + a[1..] && b == [x] + b[1..];
    } else {
      assert |a| > 0 ==> a[0].rowid in t;
      assert |b| > 0 ==> b[0].rowid in t;
    }
  }

  lemma RestLists(a: seq<Emitted>, t: Table)
    requires Lists(a, t) && |a| > 0
    ensures Lists(a[1..], t - {a[0].rowid})
  {
    forall k | k in t - {a[0].rowid} ensures Emitted(k, t[k]) in a[1..] {
      assert Emitted(k, t[k]) in a;
    }
  }

  /** The rows of `rows` that are in `t`, in order. */
  function Wanted(rows: seq<StoredRow>, t: Table): (out: seq<Emitted>) {
    if rows == [] then []
    else
      var last := rows[|rows| - 1];
      Wanted(rows[..|rows| - 1], t) + if last.rowid in t then [Emitted(last.rowid, last.row.tuple)] else []
  }

  lemma {:induction false} WantedIsOrdered(rows: seq<StoredRow>, t: Table)
    requires Ascending(rows)
    ensures AscendingOut(Wanted(rows, t))
    ensures forall e :: e in Wanted(rows, t) <==>
      exists i :: 0 <= i < |rows| && rows[i].rowid in t && e == Emitted(rows[i].rowid, rows[i].row.tuple)
  {
    if rows != [] {
      var n := |rows| - 1;
      WantedIsOrdered(rows[..n], t);
      forall e | e in Wanted(rows[..n], t) ensures e.rowid < rows[n].rowid {
      }
      forall e ensures e in Wanted(rows, t) <==>
        exists i :: 0 <= i < |rows| && rows[i].rowid in t && e == Emitted(rows[i].rowid, rows[i].row.tuple)
      {
        if e in Wanted(rows[..n], t) {
          var i :| 0 <= i < n && rows[..n][i].rowid in t && e == Emitted(rows[..n][i].rowid, rows[..n][i].row.tuple);
          assert rows[i].rowid in t;
        }
      }
    }
  }

  /** Rows outside `t` add nothing. */
  lemma {:induction false} WantedSkips(rows: seq<StoredRow>, t: Table, i: nat, j: nat)
    requires i <= j <= |rows|
    requires forall k :: i <= k < j ==> rows[k].rowid !in t
    ensures Wanted(rows[..j], t) == Wanted(rows[..i], t)
    decreases j - i
  {
    if i < j {
      assert rows[..j][..j - 1] == rows[..j - 1];
      WantedSkips(rows, t, i, j - 1);
    }
  }

  // ---- what the storage layer owes a scan ----

  /** Whether the `n`-th call of a scan wants a row: visibility is judged anew at every call. */
  type Judge = (nat, StoredRow) -> bool

  /** The rows hold the table `t`, and every call from `n` on picks exactly the rows of `t` from them. */
  ghost predicate Good(rows: seq<StoredRow>, want: Judge, n: nat, t: Table) {
    && Ascending(rows)
    && (forall i, j: nat :: 0 <= i < |rows| && n <= j ==> (want(j, rows[i]) <==> rows[i].rowid in t))
    && (forall i :: 0 <= i < |rows| && rows[i].rowid in t ==> rows[i].row.tuple == t[rows[i].rowid])
    && (forall k :: k in t ==> exists i :: 0 <= i < |rows| && rows[i].rowid == k)
  }

  lemma GoodLater(rows: seq<StoredRow>, want: Judge, n: nat, t: Table)
    requires Good(rows, want, n, t)
    ensures Good(rows, want, n + 1, t)
  {
  }

  lemma WantedLists(rows: seq<StoredRow>, want: Judge, n: nat, t: Table)
    requires Good(rows, want, n, t)
    ensures Lists(Wanted(rows, t), t)
  {
    var out := Wanted(rows, t);
    WantedIsOrdered(rows, t);
    forall n | 0 <= n < |out| ensures out[n].rowid in t && t[out[n].rowid] == out[n].tuple {
      assert out[n] in out;
    }
    forall k | k in t ensures Emitted(k, t[k]) in Wanted(rows, t) {
      var i :| 0 <= i < |rows| && rows[i].rowid == k;
      assert Emitted(rows[i].rowid, rows[i].row.tuple) == Emitted(k, t[k]);
    }
  }

  // ---- bitmaps ----

  /** The bitmap page holds the tuple id of rowid `k`. */
  predicate OnPage(k: Rowid, p: Page) {
    1 <= k <= MAX_ROWID && RowidToTid(k).block == p.block && (p.Exact? ==> RowidToTid(k).offset in p.offsets)
  }

  ghost predicate InBitmap(k: Rowid, pages: seq<Page>) {
    exists i :: 0 <= i < |pages| && OnPage(k, pages[i])
  }

  predicate Distinct(xs: seq<int>) {
    forall i, j :: 0 <= i < j < |xs| ==> xs[i] != xs[j]
  }

  /** A page as the bitmap delivers it: a valid block, and valid offsets without repetition. */
  predicate WellFormed(p: Page) {
    && 0 <= p.block <= MAX_BLOCK
    && (p.Exact? ==> Distinct(p.offsets) && forall i :: 0 <= i < |p.offsets| ==> 1 <= p.offsets[i] <= TIDS_PER_BLOCK)
  }

  ghost predicate WellFormedPages(pages: seq<Page>) {
    && (forall i :: 0 <= i < |pages| ==> WellFormed(pages[i]))
    && (forall i, j :: 0 <= i < j < |pages| ==> pages[i].block != pages[j].block)
  }

  ghost predicate InRange(rows: seq<StoredRow>) {
    Ascending(rows) && forall i :: 0 <= i < |rows| ==> 1 <= rows[i].rowid <= MAX_ROWID
  }

  function CountExact(pages: seq<Page>): (n: nat) {
    if pages == [] then 0 else (if pages[0].Exact? then 1 else 0) + CountExact(pages[1..])
  }

  function CountLossy(pages: seq<Page>): (n: nat) {
    if pages == [] then 0 else (if pages[0].Lossy? then 1 else 0) + CountLossy(pages[1..])
  }

  /** The rows are all there: whatever is visible can be found among them. */
  ghost predicate Holds(rows: seq<StoredRow>, t: Table) {
    forall k :: k in t ==> exists i :: 0 <= i < |rows| && rows[i].rowid == k
  }

  /** The offsets of all cached rows that map into the block. */
  method OffsetsInBlock(rows: seq<StoredRow>, block: int) returns (offsets: seq<int>)
    requires InRange(rows)
    ensures Distinct(offsets)
    ensures forall i :: 0 <= i < |offsets| ==> 1 <= offsets[i] <= TIDS_PER_BLOCK
    ensures forall i :: 0 <= i < |rows| && RowidToTid(rows[i].rowid).block == block ==>
      RowidToTid(rows[i].rowid).offset in offsets
  {
    offsets := [];
    for n := 0 to |rows|
      invariant Distinct(offsets)
      invariant forall i :: 0 <= i < |offsets| ==> 1 <= offsets[i] <= TIDS_PER_BLOCK
      invariant forall i :: 0 <= i < |offsets| && n < |rows| ==> TidToRowid(Tid(block, offsets[i])) < rows[n].rowid
      invariant forall i :: 0 <= i < n && RowidToTid(rows[i].rowid).block == block ==>
        RowidToTid(rows[i].rowid).offset in offsets
    {
      var tid := RowidToTid(rows[n].rowid);
      if tid.block == block {
        PackingIsABijection(rows[n].rowid, tid);
        offsets := offsets + [tid.offset];
      }
    }
  }

  // ---- the cursor ----

  class Cursor {
    var rows: seq<StoredRow>
    var loaded: bool
    var pos: nat
    /** The bitmap iterator, and the page that is being drained. */
    var pages: seq<Page>
    var block: int
    var offsets: seq<int>
    var offsetPos: nat
    var exactPages: nat
    var lossyPages: nat

    constructor (pages: seq<Page>)
      ensures !loaded && pos == 0 && this.pages == pages
      ensures block == 0 && offsets == [] && offsetPos == 0 && exactPages == lossyPages == 0
    {
      rows, loaded, pos := [], false, 0;
      this.pages, block, offsets, offsetPos := pages, 0, [], 0;
      exactPages, lossyPages := 0, 0;
    }

    /** `ensure_rows_loaded`: the first caller pays for the read, the others find it cached. */
    method EnsureLoaded(current: seq<StoredRow>)
      modifies this`rows, this`loaded
      ensures loaded && rows == if old(loaded) then old(rows) else current
    {
      if !loaded {
        rows := current;
        loaded := true;
      }
    }

    /** The loop of `do_scan_getnext`: the next wanted row from the position on. */
    method Advance(want: StoredRow -> bool) returns (r: Option<StoredRow>)
      requires pos <= |rows|
      modifies this`pos
      ensures old(pos) <= pos <= |rows|
      ensures r.Some? ==> old(pos) < pos && rows[pos - 1] == r.value && want(r.value)
      ensures r.None? ==> pos == |rows|
      ensures forall i :: old(pos) <= i < (if r.Some? then pos - 1 else pos) ==> !want(rows[i])
    {
      while pos < |rows|
        invariant old(pos) <= pos <= |rows|
        invariant forall i :: old(pos) <= i < pos ==> !want(rows[i])
      {
        var row := rows[pos];
        pos := pos + 1;
        if want(row) {
          return Some(row);
        }
      }
      r := None;
    }

    /** `scan_rescan`. */
    method Rescan()
      modifies this`pos
      ensures pos == 0
    {
      pos := 0;
    }

    /** `do_scan_getnext`, the `n`-th call: it emits the next row of `t` that has not been emitted. */
    method GetNext(current: seq<StoredRow>, want: Judge, n: nat, ghost t: Table) returns (r: Option<Emitted>)
      requires if loaded then Good(rows, want, n, t) && pos <= |rows| else Good(current, want, n, t) && pos == 0
      modifies this`rows, this`loaded, this`pos
      ensures loaded && rows == (if old(loaded) then old(rows) else current)
      ensures old(pos) <= pos <= |rows|
      ensures r.Some? ==> old(pos) < pos && Wanted(rows[..pos], t) == Wanted(rows[..old(pos)], t) + [r.value]
      ensures r.None? ==> pos == |rows| && Wanted(rows, t) == Wanted(rows[..old(pos)], t)
    {
      EnsureLoaded(current);
      ghost var before := pos;
      var found := Advance(row => want(n, row));
      if found.None? {
        WantedSkips(rows, t, before, pos);
        assert rows[..pos] == rows;
        return None;
      }
      WantedSkips(rows, t, before, pos - 1);
      assert rows[..pos][..pos - 1] == rows[..pos - 1];
      r := Some(Emitted(found.value.rowid, found.value.row.tuple));
    }

    /**
     A scan from the first call to the last. `current(n)` is what a full read would return at the
     `n`-th call and `want(n, row)` is the verdict then; the cursor may have been loaded long before.
     */
    method Scan(current: nat -> seq<StoredRow>, want: Judge, now: nat, ghost t: Table)
      returns (out: seq<Emitted>, later: nat)
      requires pos == 0
      requires loaded ==> Good(rows, want, now, t)
      requires forall n: nat :: now <= n ==> Good(current(n), want, n, t)
      modifies this
      ensures now <= later && loaded && Good(rows, want, later, t)
      ensures Lists(out, t)
    {
      EnsureLoaded(current(now));
      out, later := [], now;
      while true
        invariant now <= later && pos <= |rows| && loaded && Good(rows, want, later, t)
        invariant out == Wanted(rows[..pos], t)
        decreases |rows| - pos
      {
        var r := GetNext(current(later), want, later, t);
        later := later + 1;
        GoodLater(rows, want, later - 1, t);
        if r.None? {
          break;
        }
        out := out + [r.value];
      }
      WantedLists(rows, want, later, t);
    }

    /** The rows of `t` that the bitmap scan has yet to emit. */
    ghost predicate Remaining(k: Rowid)
      reads this
    {
      InBitmap(k, pages) ||
      exists i :: offsetPos <= i < |offsets| && TidToRowid(Tid(block, offsets[i])) == k
    }

    ghost predicate BitmapValid()
      reads this
    {
      && WellFormedPages(pages) && offsetPos <= |offsets|
      && WellFormed(Exact(block, offsets))
      && (offsetPos < |offsets| ==> forall i :: 0 <= i < |pages| ==> pages[i].block != block)
      && (loaded ==> InRange(rows))
    }

    /**
     `scan_bitmap_next_tuple`: drains the current page, then pulls the next one from the bitmap. A
     fetch by rowid finds a row exactly when it is in the visible table `t`. Each call emits one
     remaining row, after which precisely that row is no longer remaining, and makes progress in
     pages left and offsets left.
     */
    method NextBitmapTuple(current: seq<StoredRow>, t: Table) returns (r: Option<Emitted>)
      requires BitmapValid() && InRange(current)
      requires Holds(current, t) && (loaded ==> Holds(rows, t))
      modifies this
      ensures BitmapValid() && (loaded ==> Holds(rows, t))
      ensures r.Some? ==> old(Remaining(r.value.rowid)) && r.value.rowid in t && t[r.value.rowid] == r.value.tuple
      ensures r.Some? ==> forall k :: k in t ==> (Remaining(k) <==> old(Remaining(k)) && k != r.value.rowid)
      ensures r.None? ==> forall k :: k in t ==> !old(Remaining(k)) && !Remaining(k)
      ensures |pages| <= old(|pages|)
      ensures |pages| == old(|pages|) ==> |offsets| - offsetPos <= old(|offsets| - offsetPos)
      ensures r.Some? && |pages| == old(|pages|) ==> |offsets| - offsetPos < old(|offsets| - offsetPos)
      ensures exactPages + CountExact(pages) == old(exactPages + CountExact(pages))
      ensures lossyPages + CountLossy(pages) == old(lossyPages + CountLossy(pages))
    {
      while true
        invariant BitmapValid() && (loaded ==> Holds(rows, t))
        invariant forall k :: k in t ==> (Remaining(k) <==> old(Remaining(k)))
        invariant |pages| <= old(|pages|)
        invariant |pages| == old(|pages|) ==> |offsets| - offsetPos <= old(|offsets| - offsetPos)
        invariant exactPages + CountExact(pages) == old(exactPages + CountExact(pages))
        invariant lossyPages + CountLossy(pages) == old(lossyPages + CountLossy(pages))
        decreases |pages|, |offsets| - offsetPos
      {
        if offsetPos < |offsets| {
          var k := TidToRowid(Tid(block, offsets[offsetPos]));
          DrainOne(k);
          if k in t {
            return Some(Emitted(k, t[k]));
          }
        } else if pages == [] {
          return None;
        } else {
          PullPage(current, t);
        }
      }
    }

    /** Moving past one offset of the current page takes its rowid, and no other, off the remaining ones. */
    method DrainOne(k: Rowid)
      requires BitmapValid() && offsetPos < |offsets| && k == TidToRowid(Tid(block, offsets[offsetPos]))
      modifies this`offsetPos
      ensures BitmapValid() && offsetPos == old(offsetPos) + 1
      ensures old(Remaining(k))
      ensures forall j :: Remaining(j) <==> old(Remaining(j)) && j != k
    {
      assert !InBitmap(k, pages) by {
        forall i | 0 <= i < |pages| ensures !OnPage(k, pages[i]) {
          PackingIsABijection(k, Tid(block, offsets[offsetPos]));
        }
      }
      offsetPos := offsetPos + 1;
    }

    /** The next page of the bitmap becomes the current one. */
    method PullPage(current: seq<StoredRow>, t: Table)
      requires BitmapValid() && offsetPos == |offsets| && pages != []
      requires InRange(current) && Holds(current, t) && (loaded ==> Holds(rows, t))
      modifies this
      ensures BitmapValid() && (loaded ==> Holds(rows, t))
      ensures |pages| == old(|pages|) - 1
      ensures forall k :: k in t ==> (Remaining(k) <==> old(Remaining(k)))
      ensures pages == old(pages)[1..]
      ensures exactPages == old(exactPages) + if old(pages)[0].Exact? then 1 else 0
      ensures lossyPages == old(lossyPages) + if old(pages)[0].Exact? then 0 else 1
    {
      var page := pages[0];
      pages := pages[1..];
      block := page.block;
      if page.Lossy? {
        lossyPages := lossyPages + 1;
        EnsureLoaded(current);
        offsets := OffsetsInBlock(rows, block);
      } else {
        exactPages := exactPages + 1;
        offsets := page.offsets;
      }
      offsetPos := 0;
      forall k | k in t ensures Remaining(k) <==> old(Remaining(k)) {
        PageSplits(k, page, old(pages));
        PageDrains(k, page, t);
      }
    }

    /** The offsets taken over from a page stand for exactly its visible rows. */
    lemma PageDrains(k: Rowid, page: Page, t: Table)
      requires WellFormed(page) && block == page.block && offsetPos == 0 && WellFormed(Exact(block, offsets))
      requires page.Exact? ==> offsets == page.offsets
      requires page.Lossy? ==> InRange(rows) && Holds(rows, t)
      requires page.Lossy? ==> forall i :: 0 <= i < |rows| && RowidToTid(rows[i].rowid).block == block ==>
        RowidToTid(rows[i].rowid).offset in offsets
      requires k in t
      ensures OnPage(k, page) <==>
        exists i :: offsetPos <= i < |offsets| && TidToRowid(Tid(block, offsets[i])) == k
    {
      if OnPage(k, page) {
        var tid := RowidToTid(k);
        PackingIsABijection(k, tid);
        if page.Lossy? {
          var i :| 0 <= i < |rows| && rows[i].rowid == k;
        }
        assert tid.offset in offsets;
        var i :| 0 <= i < |offsets| && offsets[i] == tid.offset;
        assert Tid(block, offsets[i]) == tid;
      }
      if i :| offsetPos <= i < |offsets| && TidToRowid(Tid(block, offsets[i])) == k {
        PackingIsABijection(k, Tid(block, offsets[i]));
      }
    }
  }

  lemma PageSplits(k: Rowid, page: Page, pages: seq<Page>)
    requires pages != [] && page == pages[0]
    ensures InBitmap(k, pages) <==> OnPage(k, page) || InBitmap(k, pages[1..])
  {
    if OnPage(k, page) {
      assert OnPage(k, pages[0]);
    }
    if InBitmap(k, pages[1..]) {
      var i :| 0 <= i < |pages[1..]| && OnPage(k, pages[1..][i]);
      assert OnPage(k, pages[i + 1]);
    }
  }

  /**
   A whole bitmap scan, over any mix of exact and lossy pages: it terminates, and emits each visible
   row whose tuple id is in the bitmap exactly once and nothing else.
   */
  method BitmapScan(pages: seq<Page>, current: nat -> seq<StoredRow>, fetched: nat -> Table, ghost t: Table)
    returns (out: seq<Emitted>)
    requires WellFormedPages(pages)
    requires forall n: nat :: fetched(n) == t
    requires forall n: nat :: InRange(current(n)) && Holds(current(n), t)
    ensures forall i, j :: 0 <= i < j < |out| ==> out[i].rowid != out[j].rowid
    ensures forall i :: 0 <= i < |out| ==> out[i].rowid in t && out[i].tuple == t[out[i].rowid]
    ensures forall k :: k in t ==> (InBitmap(k, pages) <==> exists i :: 0 <= i < |out| && out[i].rowid == k)
    ensures forall i :: 0 <= i < |out| ==> InBitmap(out[i].rowid, pages)
  {
    var c := new Cursor(pages);
    out := [];
    var n, more := 0, true;
    while more
      invariant c.BitmapValid() && (c.loaded ==> Holds(c.rows, t))
      invariant forall i, j :: 0 <= i < j < |out| ==> out[i].rowid != out[j].rowid
      invariant forall i :: 0 <= i < |out| ==> out[i].rowid in t && out[i].tuple == t[out[i].rowid]
      invariant forall i :: 0 <= i < |out| ==> !c.Remaining(out[i].rowid)
      invariant forall k :: k in t ==>
        (InBitmap(k, pages) <==> c.Remaining(k) || exists i :: 0 <= i < |out| && out[i].rowid == k)
      invariant !more ==> forall k :: k in t ==> !c.Remaining(k)
      decreases |c.pages|, |c.offsets| - c.offsetPos, more
    {
      ghost var remained := set k | k in t && c.Remaining(k);
      var r := c.NextBitmapTuple(current(n), fetched(n));
      n := n + 1;
      if r.None? {
        more := false;
      } else {
        ghost var sofar := out;
        out := out + [r.value];
        forall k | k in t
          ensures InBitmap(k, pages) <==> c.Remaining(k) || exists i :: 0 <= i < |out| && out[i].rowid == k
        {
          assert InBitmap(k, pages) <==> k in remained || exists i :: 0 <= i < |sofar| && sofar[i].rowid == k;
          if k == r.value.rowid {
            assert out[|sofar|].rowid == k;
          } else if i :| 0 <= i < |sofar| && sofar[i].rowid == k {
            assert out[i].rowid == k;
          }
        }
      }
    }
  }

  // ---- TID ranges ----

  /** The part of `t` between two tuple ids, by Postgres' order on tuple ids. */
  ghost function BetweenTids(t: Table, lo: Tid, hi: Tid): (u: Table) {
    map k | k in t && 1 <= k <= MAX_ROWID && !TidBefore(RowidToTid(k), lo) && !TidBefore(hi, RowidToTid(k)) :: t[k]
  }

  /** The part of `t` between two rowids: what `scan_getnextslot_tidrange` compares. */
  function BetweenRowids(t: Table, lo: Rowid, hi: Rowid): (u: Table) {
    map k | k in t && lo <= k <= hi :: t[k]
  }

  lemma TidRangeSelects(t: Table, lo: Tid, hi: Tid)
    requires forall k :: k in t ==> 1 <= k <= MAX_ROWID
    ensures BetweenRowids(t, TidToRowid(lo), TidToRowid(hi)) == BetweenTids(t, Carried(lo), Carried(hi))
    ensures LowerBoundExact(lo) && UpperBoundExact(hi) ==>
      BetweenRowids(t, TidToRowid(lo), TidToRowid(hi)) == BetweenTids(t, lo, hi)
  {
    forall k | k in t
      ensures TidToRowid(lo) <= k <= TidToRowid(hi) <==> k in BetweenTids(t, Carried(lo), Carried(hi))
    {
      CarriedOrder(lo, k);
      CarriedOrder(hi, k);
    }
  }

  /**
   A TID-range scan emits exactly the visible rows between the tuple ids into which its bounds carry over,
   in tuple-id order. If the bounds are exact, those are the rows between the bounds.
   */
  method TidRangeScan(current: nat -> seq<StoredRow>, visible: Judge, lo: Tid, hi: Tid, ghost t: Table)
    returns (out: seq<Emitted>)
    requires forall n: nat :: Good(current(n), visible, n, t)
    requires forall k :: k in t ==> 1 <= k <= MAX_ROWID
    ensures Lists(out, BetweenTids(t, Carried(lo), Carried(hi)))
    ensures LowerBoundExact(lo) && UpperBoundExact(hi) ==> Lists(out, BetweenTids(t, lo, hi))
  {
    var minRowid, maxRowid := TidToRowid(lo), TidToRowid(hi);
    var want := (n: nat, row: StoredRow) => minRowid <= row.rowid <= maxRowid && visible(n, row);
    ghost var u := BetweenRowids(t, minRowid, maxRowid);
    forall n: nat ensures Good(current(n), want, n, u) {
      assert Good(current(n), visible, n, t);
    }
    var c := new Cursor([]);
    var later: nat;
    out, later := c.Scan(current, want, 0, u);
    TidRangeSelects(t, lo, hi);
  }

  /** A sequential scan and the same scan again after a rescan: twice the same rows in the same order. */
  method ScanTwice(current: nat -> seq<StoredRow>, visible: Judge, ghost t: Table)
    returns (first: seq<Emitted>, second: seq<Emitted>)
    requires forall n: nat :: Good(current(n), visible, n, t)
    ensures Lists(first, t) && second == first
  {
    var c := new Cursor([]);
    var later: nat;
    first, later := c.Scan(current, visible, 0, t);
    c.Rescan();
    second, later := c.Scan(current, visible, later, t);
    ListsOnce(first, second, t);
  }
}
