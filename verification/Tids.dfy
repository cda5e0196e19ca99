/**
 Packing of a SQLite rowid into a Postgres tuple id `(block, offset)`, 256 rows to a block.
 */
module Tids {
  const TIDS_PER_BLOCK: int := 256
  /** Block numbers are 32-bit; the all-ones value is Postgres' invalid block. */
  const MAX_BLOCK: int := 0xFFFF_FFFE
  const MAX_ROWID: int := TIDS_PER_BLOCK * (MAX_BLOCK + 1)

  datatype Tid = Tid(block: int, offset: int) {
    /** What the fields of an `ItemPointerData` can hold: a 32-bit block, a 16-bit offset. */
    predicate Representable() {
      0 <= block <= 0xFFFF_FFFF && 0 <= offset <= 0xFFFF
    }

    /** The tuple ids that `RowidToTid` hands out. */
    predicate InRange() {
      0 <= block <= MAX_BLOCK && 1 <= offset <= TIDS_PER_BLOCK
    }
  }

  /** Postgres' order on tuple ids: block first, then offset. */
  predicate TidBefore(a: Tid, b: Tid) {
    a.block < b.block || (a.block == b.block && a.offset < b.offset)
  }

  function TidToRowid(t: Tid): (k: int) {
    t.block * TIDS_PER_BLOCK + t.offset
  }

  /** Division truncates in the source; for rowids from 1 up that is the Euclidean quotient. */
  function RowidToTid(k: int): (t: Tid)
    requires 1 <= k <= MAX_ROWID
  {
    Tid((k - 1) / TIDS_PER_BLOCK, (k - 1) % TIDS_PER_BLOCK + 1)
  }

  /** One to one, onto the in-range tuple ids, both ways round. */
  lemma PackingIsABijection(k: int, t: Tid)
    ensures 1 <= k <= MAX_ROWID ==> RowidToTid(k).InRange() && TidToRowid(RowidToTid(k)) == k
    ensures t.InRange() ==> 1 <= TidToRowid(t) <= MAX_ROWID && RowidToTid(TidToRowid(t)) == t
  {
    if t.InRange() {
      assert TidToRowid(t) - 1 == t.block * TIDS_PER_BLOCK + (t.offset - 1);
    }
  }

  /** Rowid order is tuple-id order. */
  lemma PackingPreservesOrder(a: Tid, b: Tid)
    requires a.InRange() && b.InRange()
    ensures TidToRowid(a) < TidToRowid(b) <==> TidBefore(a, b)
  {
  }

  /** Row 1 is the first of block 0, row 257 the first of block 1, and where the numbering ends. */
  lemma FirstTids()
    ensures RowidToTid(1) == Tid(0, 1) && RowidToTid(256) == Tid(0, 256) && RowidToTid(257) == Tid(1, 1)
    ensures MAX_ROWID == 256 * 0xFFFF_FFFF && RowidToTid(MAX_ROWID) == Tid(0xFFFF_FFFE, 256)
    ensures TidToRowid(Tid(0, 65535)) == 65535 && TidToRowid(Tid(1, 0)) == 256
  {
  }

  /** Where an arbitrary bound really points: offsets outside 1..256 carry over into other blocks. */
  function Carried(t: Tid): (c: Tid)
    ensures 1 <= c.offset <= TIDS_PER_BLOCK
  {
    Tid(t.block + (t.offset - 1) / TIDS_PER_BLOCK, (t.offset - 1) % TIDS_PER_BLOCK + 1)
  }

  /** Every bound decodes to the rowid of the tuple id that it carries over into, and to no other. */
  lemma BoundIsCarried(t: Tid)
    ensures TidToRowid(Carried(t)) == TidToRowid(t)
    ensures 1 <= TidToRowid(t) <= MAX_ROWID ==> RowidToTid(TidToRowid(t)) == Carried(t)
    ensures Carried(t) == t <==> 1 <= t.offset <= TIDS_PER_BLOCK
    ensures Carried(t).block == t.block <==> 1 <= t.offset <= TIDS_PER_BLOCK
    ensures t.offset == 0 ==> Carried(t) == Tid(t.block - 1, TIDS_PER_BLOCK)
  {
    assert TidToRowid(t) - 1 == Carried(t).block * TIDS_PER_BLOCK + (Carried(t).offset - 1);
  }

  /** A row lies between two bounds by rowid exactly when its tuple id lies between those carried over. */
  lemma CarriedOrder(t: Tid, k: int)
    requires 1 <= k <= MAX_ROWID
    ensures TidToRowid(t) <= k <==> !TidBefore(RowidToTid(k), Carried(t))
    ensures k <= TidToRowid(t) <==> !TidBefore(Carried(t), RowidToTid(k))
  {
    BoundIsCarried(t);
    PackingIsABijection(k, t);
  }

  /** Comparing rowids with the decoded bound selects what comparing tuple ids with the bound would. */
  ghost predicate LowerBoundExact(lo: Tid) {
    forall k :: 1 <= k <= MAX_ROWID ==> (TidToRowid(lo) <= k <==> !TidBefore(RowidToTid(k), lo))
  }

  ghost predicate UpperBoundExact(hi: Tid) {
    forall k :: 1 <= k <= MAX_ROWID ==> (k <= TidToRowid(hi) <==> !TidBefore(hi, RowidToTid(k)))
  }

  /**
   Exactly which lower bounds work: offsets 1 to 257 in any block, the least tuple id, and bounds past
   the last tuple id. Offset 0 lets in the last row of the block before, larger offsets skip rows.
   */
  lemma LowerBoundExactIff(lo: Tid)
    requires lo.Representable()
    ensures LowerBoundExact(lo) <==>
      1 <= lo.offset <= TIDS_PER_BLOCK + 1 || lo == Tid(0, 0) || (lo.offset > TIDS_PER_BLOCK + 1 && lo.block >= MAX_BLOCK)
  {
    var k := if lo.offset == 0 then lo.block * TIDS_PER_BLOCK else (lo.block + 1) * TIDS_PER_BLOCK + 1;
    assert 1 <= k <= MAX_ROWID && (lo.offset == 0 || lo.offset > TIDS_PER_BLOCK + 1) ==>
      !(TidToRowid(lo) <= k <==> !TidBefore(RowidToTid(k), lo));
  }

  /** Exactly which upper bounds work: offsets up to 256 in any block, and any in the last one or past it. */
  lemma UpperBoundExactIff(hi: Tid)
    requires hi.Representable()
    ensures UpperBoundExact(hi) <==> hi.offset <= TIDS_PER_BLOCK || hi.block >= MAX_BLOCK
  {
    var k := (hi.block + 1) * TIDS_PER_BLOCK + 1;
    assert 1 <= k <= MAX_ROWID && hi.offset > TIDS_PER_BLOCK ==>
      !(k <= TidToRowid(hi) <==> !TidBefore(hi, RowidToTid(k)));
  }
}
