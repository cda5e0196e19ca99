/**
 Transaction ids as the storage layer sees them: 32-bit unsigned values that are bound to
 SQLite through a signed 32-bit parameter, read back through a signed column, and compared
 in three different orders (signed in SQL, unsigned for the vacuum watermark, modular in
 Postgres).
 */
module Xids {
  const TWO31: int := 0x8000_0000
  const TWO32: int := 0x1_0000_0000

  /** The first xid Postgres hands to an ordinary transaction. */
  const FIRST_NORMAL: int := 3

  type Xid = x: int | 0 <= x < TWO32
  type Int32 = i: int | -TWO31 <= i < TWO31

  /** Reduction modulo 2^32 into the signed range: a C cast to `int`. */
  function ToInt32(v: int): (i: Int32) {
    var m := v % TWO32;
    if m < TWO31 then m else m - TWO32
  }

  /** Reduction modulo 2^32 into the unsigned range: a C cast to `uint32`. */
  function ToXid(v: int): (x: Xid) {
    v % TWO32
  }

  /** `bind_u32`: the integer that SQLite stores for an xid. */
  function Bind(x: Xid): (i: Int32) {
    ToInt32(x)
  }

  /** `col_u32`: the xid that is read back from a stored integer. */
  function Column(i: Int32): (x: Xid) {
    ToXid(i)
  }

  /** Postgres' `TransactionIdPrecedes`: plain order if either id is special, modular otherwise. */
  predicate Precedes(a: Xid, b: Xid) {
    if a < FIRST_NORMAL || b < FIRST_NORMAL then a < b else ToInt32(a - b) < 0
  }

  /** Postgres' `TransactionIdFollows`. */
  predicate Follows(a: Xid, b: Xid) {
    if a < FIRST_NORMAL || b < FIRST_NORMAL then a > b else ToInt32(a - b) > 0
  }

  /** The SQL comparison `xmax < ?1`, made on the stored signed integers. */
  predicate SqlBelow(a: Xid, b: Xid) {
    Bind(a) < Bind(b)
  }

  /** Every xid survives being bound and read back, and binding never identifies two xids. */
  lemma BindRoundTrip(x: Xid, y: Xid)
    ensures Column(Bind(x)) == x
    ensures Bind(x) == Bind(y) <==> x == y
    ensures Bind(x) == 0 <==> x == 0
  {
  }

  /** The upper half of the xids is stored as negative integers. */
  lemma UpperHalfIsNegative(x: Xid)
    ensures Bind(x) == if x < 0x8000_0000 then x as int else x as int - 0x1_0000_0000
  {
  }

  /** The special xids, the invalid one among them, come before every normal one. */
  lemma SpecialXidsComeFirst(a: Xid, b: Xid)
    requires a < 3 <= b
    ensures Precedes(a, b) && Follows(b, a) && !Precedes(b, a) && !Follows(a, b)
  {
  }

  /** SQL order is modular order exactly when the signed difference fits in 32 bits. */
  lemma SqlOrderIsModularIff(a: Xid, b: Xid)
    requires FIRST_NORMAL <= a && FIRST_NORMAL <= b
    ensures (SqlBelow(a, b) <==> Precedes(a, b)) <==> -TWO31 <= Bind(a) - Bind(b) < TWO31
  {
    var d := Bind(a) - Bind(b);
    assert (a - b) % TWO32 == d % TWO32;
  }

  /** Below 2^31 the signed, unsigned and modular orders are one order. */
  lemma OrdersCoincide(a: Xid, b: Xid)
    requires a < TWO31 && b < TWO31
    ensures SqlBelow(a, b) <==> a < b
    ensures Precedes(a, b) <==> a < b
    ensures Follows(a, b) <==> b < a
  {
  }

  /**
   Every xid of `s` lies in one half-range window ending at `top`: less than 2^31 steps behind it.
   This is the condition under which modular order is a linear order.
   */
  ghost predicate InWindow(s: set<Xid>, top: Xid) {
    forall x :: x in s ==> FIRST_NORMAL <= x && 0 <= (top - x) % TWO32 < TWO31
  }

  /** How far behind `top` an xid lies, counting backwards modulo 2^32. */
  function Age(x: Xid, top: Xid): (n: nat) {
    (top - x) % TWO32
  }

  /** Inside a window, modular order is the order of ages. */
  lemma WindowOrder(a: Xid, b: Xid, top: Xid)
    requires FIRST_NORMAL <= a && FIRST_NORMAL <= b
    requires Age(a, top) < TWO31 && Age(b, top) < TWO31
    ensures Precedes(a, b) <==> Age(a, top) > Age(b, top)
    ensures Follows(a, b) <==> Age(a, top) < Age(b, top)
  {
    assert (a - b) % TWO32 == (Age(b, top) - Age(a, top)) % TWO32;
  }
}
