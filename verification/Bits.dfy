/**
 Single bits of 64-bit words under the machine's own operations.

 The operations have names so that proofs about many words can treat them as they are described
 here, bit by bit.
 */
module Bits {

  predicate Has(w: bv64, b: bv64)
    requires b < 64
  {
    (w >> b) & 1 == 1
  }

  function Or(w: bv64, m: bv64): bv64 { w | m }
  function And(w: bv64, m: bv64): bv64 { w & m }
  function Not(w: bv64): bv64 { !w }
  function Less1(w: bv64): bv64 { w - 1 }

  const ALL_ONES: bv64 := 0xFFFF_FFFF_FFFF_FFFF

  /** Is any bit set from bit `b` on? */
  predicate Above(w: bv64, b: bv64)
    requires b < 64
  {
    w >> b != 0
  }

  function Shifted(b: bv64): bv64
    requires b < 64
  {
    1 << b
  }

  lemma OrBit(w: bv64, m: bv64, b: bv64)
    requires b < 64
    ensures Has(Or(w, m), b) == (Has(w, b) || Has(m, b))
  {
    assert ((w | m) >> b) & 1 == ((w >> b) & 1) | ((m >> b) & 1);
  }

  lemma AndBit(w: bv64, m: bv64, b: bv64)
    requires b < 64
    ensures Has(And(w, m), b) == (Has(w, b) && Has(m, b))
  {
  }

  lemma NotBit(w: bv64, b: bv64)
    requires b < 64
    ensures Has(Not(w), b) == !Has(w, b)
  {
  }

  lemma BelowBit(k: bv64, b: bv64)
    requires k < 64 && b < 64
    ensures Has(Less1(Shifted(k)), b) == (b < k)
  {
  }

  /** The test the program makes: `word & mask`. */
  predicate Tests(w: bv64, mask: bv64) { And(w, mask) != 0 }

  lemma ShiftOn(w: bv64, b: bv64)
    requires b < 64 && Above(w, b) && !Has(w, b)
    ensures b < 63 && Above(w, b + 1)
  {
  }

  lemma AboveZero(w: bv64)
    ensures Above(w, 0) == (w != 0)
  {
  }

  lemma NotAllOnes(w: bv64)
    ensures w == ALL_ONES <==> Not(w) == 0
  {
  }
}
