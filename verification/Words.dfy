/**
 64-bit words as sets of bit positions: what the masks of the bitmap say bit by bit.
 */
module Words {
  import opened Bits

  function WordOf(i: nat): (b: bv64)
    requires i < 64
    ensures b < 64 && b as nat == i
  {
    if i == 0 then 0 else WordOf(i - 1) + 1
  }

  /** A bit position as a word, for shifting. */
  function Position(i: nat): (b: bv64)
    requires i < 64
    ensures b < 64
  {
    WordOf(i)
  }

  lemma PositionOrder(i: nat, j: nat)
    requires i < 64 && j < 64
    ensures Position(i) < Position(j) <==> i < j
    ensures Position(i) == Position(j) <==> i == j
  {
  }

  lemma NextPosition(k: nat)
    requires k < 63
    ensures Position(k + 1) == Position(k) + 1
  {
  }

  lemma LastPosition()
    ensures Position(63) == 63
  {
  }

  /** Is bit `i` of the word set? */
  predicate Bit(w: bv64, i: nat)
    requires i < 64
  {
    Has(w, Position(i))
  }

  /** `1ULL << i`. */
  function One(i: nat): bv64
    requires i < 64
  {
    Shifted(Position(i))
  }

  lemma BitOr(w: bv64, m: bv64, i: nat)
    requires i < 64
    ensures Bit(Or(w, m), i) == (Bit(w, i) || Bit(m, i))
  {
    hide Position, Has, Or;
    OrBit(w, m, Position(i));
  }

  lemma BitAnd(w: bv64, m: bv64, i: nat)
    requires i < 64
    ensures Bit(And(w, m), i) == (Bit(w, i) && Bit(m, i))
  {
    hide Position, Has, And;
    AndBit(w, m, Position(i));
  }

  lemma BitNot(w: bv64, i: nat)
    requires i < 64
    ensures Bit(Not(w), i) == !Bit(w, i)
  {
    hide Position, Has, Not;
    NotBit(w, Position(i));
  }

  lemma BitOne(k: nat, i: nat)
    requires k < 64 && i < 64
    ensures Bit(One(k), i) == (i == k)
  {
  }

  lemma BitBelow(k: nat, i: nat)
    requires k < 64 && i < 64
    ensures Bit(Less1(One(k)), i) == (i < k)
  {
    hide Position, Has, Shifted, Less1;
    BelowBit(Position(k), Position(i));
    PositionOrder(i, k);
  }

  lemma BitConstants(i: nat)
    requires i < 64
    ensures !Bit(0, i) && Bit(ALL_ONES, i)
  {
  }

  lemma BitTest(w: bv64, i: nat)
    requires i < 64
    ensures Tests(w, One(i)) == Bit(w, i)
  {
  }

  lemma {:induction false} LowestBit(w: bv64, k: nat)
    requires k < 64 && Above(w, Position(k))
    ensures exists i: nat :: k <= i < 64 && Bit(w, i)
    decreases 64 - k
  {
    hide Position, Has, Above;
    if !Bit(w, k) {
      ShiftOn(w, Position(k));
      if k == 63 {
        LastPosition();
      } else {
        NextPosition(k);
        LowestBit(w, k + 1);
      }
    }
  }

  /** A word is zero exactly if no bit is set. */
  lemma ZeroHasNoBit(w: bv64)
    ensures w != 0 <==> exists i: nat :: i < 64 && Bit(w, i)
  {
    hide Has, Above;
    if w != 0 {
      assert Position(0) == 0;
      AboveZero(w);
      LowestBit(w, 0);
    } else {
      forall i: nat | i < 64 ensures !Bit(0, i) {
        BitConstants(i);
      }
    }
  }

  /** A word is all ones exactly if every bit is set. */
  lemma AllOnesHasEveryBit(w: bv64)
    ensures w == ALL_ONES <==> forall i: nat :: i < 64 ==> Bit(w, i)
  {
    hide Not;
    ComplementHasOtherBits(w, Not(w));
    NotAllOnes(w);
  }

  lemma ComplementHasOtherBits(w: bv64, v: bv64)
    requires v == Not(w)
    ensures v == 0 <==> forall i: nat :: i < 64 ==> Bit(w, i)
  {
    hide Bit, Not;
    ZeroHasNoBit(v);
    forall i: nat | i < 64 ensures Bit(v, i) != Bit(w, i) {
      BitNot(w, i);
    }
    if v == 0 {
      assert forall i: nat :: i < 64 ==> !Bit(v, i);
    } else {
      var i: nat :| i < 64 && Bit(v, i);
      assert !Bit(w, i);
    }
  }

  // ---------- the compiler's builtins ----------

  function PopBelow(w: bv64, k: nat): (n: nat)
    requires k <= 64
    ensures n <= k
  {
    if k == 0 then 0 else PopBelow(w, k - 1) + if Bit(w, k - 1) then 1 else 0
  }

  /** `__builtin_popcountll`: how many bits are set. */
  function Popcount(w: bv64): nat { PopBelow(w, 64) }

  function CtzFrom(w: bv64, k: nat): (i: nat)
    requires k <= 64
    ensures k <= i <= 64 && (i < 64 ==> Bit(w, i)) && forall j :: k <= j < i ==> !Bit(w, j)
    decreases 64 - k
  {
    if k == 64 || Bit(w, k) then k else CtzFrom(w, k + 1)
  }

  /** `__builtin_ctzll`: the lowest set bit of a word that is not zero. */
  function Ctz(w: bv64): (i: nat)
    requires w != 0
    ensures i < 64 && Bit(w, i) && forall j :: 0 <= j < i ==> !Bit(w, j)
  {
    ZeroHasNoBit(w);
    CtzFrom(w, 0)
  }
}
