/**
 Sequences of 64-bit words as sets of indices, and what the masks of the bitmap allocator do to them
 (src/utils/bitmap.h, bitmap.cc).
 */
module BitSets {
  import opened Bits
  import opened Words

  const UNIT := 64
  const UINT32_LIMIT := 0x1_0000_0000

  // ---------- a sequence of words as bits ----------

  predicate BitAt(ws: seq<bv64>, i: nat)
    requires i < UNIT * |ws|
  {
    Bit(ws[i / UNIT], i % UNIT)
  }

  /** How many bits from `lo` up to `hi` are set. */
  function Count(ws: seq<bv64>, lo: nat, hi: nat): (n: nat)
    requires lo <= hi <= UNIT * |ws|
    ensures n <= hi - lo
  {
    if lo == hi then 0 else Count(ws, lo, hi - 1) + if BitAt(ws, hi - 1) then 1 else 0
  }

  /** The indices below `n` that are set. */
  function Members(ws: seq<bv64>, n: nat): set<nat>
    requires n <= UNIT * |ws|
  {
    set i: nat | i < n && BitAt(ws, i)
  }

  lemma {:induction false} CountIsCardinality(ws: seq<bv64>, n: nat)
    requires n <= UNIT * |ws|
    ensures |Members(ws, n)| == Count(ws, 0, n)
  {
    hide Bit;
    if n > 0 {
      CountIsCardinality(ws, n - 1);
      if BitAt(ws, n - 1) {
        assert Members(ws, n) == Members(ws, n - 1) + {n - 1};
      } else {
        assert Members(ws, n) == Members(ws, n - 1);
      }
    }
  }

  lemma {:induction false} CountSplit(ws: seq<bv64>, lo: nat, mid: nat, hi: nat)
    requires lo <= mid <= hi <= UNIT * |ws|
    ensures Count(ws, lo, hi) == Count(ws, lo, mid) + Count(ws, mid, hi)
  {
    hide BitAt;
    if mid < hi {
      CountSplit(ws, lo, mid, hi - 1);
    }
  }

  /** `ws'` is `ws` with every bit from `lo` up to `hi` made `v`. */
  ghost predicate Edited(ws: seq<bv64>, ws': seq<bv64>, lo: nat, hi: nat, v: bool) {
    && |ws'| == |ws|
    && forall i: nat :: i < UNIT * |ws| ==> (BitAt(ws', i) <==> if lo <= i < hi then v else BitAt(ws, i))
  }

  lemma {:induction false} CountUnedited(ws: seq<bv64>, ws': seq<bv64>, lo: nat, hi: nat, v: bool, low: nat, upto: nat)
    requires Edited(ws, ws', lo, hi, v) && low <= upto <= UNIT * |ws| && (upto <= lo || hi <= low)
    ensures Count(ws', low, upto) == Count(ws, low, upto)
    decreases upto
  {
    hide BitAt;
    if low < upto {
      CountUnedited(ws, ws', lo, hi, v, low, upto - 1);
    }
  }

  lemma {:induction false} CountEdited(ws: seq<bv64>, ws': seq<bv64>, lo: nat, hi: nat, v: bool, upto: nat)
    requires Edited(ws, ws', lo, hi, v) && lo <= upto <= hi <= UNIT * |ws|
    ensures Count(ws', lo, upto) == if v then upto - lo else 0
    decreases upto
  {
    hide BitAt;
    if lo < upto {
      CountEdited(ws, ws', lo, hi, v, upto - 1);
    }
  }

  /** All indices are counted exactly if all are in the set. */
  lemma FullIsEverything(ws: seq<bv64>, n: nat)
    requires n <= UNIT * |ws|
    ensures Count(ws, 0, n) == n <==> Members(ws, n) == Range(0, n)
  {
  }

  /** What editing a range does to the number of indices in use. */
  lemma EditedCount(ws: seq<bv64>, ws': seq<bv64>, lo: nat, hi: nat, v: bool, n: nat)
    requires Edited(ws, ws', lo, hi, v) && lo <= hi <= n <= UNIT * |ws|
    ensures Count(ws', 0, n) == Count(ws, 0, n) - Count(ws, lo, hi) + if v then hi - lo else 0
  {
    CountSplit(ws, 0, lo, n);
    CountSplit(ws, lo, hi, n);
    CountSplit(ws', 0, lo, n);
    CountSplit(ws', lo, hi, n);
    CountUnedited(ws, ws', lo, hi, v, 0, lo);
    CountUnedited(ws, ws', lo, hi, v, hi, n);
    CountEdited(ws, ws', lo, hi, v, hi);
  }

  /** The indices from `lo` up to `hi`. */
  function Range(lo: nat, hi: nat): (r: set<nat>)
    ensures forall i :: i in r <==> lo <= i < hi
    decreases hi
  {
    if hi <= lo then {} else Range(lo, hi - 1) + {hi - 1}
  }

  lemma EditedMembers(ws: seq<bv64>, ws': seq<bv64>, lo: nat, hi: nat, v: bool, n: nat)
    requires Edited(ws, ws', lo, hi, v) && lo <= hi <= n <= UNIT * |ws|
    ensures Members(ws', n) == if v then Members(ws, n) + Range(lo, hi) else Members(ws, n) - Range(lo, hi)
  {
  }

  // ---------- masks ----------

  /** The bits of its word from position `begin` on. */
  function FirstMask(begin: nat): bv64 { Not(Less1(One(begin % UNIT))) }

  /** The bits of its word before position `end`; the whole word if the range ends with it. */
  function LastMask(end: nat): bv64 {
    var mask := Less1(One(end % UNIT));
    if mask == 0 then ALL_ONES else mask
  }

  lemma FirstMaskBit(begin: nat, i: nat)
    requires i < UNIT
    ensures Bit(FirstMask(begin), i) == (i >= begin % UNIT)
  {
    hide Bit, One, Less1, Not;
    BitNot(Less1(One(begin % UNIT)), i);
    BitBelow(begin % UNIT, i);
  }

  lemma LastMaskBit(end: nat, i: nat)
    requires i < UNIT
    ensures Bit(LastMask(end), i) == (end % UNIT == 0 || i < end % UNIT)
  {
    hide Bit, One, Less1, Not;
    var k := end % UNIT;
    var mask := Less1(One(k));
    BitBelow(k, i);
    BitConstants(i);
    if k > 0 {
      BitBelow(k, 0);
      BitConstants(0);
    } else {
      BelowNothing(mask);
    }
  }

  lemma BelowNothing(mask: bv64)
    requires mask == Less1(One(0))
    ensures mask == 0
  {
  }

  /** `mask` selects, in word `j`, the bits from `lo` up to `hi`. */
  ghost predicate Selects(mask: bv64, j: nat, lo: nat, hi: nat) {
    && UNIT * j <= lo <= hi <= UNIT * (j + 1)
    && forall i: nat :: i < UNIT ==> (Bit(mask, i) <==> lo <= UNIT * j + i < hi)
  }

  lemma FirstSelects(begin: nat)
    ensures Selects(FirstMask(begin), begin / UNIT, begin, UNIT * (begin / UNIT + 1))
  {
    hide Bit, FirstMask;
    forall i: nat | i < UNIT
      ensures Bit(FirstMask(begin), i) <==> begin <= UNIT * (begin / UNIT) + i < UNIT * (begin / UNIT + 1)
    {
      FirstMaskBit(begin, i);
    }
  }

  lemma LastSelects(end: nat)
    requires end > 0
    ensures var j := (end - 1) / UNIT; Selects(LastMask(end), j, UNIT * j, end)
  {
    hide Bit, LastMask;
    var j := (end - 1) / UNIT;
    forall i: nat | i < UNIT ensures Bit(LastMask(end), i) <==> UNIT * j <= UNIT * j + i < end {
      LastMaskBit(end, i);
    }
  }

  lemma BothSelects(m: bv64, k: bv64, j: nat, lo: nat, hi: nat)
    requires Selects(m, j, lo, UNIT * (j + 1)) && Selects(k, j, UNIT * j, hi) && lo <= hi
    ensures Selects(And(m, k), j, lo, hi)
  {
    hide Bit, And;
    var both := And(m, k);
    forall i: nat | i < UNIT ensures Bit(both, i) <==> lo <= UNIT * j + i < hi {
      BitAnd(m, k, i);
    }
  }

  lemma AllSelects(j: nat)
    ensures Selects(ALL_ONES, j, UNIT * j, UNIT * (j + 1))
  {
  }

  // ---------- one word ----------

  lemma {:induction false} PopSelected(ws: seq<bv64>, j: nat, mask: bv64, lo: nat, hi: nat, k: nat)
    requires j < |ws| && Selects(mask, j, lo, hi) && k <= UNIT
    ensures var at := UNIT * j + k;
      PopBelow(And(ws[j], mask), k) == Count(ws, lo, if at < lo then lo else if at < hi then at else hi)
  {
    hide Bit, And;
    if k > 0 {
      PopSelected(ws, j, mask, lo, hi, k - 1);
      BitAnd(ws[j], mask, k - 1);
      var i := UNIT * j + k - 1;
      assert i / UNIT == j && i % UNIT == k - 1;
    }
  }

  /** Counting the masked bits of one word counts that part of the range. */
  lemma PopcountSelected(ws: seq<bv64>, j: nat, mask: bv64, lo: nat, hi: nat)
    requires j < |ws| && Selects(mask, j, lo, hi)
    ensures Popcount(And(ws[j], mask)) == Count(ws, lo, hi)
  {
    PopSelected(ws, j, mask, lo, hi, UNIT);
  }

  /** Writing one word extends an edited range that reaches `lo` to `hi`. */
  lemma EditWord(ws: seq<bv64>, cur: seq<bv64>, begin: nat, j: nat, mask: bv64, lo: nat, hi: nat, v: bool)
    requires Edited(ws, cur, begin, lo, v) && begin <= lo && j < |ws| && Selects(mask, j, lo, hi)
    ensures var word := if v then Or(cur[j], mask) else And(cur[j], Not(mask));
      Edited(ws, cur[j := word], begin, hi, v)
    ensures Popcount(And(cur[j], mask)) == Count(ws, lo, hi)
  {
    hide Bit, Popcount, And, Or, Not;
    var word := if v then Or(cur[j], mask) else And(cur[j], Not(mask));
    var next := cur[j := word];
    forall i: nat | i < UNIT * |ws| ensures BitAt(next, i) <==> if begin <= i < hi then v else BitAt(ws, i) {
      if i / UNIT == j {
        var b := i % UNIT;
        BitOr(cur[j], mask, b);
        BitAnd(cur[j], Not(mask), b);
        BitNot(mask, b);
        assert BitAt(cur, i) <==> Bit(cur[j], b);
        assert Bit(mask, b) <==> lo <= UNIT * j + b < hi;
      } else {
        assert BitAt(next, i) == BitAt(cur, i);
      }
    }
    PopcountSelected(cur, j, mask, lo, hi);
    CountUnedited(ws, cur, begin, lo, v, lo, hi);
  }

  /** Whole words the program overwrites or counts without a mask. */
  lemma WholeWord(w: bv64)
    ensures And(w, ALL_ONES) == w && Or(w, ALL_ONES) == ALL_ONES && And(w, Not(ALL_ONES)) == 0
  {
  }

  lemma PopcountZero()
    ensures Popcount(0) == 0
  {
    PopBelowZero(UNIT);
  }

  lemma {:induction false} PopBelowZero(k: nat)
    requires k <= UNIT
    ensures PopBelow(0, k) == 0
  {
    hide Bit;
    if k > 0 {
      PopBelowZero(k - 1);
      BitConstants(k - 1);
    }
  }

  // ---------- parts of a range ----------

  lemma NothingSet(ws: seq<bv64>)
    requires forall j :: 0 <= j < |ws| ==> ws[j] == 0
    ensures forall i: nat :: i < UNIT * |ws| ==> !BitAt(ws, i)
  {
    hide Bit;
    forall i: nat | i < UNIT * |ws| ensures !BitAt(ws, i) {
      BitConstants(i % UNIT);
    }
  }

  lemma NothingEdited(ws: seq<bv64>, at: nat, v: bool)
    ensures Edited(ws, ws, at, at, v)
  {
  }

  lemma PartOfCount(ws: seq<bv64>, lo: nat, mid: nat, hi: nat, n: nat)
    requires lo <= mid <= hi <= n <= UNIT * |ws|
    ensures Count(ws, lo, mid) <= Count(ws, 0, n)
  {
    CountSplit(ws, 0, lo, n);
    CountSplit(ws, lo, mid, n);
  }

  /** The lowest zero bit of the first word that is not full is the first free bit of all. */
  lemma CtzIsFirstFree(ws: seq<bv64>, i: nat)
    requires i < |ws| && Not(ws[i]) != 0
    requires forall j: nat :: j < UNIT * i ==> BitAt(ws, j)
    ensures var k := Ctz(Not(ws[i]));
      !BitAt(ws, UNIT * i + k) && forall j: nat :: j < UNIT * i + k ==> BitAt(ws, j)
  {
    hide Bit, Not;
    var k := Ctz(Not(ws[i]));
    BitNot(ws[i], k);
    forall j: nat | j < UNIT * i + k ensures BitAt(ws, j) {
      if j >= UNIT * i {
        assert j / UNIT == i && j % UNIT == j - UNIT * i;
        BitNot(ws[i], j - UNIT * i);
      }
    }
  }

  lemma WordIsFull(ws: seq<bv64>, i: nat)
    requires i < |ws| && forall b: nat :: b < UNIT ==> Bit(ws[i], b)
    requires forall j: nat :: j < UNIT * i ==> BitAt(ws, j)
    ensures forall j: nat :: j < UNIT * (i + 1) ==> BitAt(ws, j)
  {
  }

  lemma AllBelowIsEverything(ws: seq<bv64>, n: nat)
    requires n <= UNIT * |ws| && forall j: nat :: j < n ==> BitAt(ws, j)
    ensures Members(ws, n) == Range(0, n)
  {
  }

  lemma {:induction false} UniformCount(ws: seq<bv64>, v: bool, n: nat)
    requires n <= UNIT * |ws| && forall i :: 0 <= i < |ws| ==> ws[i] == if v then ALL_ONES else 0
    ensures Count(ws, 0, n) == (if v then n else 0)
    ensures Members(ws, n) == if v then Range(0, n) else {}
  {
    hide Bit;
    forall i: nat | i < n ensures BitAt(ws, i) == v {
      BitConstants(i % UNIT);
    }
    if n > 0 {
      UniformCount(ws, v, n - 1);
    }
  }

  lemma CountOne(ws: seq<bv64>, i: nat)
    requires i < UNIT * |ws|
    ensures Count(ws, i, i + 1) == if BitAt(ws, i) then 1 else 0
  {
  }

  lemma OneSelects(i: nat)
    ensures Selects(One(i % UNIT), i / UNIT, i, i + 1)
  {
    hide Bit, One;
    forall b: nat | b < UNIT ensures Bit(One(i % UNIT), b) <==> i <= UNIT * (i / UNIT) + b < i + 1 {
      BitOne(i % UNIT, b);
    }
  }

  /** Setting or clearing the bit of one index, which did not have that value. */
  lemma MarkOne(ws: seq<bv64>, i: nat, v: bool, n: nat)
    requires i < n <= UNIT * |ws| && BitAt(ws, i) != v
    ensures var mask, j := One(i % UNIT), i / UNIT;
      var ws' := ws[j := if v then Or(ws[j], mask) else And(ws[j], Not(mask))];
      && Count(ws', 0, n) == Count(ws, 0, n) + (if v then 1 else -1)
      && Members(ws', n) == if v then Members(ws, n) + {i} else Members(ws, n) - {i}
  {
    hide Bit, One, Or, And, Not, Count, Edited, Members;
    var mask, j := One(i % UNIT), i / UNIT;
    var ws' := ws[j := if v then Or(ws[j], mask) else And(ws[j], Not(mask))];
    OneSelects(i);
    NothingEdited(ws, i, v);
    EditWord(ws, ws, i, j, mask, i, i + 1, v);
    CountOne(ws, i);
    EditedCount(ws, ws', i, i + 1, v, n);
    EditedMembers(ws, ws', i, i + 1, v, n);
    assert Range(i, i + 1) == {i};
  }

  // ---------- ranges whose end wraps ----------

  /** 32-bit unsigned arithmetic. */
  function Wrap(x: int): (r: nat)
    ensures r < UINT32_LIMIT
  {
    x % UINT32_LIMIT
  }

  /** The sum of beginning and length does not wrap, or the range is refused for where it begins. */
  predicate Fits(begin: nat, count: nat, n: nat) { begin + count < UINT32_LIMIT || begin >= n }

  function Rewritten(w: bv64, mask: bv64, v: bool): bv64 { if v then Or(w, mask) else And(w, Not(mask)) }

  /** Do the first and the last index of the range lie in one word? */
  predicate OneWord(begin: nat, end: nat)
    requires end > 0
  {
    begin / UNIT == (end - 1) / UNIT
  }

  /** An index that is written although the range, whose end has wrapped to before its beginning, does
      not have it: behind `begin` in its word, or before `end` in the other word. */
  predicate Astray(begin: nat, end: nat, i: nat)
    requires end > 0
  {
    && !OneWord(begin, end)
    && (begin <= i < UNIT * (begin / UNIT + 1) || UNIT * ((end - 1) / UNIT) <= i < end)
  }

  ghost predicate Strayed(ws: seq<bv64>, ws': seq<bv64>, begin: nat, end: nat, v: bool)
    requires end > 0
  {
    && |ws'| == |ws|
    && forall i: nat :: i < UNIT * |ws| ==> (BitAt(ws', i) <==> if Astray(begin, end, i) then v else BitAt(ws, i))
  }

  ghost predicate NothingAstray(ws: seq<bv64>, begin: nat, end: nat)
    requires end > 0
  {
    forall i: nat :: i < UNIT * |ws| && Astray(begin, end, i) ==> !BitAt(ws, i)
  }

  function CountAstray(ws: seq<bv64>, begin: nat, end: nat): nat
    requires 0 < end < begin < UNIT * |ws|
  {
    if OneWord(begin, end) then 0
    else Count(ws, begin, UNIT * (begin / UNIT + 1)) + Count(ws, UNIT * ((end - 1) / UNIT), end)
  }

  /** In one word the two masks have no bit in common. */
  lemma EmptyMask(begin: nat, end: nat)
    requires 0 < end < begin && OneWord(begin, end)
    ensures And(FirstMask(begin), LastMask(end)) == 0
  {
    hide Bit, And, FirstMask, LastMask;
    var both := And(FirstMask(begin), LastMask(end));
    ZeroHasNoBit(both);
    forall i: nat | i < UNIT ensures !Bit(both, i) {
      BitAnd(FirstMask(begin), LastMask(end), i);
      FirstMaskBit(begin, i);
      LastMaskBit(end, i);
    }
  }

  lemma WholeRewritten(w: bv64, v: bool)
    ensures Rewritten(w, ALL_ONES, v) == (if v then ALL_ONES else 0) && And(w, ALL_ONES) == w
  {
    hide And, Or, Not, ALL_ONES;
    WholeWord(w);
  }

  lemma NothingWritten(w: bv64, v: bool)
    ensures Rewritten(w, 0, v) == w && And(w, 0) == 0
  {
  }

  /** What the program writes when the end has wrapped: a part of one word and a part of an earlier one. */
  lemma StrayWords(ws: seq<bv64>, begin: nat, end: nat, v: bool)
    requires 0 < end < begin < UNIT * |ws| && !OneWord(begin, end)
    ensures var j, k := begin / UNIT, (end - 1) / UNIT;
      var ws1 := ws[j := Rewritten(ws[j], FirstMask(begin), v)];
      var ws2 := ws1[k := Rewritten(ws1[k], LastMask(end), v)];
      && Strayed(ws, ws2, begin, end, v)
      && Popcount(And(ws[j], FirstMask(begin))) + Popcount(And(ws1[k], LastMask(end))) == CountAstray(ws, begin, end)
  {
    hide Bit, And, Or, Not, Popcount, FirstMask, LastMask, Count, BitAt, Selects;
    var j, k := begin / UNIT, (end - 1) / UNIT;
    var ws1 := ws[j := Rewritten(ws[j], FirstMask(begin), v)];
    var ws2 := ws1[k := Rewritten(ws1[k], LastMask(end), v)];
    FirstSelects(begin);
    LastSelects(end);
    NothingEdited(ws, begin, v);
    EditWord(ws, ws, begin, j, FirstMask(begin), begin, UNIT * (j + 1), v);
    NothingEdited(ws1, UNIT * k, v);
    EditWord(ws1, ws1, UNIT * k, k, LastMask(end), UNIT * k, end, v);
    CountUnedited(ws, ws1, begin, UNIT * (j + 1), v, UNIT * k, end);
  }

  /** If both parts lie in one word, nothing is written. */
  lemma StraysNowhere(ws: seq<bv64>, begin: nat, end: nat, v: bool)
    requires 0 < end < begin < UNIT * |ws| && OneWord(begin, end)
    ensures var j := begin / UNIT;
      var mask := And(FirstMask(begin), LastMask(end));
      && ws[j := Rewritten(ws[j], mask, v)] == ws && Popcount(And(ws[j], mask)) == 0
      && Strayed(ws, ws, begin, end, v) && CountAstray(ws, begin, end) == 0
  {
    hide Popcount, FirstMask, LastMask, Rewritten, BitAt;
    EmptyMask(begin, end);
    NothingWritten(ws[begin / UNIT], v);
    PopcountZero();
  }

  lemma {:induction false} NoneCounted(ws: seq<bv64>, lo: nat, hi: nat)
    requires lo <= hi <= UNIT * |ws|
    ensures Count(ws, lo, hi) == 0 <==> forall i: nat :: lo <= i < hi ==> !BitAt(ws, i)
    decreases hi
  {
    hide BitAt;
    if lo < hi {
      NoneCounted(ws, lo, hi - 1);
    }
  }

  lemma NoneAstray(ws: seq<bv64>, begin: nat, end: nat)
    requires 0 < end < begin < UNIT * |ws|
    ensures CountAstray(ws, begin, end) == 0 <==> NothingAstray(ws, begin, end)
  {
    hide BitAt;
    if !OneWord(begin, end) {
      NoneCounted(ws, begin, UNIT * (begin / UNIT + 1));
      NoneCounted(ws, UNIT * ((end - 1) / UNIT), end);
    }
  }

  /** A range whose end has wrapped should be refused, and so leave the set and its count as they are.
      Setting never does; clearing does exactly if nothing that it strays to was set. */
  lemma StrayExactly(ws: seq<bv64>, ws': seq<bv64>, n: nat, begin: nat, count: nat, end: nat, used: nat, v: bool)
    requires n + (UNIT - 1) < UINT32_LIMIT && |ws| == (n + (UNIT - 1)) / UNIT && begin < n
    requires 0 < end < begin && begin + count == UINT32_LIMIT + end && count < UINT32_LIMIT
    requires Strayed(ws, ws', begin, end, v)
    requires used == Wrap(Count(ws, 0, n) - CountAstray(ws, begin, end) + if v then count else 0)
    ensures used == Count(ws', 0, n) && Members(ws', n) == Members(ws, n) <==> !v && NothingAstray(ws, begin, end)
  {
    hide BitAt, Bit, Members;
    NoneAstray(ws, begin, end);
    CountIsCardinality(ws, n);
    CountIsCardinality(ws', n);
    var c, astray := Count(ws, 0, n), CountAstray(ws, begin, end);
    assert astray < count && astray <= 2 * UNIT;
    if used == Count(ws', 0, n) && Members(ws', n) == Members(ws, n) {
      assert used == c;
      WrapsToItself(c, -astray + if v then count else 0);
    }
    if !v && NothingAstray(ws, begin, end) {
      forall i: nat | i < UNIT * |ws| ensures BitAt(ws', i) == BitAt(ws, i) {
        assert Astray(begin, end, i) ==> !BitAt(ws, i);
      }
      SameBits(ws, ws', n);
    }
  }

  lemma WrapsToItself(c: nat, d: int)
    requires c < UINT32_LIMIT && Wrap(c + d) == c && -UINT32_LIMIT < d < UINT32_LIMIT
    ensures d == 0
  {
  }

  lemma SameBits(ws: seq<bv64>, ws': seq<bv64>, n: nat)
    requires n <= UNIT * |ws| && |ws'| == |ws| && forall i: nat :: i < UNIT * |ws| ==> BitAt(ws', i) == BitAt(ws, i)
    ensures Count(ws', 0, n) == Count(ws, 0, n) && Members(ws', n) == Members(ws, n)
  {
    hide BitAt;
    CountUnedited(ws, ws', 0, 0, true, 0, n);
  }

  /** Where a range ends, and that wrapping takes the end before the beginning. */
  lemma EndOf(begin: nat, count: nat, n: nat)
    requires begin < UINT32_LIMIT && count < UINT32_LIMIT
    ensures var end := Wrap(begin + count);
      if begin + count < UINT32_LIMIT then end == begin + count else end < begin && begin + count == UINT32_LIMIT + end
  {
  }

  lemma CountedBack(used: nat, astray: nat, count: nat, v: bool)
    ensures (if v then Wrap(Wrap(used - astray) + count) else Wrap(used - astray))
         == Wrap(used - astray + if v then count else 0)
  {
  }

  /** Both writes of a range whose end has wrapped. */
  lemma Strays(ws: seq<bv64>, begin: nat, end: nat, used: nat, v: bool)
    requires 0 < end < begin < UNIT * |ws|
    ensures var j, k := begin / UNIT, (end - 1) / UNIT;
      var mask := if OneWord(begin, end) then And(FirstMask(begin), LastMask(end)) else FirstMask(begin);
      var ws1 := ws[j := Rewritten(ws[j], mask, v)];
      var used1 := Wrap(used - Popcount(And(ws[j], mask)));
      if OneWord(begin, end) then
        Strayed(ws, ws1, begin, end, v) && used1 == Wrap(used - CountAstray(ws, begin, end))
      else
        && Strayed(ws, ws1[k := Rewritten(ws1[k], LastMask(end), v)], begin, end, v)
        && Wrap(used1 - Popcount(And(ws1[k], LastMask(end)))) == Wrap(used - CountAstray(ws, begin, end))
  {
    hide And, FirstMask, LastMask, Rewritten, Popcount, Strayed, CountAstray;
    if OneWord(begin, end) {
      StraysNowhere(ws, begin, end, v);
    } else {
      StrayWords(ws, begin, end, v);
    }
  }

  // ---------- writing a range part by part ----------

  /** The range is written up to `upto`, and what was in use there is counted out of `used`. */
  ghost predicate PartDone(ws: seq<bv64>, cur: seq<bv64>, begin: nat, upto: nat, end: nat, used: nat, now: nat, v: bool) {
    && begin <= upto <= end <= UNIT * |ws| && Edited(ws, cur, begin, upto, v)
    && now == used - Count(ws, begin, upto)
  }

  /** Writing what `mask` selects of word `j` writes the range from `upto` to `next`. */
  lemma MorePart(ws: seq<bv64>, cur: seq<bv64>, begin: nat, upto: nat, next: nat, end: nat, n: nat,
                 used: nat, now: nat, j: nat, mask: bv64, v: bool)
    requires PartDone(ws, cur, begin, upto, end, used, now, v) && j < |ws|
    requires Selects(mask, j, upto, next) && next <= end <= n <= UNIT * |ws| && n < UINT32_LIMIT
    requires used == Count(ws, 0, n)
    ensures PartDone(ws, cur[j := Rewritten(cur[j], mask, v)], begin, next, end, used,
                     Wrap(now - Popcount(And(cur[j], mask))), v)
  {
    hide Bit, And, Or, Not, Popcount, Count, Edited, Selects;
    SelectsBounds(mask, j, upto, next);
    EditWord(ws, cur, begin, j, mask, upto, next, v);
    CountSplit(ws, begin, upto, next);
    PartOfCount(ws, begin, next, next, n);
    EditedLength(ws, cur, begin, upto, v);
  }

  lemma SelectsBounds(mask: bv64, j: nat, lo: nat, hi: nat)
    requires Selects(mask, j, lo, hi)
    ensures lo <= hi
  {
  }

  lemma EditedLength(ws: seq<bv64>, cur: seq<bv64>, lo: nat, hi: nat, v: bool)
    requires Edited(ws, cur, lo, hi, v)
    ensures |cur| == |ws|
  {
  }

  lemma NoPart(ws: seq<bv64>, begin: nat, end: nat, used: nat, v: bool)
    requires begin <= end <= UNIT * |ws|
    ensures PartDone(ws, ws, begin, begin, end, used, used, v)
  {
  }

  /** The first word. */
  lemma FirstPart(ws: seq<bv64>, begin: nat, end: nat, n: nat, used: nat, v: bool)
    requires begin < end <= n <= UNIT * |ws| && n < UINT32_LIMIT && used == Count(ws, 0, n)
    ensures var j := begin / UNIT;
      var mask := if OneWord(begin, end) then And(FirstMask(begin), LastMask(end)) else FirstMask(begin);
      PartDone(ws, ws[j := Rewritten(ws[j], mask, v)], begin, if OneWord(begin, end) then end else UNIT * (j + 1),
               end, used, Wrap(used - Popcount(And(ws[j], mask))), v)
  {
    hide PartDone, And, Or, Not, Popcount, Count, Selects, FirstMask, LastMask, Rewritten;
    var j := begin / UNIT;
    NoPart(ws, begin, end, used, v);
    FirstSelects(begin);
    LastSelects(end);
    if OneWord(begin, end) {
      BothSelects(FirstMask(begin), LastMask(end), j, begin, end);
      MorePart(ws, ws, begin, begin, end, end, n, used, used, j, And(FirstMask(begin), LastMask(end)), v);
    } else {
      MorePart(ws, ws, begin, begin, UNIT * (j + 1), end, n, used, used, j, FirstMask(begin), v);
    }
  }

  /** A word between. */
  lemma NextPart(ws: seq<bv64>, cur: seq<bv64>, begin: nat, j: nat, end: nat, n: nat, used: nat, now: nat, v: bool)
    requires PartDone(ws, cur, begin, UNIT * j, end, used, now, v) && j < (end - 1) / UNIT
    requires end <= n <= UNIT * |ws| && n < UINT32_LIMIT && used == Count(ws, 0, n)
    ensures |cur| == |ws|
    ensures PartDone(ws, cur[j := Rewritten(cur[j], ALL_ONES, v)], begin, UNIT * (j + 1), end, used,
                     Wrap(now - Popcount(And(cur[j], ALL_ONES))), v)
  {
    hide And, Or, Not, Popcount, Count, Selects, Rewritten, Edited;
    EditedLength(ws, cur, begin, UNIT * j, v);
    AllSelects(j);
    MorePart(ws, cur, begin, UNIT * j, UNIT * (j + 1), end, n, used, now, j, ALL_ONES, v);
  }

  /** The last word. */
  lemma LastPart(ws: seq<bv64>, cur: seq<bv64>, begin: nat, end: nat, n: nat, used: nat, now: nat, v: bool)
    requires end > 0 && PartDone(ws, cur, begin, UNIT * ((end - 1) / UNIT), end, used, now, v)
    requires end <= n <= UNIT * |ws| && n < UINT32_LIMIT && used == Count(ws, 0, n)
    ensures |cur| == |ws|
    ensures var j := (end - 1) / UNIT;
      PartDone(ws, cur[j := Rewritten(cur[j], LastMask(end), v)], begin, end, end, used,
               Wrap(now - Popcount(And(cur[j], LastMask(end)))), v)
  {
    hide And, Or, Not, Popcount, Count, Selects, Rewritten, Edited, LastMask;
    var j := (end - 1) / UNIT;
    EditedLength(ws, cur, begin, UNIT * j, v);
    LastSelects(end);
    MorePart(ws, cur, begin, UNIT * j, end, end, n, used, now, j, LastMask(end), v);
  }

  /** The whole range is written, and the new indices are counted in. */
  lemma RangeDone(ws: seq<bv64>, cur: seq<bv64>, begin: nat, end: nat, n: nat, used: nat, now: nat, v: bool)
    requires PartDone(ws, cur, begin, end, end, used, now, v)
    requires end <= n <= UNIT * |ws| && n < UINT32_LIMIT && used == Count(ws, 0, n)
    ensures |cur| == |ws| && (if v then Wrap(now + (end - begin)) else now) == Count(cur, 0, n)
    ensures Members(cur, n) == if v then Members(ws, n) + Range(begin, end) else Members(ws, n) - Range(begin, end)
  {
    hide BitAt, Range, Members, Edited;
    EditedLength(ws, cur, begin, end, v);
    EditedCount(ws, cur, begin, end, v, n);
    EditedMembers(ws, cur, begin, end, v, n);
  }
}
