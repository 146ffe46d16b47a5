/**
 The bitmap allocator (src/utils/bitmap.h, bitmap.cc): words, masks and a running count that stand
 for a set of indices.
 */
module BitMaps {
  import opened Bits
  import opened Words
  import opened BitSets

  const NO_INDEX := 0xFFFF_FFFF

  method Fill(a: array<bv64>, w: bv64)
    modifies a
    ensures forall i :: 0 <= i < a.Length ==> a[i] == w
  {
    for i := 0 to a.Length
      invariant forall j :: 0 <= j < i ==> a[j] == w
    {
      a[i] := w;
    }
  }

  class BitMap {
    var bitmap_: array<bv64>
    var bit_used_count_: nat
    const bit_count_: nat
    const blocks_: nat

    ghost predicate Valid()
      reads this, bitmap_
    {
      && bit_count_ + (UNIT - 1) < UINT32_LIMIT
      && blocks_ == (bit_count_ + (UNIT - 1)) / UNIT
      && bitmap_.Length == blocks_
      && bit_used_count_ == Count(bitmap_[..], 0, bit_count_)
    }

    /** The indices in use. */
    ghost function Used(): set<nat>
      requires Valid()
      reads this, bitmap_
    {
      Members(bitmap_[..], bit_count_)
    }

    /** Rounding the size up to whole words wraps for the topmost 63 sizes: then there are no words. */
    constructor (bit_count: nat, disable_flag: bool)
      requires bit_count < UINT32_LIMIT
      ensures fresh(bitmap_) && bit_count_ == bit_count && bitmap_.Length == blocks_
      ensures Valid() <==> bit_count <= UINT32_LIMIT - UNIT
      ensures bit_count > UINT32_LIMIT - UNIT ==> blocks_ == 0
      ensures Valid() ==> Used() == if disable_flag then Range(0, bit_count) else {}
      ensures bit_used_count_ == if disable_flag then bit_count else 0
      ensures forall j :: 0 <= j < blocks_ ==> bitmap_[j] == if disable_flag then ALL_ONES else 0
    {
      hide Bit;
      bit_count_ := bit_count;
      var blocks := Wrap(bit_count + (UNIT - 1)) / UNIT;
      blocks_ := blocks;
      var words := new bv64[blocks];
      bit_used_count_ := if disable_flag then bit_count else 0;
      bitmap_ := words;
      new;
      Fill(bitmap_, if disable_flag then ALL_ONES else 0);
      if bit_count <= UINT32_LIMIT - UNIT {
        UniformCount(bitmap_[..], disable_flag, bit_count);
      }
    }

    predicate IsFull()
      reads this
    {
      bit_used_count_ == bit_count_
    }

    function Size(): (n: nat)
      requires Valid()
      reads this, bitmap_
      ensures n == |Used()|
    {
      CountIsCardinality(bitmap_[..], bit_count_);
      bit_used_count_
    }

    method SetIndex(index: nat) returns (ok: bool)
      requires Valid()
      modifies this`bit_used_count_, bitmap_
      ensures Valid()
      ensures ok <==> index < bit_count_ && index !in old(Used())
      ensures Used() == if ok then old(Used()) + {index} else old(Used())
    {
      hide Bit, One, Or, Tests, Count, Edited;
      if index >= bit_count_ {
        return false;
      }
      var block := index / UNIT;
      var bitMask := One(index % UNIT);
      BitTest(bitmap_[block], index % UNIT);
      if Tests(bitmap_[block], bitMask) {
        return false;
      }
      ghost var ws := bitmap_[..];
      MarkOne(ws, index, true, bit_count_);
      bitmap_[block] := Or(bitmap_[block], bitMask);
      assert bitmap_[..] == ws[block := Or(ws[block], bitMask)];
      bit_used_count_ := bit_used_count_ + 1;
      return true;
    }

    method Clear()
      requires Valid()
      modifies this`bit_used_count_, bitmap_
      ensures Valid() && Used() == {}
    {
      hide Bit;
      bit_used_count_ := 0;
      Fill(bitmap_, 0);
      UniformCount(bitmap_[..], false, bit_count_);
    }

    method RemoveIndex(index: nat) returns (ok: bool)
      requires Valid()
      modifies this`bit_used_count_, bitmap_
      ensures Valid()
      ensures ok <==> index < bit_count_ && index in old(Used())
      ensures Used() == if ok then old(Used()) - {index} else old(Used())
    {
      hide Bit, One, And, Not, Tests, Count, Edited;
      if index >= bit_count_ {
        return false;
      }
      var block := index / UNIT;
      var bitMask := One(index % UNIT);
      BitTest(bitmap_[block], index % UNIT);
      if Tests(bitmap_[block], bitMask) {
        ghost var ws := bitmap_[..];
        MarkOne(ws, index, false, bit_count_);
        bitmap_[block] := And(bitmap_[block], Not(bitMask));
        assert bitmap_[..] == ws[block := And(ws[block], Not(bitMask))];
        bit_used_count_ := bit_used_count_ - 1;
        return true;
      }
      return false;
    }

    /** Take the smallest free index. */
    method GetAndSetIndex() returns (r: nat)
      requires Valid()
      modifies this`bit_used_count_, bitmap_
      ensures Valid()
      ensures r == NO_INDEX <==> old(Used()) == Range(0, bit_count_)
      ensures r == NO_INDEX ==> Used() == old(Used())
      ensures r != NO_INDEX ==>
        && r < bit_count_ && r !in old(Used())
        && (forall j: nat :: j < r ==> j in old(Used()))
        && Used() == old(Used()) + {r}
    {
      hide Bit, One, Or, Count, Edited, Not, ALL_ONES, Range;
      if IsFull() {
        FullIsEverything(bitmap_[..], bit_count_);
        return NO_INDEX;
      }
      for i := 0 to blocks_
        invariant bitmap_[..] == old(bitmap_[..]) && bit_used_count_ == old(bit_used_count_)
        invariant forall j: nat :: j < UNIT * i ==> BitAt(bitmap_[..], j)
      {
        AllOnesHasEveryBit(bitmap_[i]);
        if bitmap_[i] != ALL_ONES {
          NotAllOnes(bitmap_[i]);
          var index := Ctz(Not(bitmap_[i]));
          CtzIsFirstFree(bitmap_[..], i);
          r := i * UNIT + index;
          if r < bit_count_ {
            ghost var ws := bitmap_[..];
            MarkOne(ws, r, true, bit_count_);
            bitmap_[i] := Or(bitmap_[i], One(index));
            assert bitmap_[..] == ws[i := Or(ws[i], One(index))];
            bit_used_count_ := bit_used_count_ + 1;
            return;
          } else {
            break;
          }
        } else {
          WordIsFull(bitmap_[..], i);
        }
      }
      r := NO_INDEX;
      AllBelowIsEverything(bitmap_[..], bit_count_);
    }

    /** Set every index of a range.  `inside` says that the program has stayed inside its words. */
    method SetIndexRange(begin_index: nat, count: nat) returns (inside: bool)
      requires Valid() && begin_index < UINT32_LIMIT && count < UINT32_LIMIT
      modifies this`bit_used_count_, bitmap_
      ensures inside <==> Fits(begin_index, count, bit_count_) || Wrap(begin_index + count) != 0
      ensures Fits(begin_index, count, bit_count_) ==> Valid()
      ensures Fits(begin_index, count, bit_count_) ==>
        Used() == (if begin_index + count > bit_count_ then old(Used())
                   else old(Used()) + Range(begin_index, begin_index + count))
      ensures inside && !Fits(begin_index, count, bit_count_) ==>
        && Strayed(old(bitmap_[..]), bitmap_[..], begin_index, Wrap(begin_index + count), true)
        && bit_used_count_ == Wrap(old(bit_used_count_) + count
                                   - CountAstray(old(bitmap_[..]), begin_index, Wrap(begin_index + count)))
        && !(Valid() && Used() == old(Used()))
    {
      hide Strayed, CountAstray, Range, Members, Count, NothingAstray;
      inside := EditRange(begin_index, count, true);
    }

    /** Clear every index of a range. */
    method RemoveIndexRange(begin_index: nat, count: nat) returns (inside: bool)
      requires Valid() && begin_index < UINT32_LIMIT && count < UINT32_LIMIT
      modifies this`bit_used_count_, bitmap_
      ensures inside <==> Fits(begin_index, count, bit_count_) || Wrap(begin_index + count) != 0
      ensures Fits(begin_index, count, bit_count_) ==> Valid()
      ensures Fits(begin_index, count, bit_count_) ==>
        Used() == (if begin_index + count > bit_count_ then old(Used())
                   else old(Used()) - Range(begin_index, begin_index + count))
      ensures inside && !Fits(begin_index, count, bit_count_) ==>
        && Strayed(old(bitmap_[..]), bitmap_[..], begin_index, Wrap(begin_index + count), false)
        && (Valid() && Used() == old(Used()) <==>
              NothingAstray(old(bitmap_[..]), begin_index, Wrap(begin_index + count)))
    {
      hide Strayed, CountAstray, Range, Members, Count, NothingAstray;
      inside := EditRange(begin_index, count, false);
    }

    /** Count out and overwrite the part of word `j` that `mask` selects. */
    method WriteMasked(j: nat, mask: bv64, v: bool)
      requires j < bitmap_.Length && bit_used_count_ < UINT32_LIMIT
      modifies this`bit_used_count_, bitmap_
      ensures bitmap_[..] == old(bitmap_[..])[j := Rewritten(old(bitmap_[j]), mask, v)]
      ensures bit_used_count_ == Wrap(old(bit_used_count_) - Popcount(And(old(bitmap_[j]), mask)))
    {
      hide And, Or, Not, Popcount;
      ghost var cur := bitmap_[..];
      var block := And(bitmap_[j], mask);
      if block != 0 {
        bit_used_count_ := Wrap(bit_used_count_ - Popcount(block));
      } else {
        PopcountZero();
      }
      bitmap_[j] := if v then Or(bitmap_[j], mask) else And(bitmap_[j], Not(mask));
      assert bitmap_[..] == cur[j := Rewritten(cur[j], mask, v)];
    }

    /** Count out and overwrite the whole of word `j`. */
    method WriteWhole(j: nat, v: bool)
      requires j < bitmap_.Length && bit_used_count_ < UINT32_LIMIT
      modifies this`bit_used_count_, bitmap_
      ensures bitmap_[..] == old(bitmap_[..])[j := Rewritten(old(bitmap_[j]), ALL_ONES, v)]
      ensures bit_used_count_ == Wrap(old(bit_used_count_) - Popcount(And(old(bitmap_[j]), ALL_ONES)))
    {
      hide And, Or, Not, Popcount, ALL_ONES, Rewritten;
      ghost var cur := bitmap_[..];
      WholeRewritten(bitmap_[j], v);
      if bitmap_[j] != 0 {
        bit_used_count_ := Wrap(bit_used_count_ - Popcount(bitmap_[j]));
      } else {
        PopcountZero();
      }
      bitmap_[j] := if v then ALL_ONES else 0;
      assert bitmap_[..] == cur[j := Rewritten(cur[j], ALL_ONES, v)];
    }

    /** The first word of a range, the words between, the last word.  If the end is before the
        beginning there is nothing between. */
    method WriteRange(begin_index: nat, end_index: nat, v: bool)
      requires Valid() && begin_index < bit_count_ && 0 < end_index <= bit_count_ && begin_index != end_index
      modifies this`bit_used_count_, bitmap_
      ensures bit_used_count_ < UINT32_LIMIT
      ensures begin_index < end_index ==>
        PartDone(old(bitmap_[..]), bitmap_[..], begin_index, end_index, end_index, old(bit_used_count_), bit_used_count_, v)
      ensures end_index < begin_index ==>
        && Strayed(old(bitmap_[..]), bitmap_[..], begin_index, end_index, v)
        && bit_used_count_ == Wrap(old(bit_used_count_) - CountAstray(old(bitmap_[..]), begin_index, end_index))
    {
      hide And, FirstMask, LastMask, Rewritten, Popcount, Strayed, CountAstray, PartDone, Count;
      ghost var ws, used, wraps := bitmap_[..], bit_used_count_, end_index < begin_index;
      var begin_block, end_block := begin_index / UNIT, (end_index - 1) / UNIT;
      var bitmask := FirstMask(begin_index);
      if begin_block == end_block {
        bitmask := And(bitmask, LastMask(end_index));
      }
      if wraps {
        Strays(ws, begin_index, end_index, used, v);
      } else {
        FirstPart(ws, begin_index, end_index, bit_count_, used, v);
      }
      WriteMasked(begin_block, bitmask, v);
      ghost var ws1, used1 := bitmap_[..], bit_used_count_;
      var i := begin_block + 1;
      while i < end_block
        invariant wraps ==> bitmap_[..] == ws1 && bit_used_count_ == used1
        invariant !wraps && begin_block == end_block ==>
          PartDone(ws, bitmap_[..], begin_index, end_index, end_index, used, bit_used_count_, v)
        invariant !wraps && begin_block != end_block ==>
          i <= end_block && PartDone(ws, bitmap_[..], begin_index, UNIT * i, end_index, used, bit_used_count_, v)
        invariant bit_used_count_ < UINT32_LIMIT
      {
        NextPart(ws, bitmap_[..], begin_index, i, end_index, bit_count_, used, bit_used_count_, v);
        WriteWhole(i, v);
        i := i + 1;
      }
      if begin_block != end_block {
        if !wraps {
          LastPart(ws, bitmap_[..], begin_index, end_index, bit_count_, used, bit_used_count_, v);
        }
        WriteMasked(end_block, LastMask(end_index), v);
      }
    }

    /** Set or clear every index of a range.  The sum of beginning and length is 32-bit and may wrap; if
        it wraps to zero the words between run out of the array, and the model ends. */
    method EditRange(begin_index: nat, count: nat, v: bool) returns (inside: bool)
      requires Valid() && begin_index < UINT32_LIMIT && count < UINT32_LIMIT
      modifies this`bit_used_count_, bitmap_
      ensures inside <==> Fits(begin_index, count, bit_count_) || Wrap(begin_index + count) != 0
      ensures Fits(begin_index, count, bit_count_) ==> Valid()
      ensures Fits(begin_index, count, bit_count_) ==>
        Used() == (if begin_index + count > bit_count_ then old(Used())
                   else if v then old(Used()) + Range(begin_index, begin_index + count)
                   else old(Used()) - Range(begin_index, begin_index + count))
      ensures inside && !Fits(begin_index, count, bit_count_) ==>
        && Strayed(old(bitmap_[..]), bitmap_[..], begin_index, Wrap(begin_index + count), v)
        && bit_used_count_ == Wrap(old(bit_used_count_) + (if v then count else 0)
                                   - CountAstray(old(bitmap_[..]), begin_index, Wrap(begin_index + count)))
        && (Valid() && Used() == old(Used()) <==>
              !v && NothingAstray(old(bitmap_[..]), begin_index, Wrap(begin_index + count)))
    {
      hide Strayed, CountAstray, PartDone, Count, NothingAstray, Members, Range;
      var end_index := Wrap(begin_index + count);
      EndOf(begin_index, count, bit_count_);
      if count == 0 || begin_index >= bit_count_ || end_index > bit_count_ {
        return true;
      }
      if end_index == 0 {
        assert Wrap(end_index - 1) / UNIT >= blocks_;
        return false;
      }
      inside := true;
      ghost var ws, used := bitmap_[..], bit_used_count_;
      WriteRange(begin_index, end_index, v);
      ghost var now := bit_used_count_;
      if v {
        bit_used_count_ := Wrap(bit_used_count_ + count);
      }
      if begin_index < end_index {
        RangeDone(ws, bitmap_[..], begin_index, end_index, bit_count_, used, now, v);
      } else {
        CountedBack(used, CountAstray(ws, begin_index, end_index), count, v);
        StrayExactly(ws, bitmap_[..], bit_count_, begin_index, count, end_index, bit_used_count_, v);
      }
    }
  }

  /** A range in one word whose end wraps: nothing is set, but the count says 2^32 - 5. */
  method CountBelowZero() returns (b: BitMap)
    ensures fresh(b) && !b.Valid() && b.bit_used_count_ == 0xFFFF_FFFB && b.bitmap_.Length == 2
    ensures forall i: nat :: i < 128 ==> !BitAt(b.bitmap_[..], i)
  {
    hide Members, Count, Range, BitAt;
    b := new BitMap(100, false);
    ghost var ws := b.bitmap_[..];
    NothingSet(ws);
    assert Wrap(10 + 0xFFFF_FFFB) == 5 && OneWord(10, 5) && CountAstray(ws, 10, 5) == 0;
    var inside := b.SetIndexRange(10, 0xFFFF_FFFB);
    assert b.bit_used_count_ == Wrap(0 + 0xFFFF_FFFB - 0);
  }

  /** A range over two words whose end wraps: the end of one word and the beginning of the other are set. */
  method SetElsewhere() returns (b: BitMap)
    ensures fresh(b) && b.bitmap_.Length == 2
    ensures forall i: nat :: i < 128 ==> (BitAt(b.bitmap_[..], i) <==> i < 49 || 70 <= i)
  {
    hide Members, Count, Range, BitAt, CountAstray;
    b := new BitMap(100, false);
    ghost var ws := b.bitmap_[..];
    NothingSet(ws);
    assert Wrap(70 + 0xFFFF_FFEB) == 49;
    var inside := b.SetIndexRange(70, 0xFFFF_FFEB);
  }
}
