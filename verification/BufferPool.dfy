/**
 The send-buffer pool (src/core/buffer.h, buffer.cc): buffers are handed out by index, the bitmap
 says which are free, and the pool grows by a block of 256 when none is.

 Memory and its registration with the kernel are foreign: what `posix_memalign` returns and whether
 the registration succeeds are parameters.
 */
module BufferPools {
  import opened BitMaps
  import opened BitSets

  const BUFFER_SIZE := 2048
  const ENTRIES_MAX := 16384
  const BUFFER_COUNT := 256
  const BLOCK_SIZE := BUFFER_SIZE * BUFFER_COUNT

  datatype Pointer = Null | Address(at: nat)

  /** Two blocks share no byte. */
  predicate Apart(a: nat, b: nat) { a + BLOCK_SIZE <= b || b + BLOCK_SIZE <= a }

  predicate AllApart(pool: seq<nat>) {
    forall i, j :: 0 <= i < j < |pool| ==> Apart(pool[i], pool[j])
  }

  /** Where buffer `bidx` is. */
  function BufferAt(pool: seq<nat>, bidx: nat): nat
    requires bidx / BUFFER_COUNT < |pool|
  {
    pool[bidx / BUFFER_COUNT] + BUFFER_SIZE * (bidx % BUFFER_COUNT)
  }

  /** Buffers with different indices share no byte, and each lies inside its block. */
  lemma BuffersAreDisjoint(pool: seq<nat>, i: nat, j: nat)
    requires AllApart(pool) && i != j && i / BUFFER_COUNT < |pool| && j / BUFFER_COUNT < |pool|
    ensures BufferAt(pool, i) + BUFFER_SIZE <= BufferAt(pool, j) || BufferAt(pool, j) + BUFFER_SIZE <= BufferAt(pool, i)
    ensures pool[i / BUFFER_COUNT] <= BufferAt(pool, i)
    ensures BufferAt(pool, i) + BUFFER_SIZE <= pool[i / BUFFER_COUNT] + BLOCK_SIZE
  {
  }

  /** A block holds 256 buffers in order, the first where it starts and each right behind the one before:
      where the kernel knows buffer `bidx` to be. */
  lemma BuffersInOrder(pool: seq<nat>, block: nat, i: nat)
    requires block < |pool| && i < BUFFER_COUNT
    ensures (BUFFER_COUNT * block + i) / BUFFER_COUNT == block
    ensures i == 0 ==> BufferAt(pool, BUFFER_COUNT * block) == pool[block]
    ensures i > 0 ==> BufferAt(pool, BUFFER_COUNT * block + i) == BufferAt(pool, BUFFER_COUNT * block + i - 1) + BUFFER_SIZE
  {
  }

  /** The indices marked as in use when `live` are held and buffers exist below `count`. */
  function Marked(live: set<nat>, count: nat): set<nat> { live + Range(count, ENTRIES_MAX) }

  /** Everything is marked exactly if every buffer there is is held. */
  lemma MarkedIsFull(live: set<nat>, count: nat)
    requires live <= Range(0, count) && count <= ENTRIES_MAX
    ensures Marked(live, count) == Range(0, ENTRIES_MAX) <==> live == Range(0, count)
  {
  }

  lemma MarkedGrows(live: set<nat>, count: nat)
    requires live <= Range(0, count) && count + BUFFER_COUNT <= ENTRIES_MAX
    ensures Marked(live, count) - Range(count, count + BUFFER_COUNT) == Marked(live, count + BUFFER_COUNT)
    ensures live <= Range(0, count + BUFFER_COUNT) && live != Range(0, count + BUFFER_COUNT)
  {
  }

  lemma ApartGrows(pool: seq<nat>, base: nat)
    requires AllApart(pool) && forall i :: 0 <= i < |pool| ==> Apart(pool[i], base)
    ensures AllApart(pool + [base])
  {
  }

  /** The smallest unmarked index is the smallest buffer that is not held. */
  lemma FirstUnmarked(live: set<nat>, count: nat, i: nat)
    requires live <= Range(0, count) && count <= ENTRIES_MAX
    requires i < ENTRIES_MAX && i !in Marked(live, count) && forall j: nat :: j < i ==> j in Marked(live, count)
    ensures i < count && i !in live && forall j: nat :: j < i ==> j in live
    ensures Marked(live, count) + {i} == Marked(live + {i}, count) && live + {i} <= Range(0, count)
  {
  }

  class BufferPool {
    const available: BitMap
    var send_buffer_count_: nat
    var send_pool_: seq<nat>   // the addresses of the blocks
    ghost var live: set<nat>   // the indices that callers hold

    ghost predicate Shape()
      reads this, available, available.bitmap_
    {
      && available.Valid() && available.bit_count_ == ENTRIES_MAX
      && send_buffer_count_ == BUFFER_COUNT * |send_pool_| && send_buffer_count_ <= ENTRIES_MAX
      && AllApart(send_pool_)
      && live <= Range(0, send_buffer_count_)
    }

    /** Exactly the held indices and those without a buffer yet are marked as in use. */
    ghost predicate Valid()
      reads this, available, available.bitmap_
    {
      Shape() && available.Used() == Marked(live, send_buffer_count_)
    }

    constructor (memory: Pointer, registered: bool)
      ensures Valid() && fresh(available) && fresh(available.bitmap_)
      ensures live == {}
      ensures send_buffer_count_ == if memory.Null? || !registered then 0 else BUFFER_COUNT
    {
      hide Members, Count, Range;
      available := new BitMap(ENTRIES_MAX, true);
      send_buffer_count_ := 0;
      send_pool_ := [];
      live := {};
      new;
      AllocSendBuffers(memory, registered);
    }

    /** Grow by one block, unless the pool is at its cap or the system does not give it one. */
    method AllocSendBuffers(memory: Pointer, registered: bool)
      requires Valid()
      requires memory.Address? ==> forall i :: 0 <= i < |send_pool_| ==> Apart(send_pool_[i], memory.at)
      modifies `send_pool_, `send_buffer_count_, available`bit_used_count_, available.bitmap_
      ensures Valid()
      ensures if old(send_buffer_count_) == ENTRIES_MAX || memory.Null? || !registered
              then send_pool_ == old(send_pool_)
              else send_pool_ == old(send_pool_) + [memory.at] && live != Range(0, send_buffer_count_)
    {
      hide Members, Count, Marked, Range, Apart, AllApart;
      if send_buffer_count_ == ENTRIES_MAX {
        return;
      }
      if memory.Address? && registered {
        ApartGrows(send_pool_, memory.at);
        MarkedGrows(live, send_buffer_count_);
        send_pool_ := send_pool_ + [memory.at];
        var inside := available.RemoveIndexRange(send_buffer_count_, BUFFER_COUNT);
        send_buffer_count_ := send_buffer_count_ + BUFFER_COUNT;
      }
    }

    /** Hand out the smallest free buffer; with none free, grow and try again. */
    method GetSendBufferIndex(memory: Pointer, registered: bool) returns (index: int)
      requires Valid()
      requires memory.Address? ==> forall i :: 0 <= i < |send_pool_| ==> Apart(send_pool_[i], memory.at)
      modifies `send_pool_, `send_buffer_count_, `live, available`bit_used_count_, available.bitmap_
      ensures Valid()
      // None is handed out only if all are held and the pool cannot grow.
      ensures index == -1 <==>
        && old(live) == Range(0, old(send_buffer_count_))
        && (old(send_buffer_count_) == ENTRIES_MAX || memory.Null? || !registered)
      ensures index == -1 ==> live == old(live) && send_pool_ == old(send_pool_)
      // The one handed out has a buffer, was not held, and is the smallest such.
      ensures index != -1 ==>
        && 0 <= index < send_buffer_count_
        && index !in old(live) && live == old(live) + {index}
        && (forall j: nat :: j < index ==> j in old(live))
      // The pool grows only if it must.
      ensures send_pool_ != old(send_pool_) ==> old(live) == Range(0, old(send_buffer_count_))
    {
      hide Members, Count, Marked, AllApart, Range;
      MarkedIsFull(live, send_buffer_count_);
      var first := available.GetAndSetIndex();
      index := if first == NO_INDEX then -1 else first;
      if index == -1 {
        AllocSendBuffers(memory, registered);
        MarkedIsFull(live, send_buffer_count_);
        var second := available.GetAndSetIndex();
        index := if second == NO_INDEX then -1 else second;
      }
      if index != -1 {
        FirstUnmarked(live, send_buffer_count_, index);
        live := live + {index};
      }
    }

    function GetSendBuffer(bidx: nat): (p: Pointer)
      requires Valid()
      reads this, available, available.bitmap_
      ensures p == if bidx < send_buffer_count_ then Address(BufferAt(send_pool_, bidx)) else Null
    {
      if bidx >= ENTRIES_MAX then Null
      else
        var index := bidx / BUFFER_COUNT;
        if index >= |send_pool_| then Null
        else Address(send_pool_[index] + BUFFER_SIZE * (bidx % BUFFER_COUNT))
    }

    /** Take a buffer back.  The index is not compared with the number of buffers there are: the pool
        stays in order exactly if the caller does not hand in one that never had a buffer. */
    method ReplenishSendBuffer(bidx: nat)
      requires Valid()
      modifies `live, available`bit_used_count_, available.bitmap_
      ensures live == old(live) - {bidx} && Shape()
      ensures Valid() <==> !(send_buffer_count_ <= bidx < ENTRIES_MAX)
    {
      hide Members, Count, Range, AllApart;
      live := live - {bidx};
      if bidx >= ENTRIES_MAX {
        return;
      }
      var ok := available.RemoveIndex(bidx);
    }
  }
}
