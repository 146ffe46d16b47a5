/**
 Finding the worker that owns a connection (src/core/server.h, event_loop.cc, context.h).

 The server deals accepted connections out to its workers in turn and numbers them.  The number
 travels in 28 bits, and the worker is computed back from what arrives.
 */
module Routing {
  import opened Arithmetic

  type Conn = nat

  const ID_LIMIT := 0x1000_0000       // ids travel in 28 bits
  const UINT32_LIMIT := 0x1_0000_0000

  /** The worker that gets the `count`-th connection accepted. */
  function Worker(count: nat, threads: nat): nat
    requires count > 0 && threads > 0
  {
    (count - 1) % threads
  }

  /** The id under which that worker knows the connection. */
  function IdOf(count: nat): Conn { count % ID_LIMIT }

  /** The worker that messages for an id are sent to. */
  function Route(id: Conn, threads: nat): nat
    requires threads > 0
  {
    (if id == 0 then UINT32_LIMIT - 1 else id - 1) % threads
  }

  /** Every message finds the worker that owns its connection, for every connection that can ever be
      counted, exactly if the number of workers divides 2^28. */
  lemma RoutesExactly(threads: nat)
    requires threads > 0
    ensures ID_LIMIT % threads == 0 <==>
            forall count: nat :: 0 < count < UINT32_LIMIT ==> Route(IdOf(count), threads) == Worker(count, threads)
  {
    if ID_LIMIT % threads == 0 {
      forall count: nat | 0 < count < UINT32_LIMIT ensures Route(IdOf(count), threads) == Worker(count, threads) {
        RoutesRight(count, threads);
      }
    } else {
      var count := ID_LIMIT + 1;
      assert IdOf(count) == 1 && Route(1, threads) == 0;
      assert Worker(count, threads) == ID_LIMIT % threads;
    }
  }

  lemma RoutesRight(count: nat, threads: nat)
    requires threads > 0 && ID_LIMIT % threads == 0 && 0 < count < UINT32_LIMIT
    ensures Route(IdOf(count), threads) == Worker(count, threads)
  {
    var m := ID_LIMIT / threads;
    assert ID_LIMIT == m * threads;
    var q, id := count / ID_LIMIT, count % ID_LIMIT;
    if id > 0 {
      assert count - 1 == (id - 1) + (q * m) * threads by {
        assert q * ID_LIMIT == (q * m) * threads;
      }
      ModAddMultiple(id - 1, q * m, threads);
    } else {
      assert count - 1 == (ID_LIMIT - 1) + ((q - 1) * m) * threads by {
        assert (q - 1) * ID_LIMIT == ((q - 1) * m) * threads;
      }
      ModAddMultiple(ID_LIMIT - 1, (q - 1) * m, threads);
      assert UINT32_LIMIT - 1 == (ID_LIMIT - 1) + (15 * m) * threads;
      ModAddMultiple(ID_LIMIT - 1, 15 * m, threads);
    }
  }

  /** Until the ids run out, any number of workers will do. */
  lemma EarlyRoutes(count: nat, threads: nat)
    requires threads > 0 && 0 < count < ID_LIMIT
    ensures Route(IdOf(count), threads) == Worker(count, threads)
  {
  }
}
