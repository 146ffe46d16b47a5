/**
 Absolute deadlines as pairs of seconds and nanoseconds (src/utils/helpers.cc) and the arithmetic
 that takes a wake-up time back to a tick (src/core/timer.cc).
 */
module Clock {
  import opened Arithmetic

  datatype TimeSpec = TimeSpec(sec: nat, nsec: nat) {
    predicate Normal() { nsec < 1_000_000_000 }
    function Nanos(): nat { sec * 1_000_000_000 + nsec }
    /** The millisecond the program reads off a clock: the rest is cut off. */
    function Millis(): nat { sec * 1000 + nsec / 1_000_000 }
  }

  /** Adding milliseconds moves the time by exactly that much and keeps it normalised. */
  function AddMillis(ts: TimeSpec, millis: nat): (r: TimeSpec)
    requires ts.Normal()
    ensures r.Normal()
    ensures r.Nanos() == ts.Nanos() + millis * 1_000_000
  {
    var sec, nsec := ts.sec + millis / 1000, ts.nsec + (millis % 1000) * 1_000_000;
    if nsec >= 1_000_000_000 then TimeSpec(sec + 1, nsec - 1_000_000_000) else TimeSpec(sec, nsec)
  }

  /** When tick `i`, counted from zero, is due, in nanoseconds. */
  function Deadline(start: TimeSpec, tick: nat, i: nat): nat {
    start.Nanos() + (i + 1) * tick * 1_000_000
  }

  predicate IsDeadline(ts: TimeSpec, start: TimeSpec, tick: nat, i: nat) {
    ts.Normal() && ts.Nanos() == Deadline(start, tick, i)
  }

  const TIME_CACHE_SIZE := 4

  /** The ring holds the deadlines of the four ticks from `from` on, each in the slot of its tick. */
  predicate Ring(cache: seq<TimeSpec>, start: TimeSpec, tick: nat, from: nat) {
    && |cache| == TIME_CACHE_SIZE
    && forall i :: from <= i < from + TIME_CACHE_SIZE ==> IsDeadline(cache[i % TIME_CACHE_SIZE], start, tick, i)
  }

  /** What the ring says of each of its four entries, in nanoseconds. */
  lemma RingEntry(cache: seq<TimeSpec>, start: TimeSpec, tick: nat, from: nat, j: nat)
    requires Ring(cache, start, tick, from) && j < 4
    ensures |cache| == 4
    ensures var entry := cache[(from + j) % 4];
      entry.nsec < 1_000_000_000
      && entry.sec * 1_000_000_000 + entry.nsec == start.Nanos() + (from + j + 1) * tick * 1_000_000
  {
    assert IsDeadline(cache[(from + j) % TIME_CACHE_SIZE], start, tick, from + j);
  }

  /** Overwriting the slot of the tick that has come with the fourth deadline from it moves the ring. */
  lemma RingMoves(cache: seq<TimeSpec>, start: TimeSpec, tick: nat, from: nat, ts: TimeSpec)
    requires Ring(cache, start, tick, from) && IsDeadline(ts, start, tick, from + TIME_CACHE_SIZE)
    ensures Ring(cache[from % TIME_CACHE_SIZE := ts], start, tick, from + 1)
  {
  }

  /** Adding one tick goes from one deadline to the next. */
  lemma DeadlineAfter(ts: TimeSpec, start: TimeSpec, tick: nat, i: nat)
    requires IsDeadline(ts, start, tick, i)
    ensures IsDeadline(AddMillis(ts, tick), start, tick, i + 1)
  {
  }

  lemma FirstDeadline(start: TimeSpec, tick: nat)
    requires start.Normal()
    ensures IsDeadline(AddMillis(start, tick), start, tick, 0)
  {
  }

  lemma RingStarts(cache: seq<TimeSpec>, start: TimeSpec, tick: nat)
    requires |cache| == TIME_CACHE_SIZE
    requires forall j :: 0 <= j < TIME_CACHE_SIZE ==> IsDeadline(cache[j], start, tick, j)
    ensures Ring(cache, start, tick, 0)
  {
  }

  lemma MillisOfNanos(ts: TimeSpec)
    requires ts.Normal()
    ensures ts.Millis() == ts.Nanos() / 1_000_000
  {
  }

  /** The tick that `Update` aims at when it reads the clock. */
  function Target(start: TimeSpec, now: TimeSpec, tick: nat): int
    requires tick > 0
  {
    (now.Millis() - start.Millis()) / tick
  }

  /** How many ticks `Update` has then to let pass. */
  function TicksBehind(start: TimeSpec, now: TimeSpec, tick: nat, current: nat): nat
    requires tick > 0
  {
    if Target(start, now, tick) <= current then 0 else Target(start, now, tick) - current
  }

  /** Waking at or after deadline `i` reaches its tick although both clock readings are cut to
      milliseconds, and waking a whole millisecond early does not. */
  lemma WakingReachesTick(start: TimeSpec, now: TimeSpec, tick: nat, i: nat)
    requires start.Normal() && now.Normal() && start.Nanos() <= now.Nanos() && tick > 0
    ensures now.Nanos() >= Deadline(start, tick, i) ==> Target(start, now, tick) >= i + 1
    ensures now.Nanos() + 1_000_000 <= Deadline(start, tick, i) ==> Target(start, now, tick) <= i
  {
    MillisOfNanos(start);
    MillisOfNanos(now);
    var ms := (i + 1) * tick;
    var elapsed := now.Millis() - start.Millis();
    if now.Nanos() >= Deadline(start, tick, i) {
      assert elapsed >= ms;
      QuotientAtLeast(elapsed, tick, i + 1);
    }
    if now.Nanos() + 1_000_000 <= Deadline(start, tick, i) {
      assert elapsed < ms;
      QuotientBelow(elapsed, tick, i + 1);
    }
  }

  /** A tick count that has caught up with the clock has passed every deadline the clock has. */
  lemma DeadlinesAreReached(start: TimeSpec, now: TimeSpec, tick: nat, current: nat)
    requires start.Normal() && start.Nanos() <= now.Nanos() && tick > 0 && current >= Target(start, now, tick)
    ensures now.Normal() ==> forall i: nat :: now.Nanos() >= Deadline(start, tick, i) ==> current >= i + 1
  {
    hide Deadline, TimeSpec.Nanos, Target;
    if now.Normal() {
      forall i: nat | now.Nanos() >= Deadline(start, tick, i) ensures current >= i + 1 {
        WakingReachesTick(start, now, tick, i);
      }
    }
  }
}
