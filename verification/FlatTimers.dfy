/**
 What a timing wheel is for: a map from pending timers to the tick they expire at.

 A run is a list of operations.  A tick fires the timers whose time has come; what their callbacks do
 are operations of their own behind the tick, and so is everything that happens between two ticks.
 */
module FlatTimers {
  import opened Arithmetic

  type TimerId = nat
  type Due = map<TimerId, nat>

  /** A delay in ticks: milliseconds are rounded down to whole ticks, but never to none. */
  function Ticks(millis: nat, tick: nat): nat
    requires tick > 0
  {
    if millis / tick == 0 then 1 else millis / tick
  }

  lemma TicksAre(millis: nat, tick: nat)
    requires tick > 0
    ensures Ticks(millis, tick) == if millis / tick == 0 then 1 else millis / tick
  {
  }

  /** `q` is how many whole ticks fit into `millis`, or 1 if none does. */
  predicate IsDelay(q: int, millis: nat, tick: nat) {
    q >= 1 && (q * tick <= millis < (q + 1) * tick || (q == 1 && millis < tick))
  }

  lemma DelayIsTicks(q: int, millis: nat, tick: nat)
    requires tick > 0
    ensures IsDelay(q, millis, tick) <==> q == Ticks(millis, tick)
  {
    QuotientIs(millis, tick, q);
    QuotientIs(millis, tick, 0);
  }

  datatype Op = Tick | Arm(timer: TimerId, millis: nat) | Cancel(timer: TimerId)

  datatype Firing = Firing(timer: TimerId, at: nat)

  datatype Flat = Flat(due: Due, now: nat)

  /** Every pending timer is still ahead. */
  predicate Ahead(due: Due, now: nat) { forall x :: x in due ==> due[x] > now }

  function Step(s: Flat, op: Op, tick: nat): Flat
    requires tick > 0
  {
    match op
    case Tick => Flat(map x | x in s.due && s.due[x] != s.now + 1 :: s.due[x], s.now + 1)
    case Arm(x, millis) => s.(due := s.due[x := s.now + Ticks(millis, tick)])
    case Cancel(x) => s.(due := s.due - {x})
  }

  /** The timers that fire in the tick `now`. */
  function Fires(due: Due, now: nat): set<Firing> {
    set x | x in due && due[x] == now :: Firing(x, now)
  }

  function Run(s: Flat, ops: seq<Op>, tick: nat): Flat
    requires tick > 0
    decreases |ops|
  {
    if ops == [] then s else Run(Step(s, ops[0], tick), ops[1..], tick)
  }

  function Firings(s: Flat, ops: seq<Op>, tick: nat): set<Firing>
    requires tick > 0
    decreases |ops|
  {
    if ops == [] then {}
    else (if ops[0].Tick? then Fires(s.due, s.now + 1) else {}) + Firings(Step(s, ops[0], tick), ops[1..], tick)
  }

  function TickCount(ops: seq<Op>): nat {
    if ops == [] then 0 else (if ops[0].Tick? then 1 else 0) + TickCount(ops[1..])
  }

  lemma {:induction false} CountConcat(a: seq<Op>, b: seq<Op>)
    ensures TickCount(a + b) == TickCount(a) + TickCount(b)
  {
    if a == [] {
      assert a + b == b;
    } else {
      assert (a + b)[1..] == a[1..] + b;
      CountConcat(a[1..], b);
    }
  }

  lemma {:induction false} RunConcat(s: Flat, a: seq<Op>, b: seq<Op>, tick: nat)
    requires tick > 0
    ensures Run(s, a + b, tick) == Run(Run(s, a, tick), b, tick)
    ensures Firings(s, a + b, tick) == Firings(s, a, tick) + Firings(Run(s, a, tick), b, tick)
    decreases |a|
  {
    if a == [] {
      assert a + b == b;
    } else {
      assert (a + b)[1..] == a[1..] + b;
      RunConcat(Step(s, a[0], tick), a[1..], b, tick);
    }
  }

  lemma StepAhead(s: Flat, op: Op, tick: nat)
    requires tick > 0 && Ahead(s.due, s.now)
    ensures Ahead(Step(s, op, tick).due, Step(s, op, tick).now)
  {
  }

  lemma FlatNow(s: Flat, op: Op, tick: nat)
    requires tick > 0
    ensures Step(s, op, tick).now == s.now + if op.Tick? then 1 else 0
  {
  }

  lemma {:induction false} RunNow(s: Flat, ops: seq<Op>, tick: nat)
    requires tick > 0
    ensures Run(s, ops, tick).now == s.now + TickCount(ops)
    decreases |ops|
  {
    if ops != [] {
      FlatNow(s, ops[0], tick);
      RunNow(Step(s, ops[0], tick), ops[1..], tick);
    }
  }

  /** What a run fires lies ahead. */
  lemma {:induction false} FiringsAhead(s: Flat, ops: seq<Op>, tick: nat)
    requires tick > 0
    ensures forall f :: f in Firings(s, ops, tick) ==> s.now < f.at
    decreases |ops|
  {
    if ops != [] {
      FiringsAhead(Step(s, ops[0], tick), ops[1..], tick);
    }
  }

  // ---------- what a run does to one timer ----------

  predicate Untouched(ops: seq<Op>, x: TimerId) {
    forall i :: 0 <= i < |ops| ==> ops[i].Tick? || ops[i].timer != x
  }

  /** Whatever happens to other timers, a timer that nobody arms again or cancels fires in the tick it
      was set for, once, and never otherwise. */
  lemma {:induction false} LeftAloneFiresOnce(s: Flat, ops: seq<Op>, tick: nat, x: TimerId, at: nat)
    requires tick > 0 && Ahead(s.due, s.now) && Untouched(ops, x)
    ensures Firing(x, at) in Firings(s, ops, tick) <==> x in s.due && s.due[x] == at && at <= s.now + TickCount(ops)
    ensures var end := Run(s, ops, tick).due;
      && (x in end <==> x in s.due && s.due[x] > s.now + TickCount(ops))
      && (x in end ==> end[x] == s.due[x])
    decreases |ops|
  {
    if ops != [] {
      StepAhead(s, ops[0], tick);
      assert Untouched(ops[1..], x) && (ops[0].Tick? || ops[0].timer != x);
      LeftAloneFiresOnce(Step(s, ops[0], tick), ops[1..], tick, x, at);
    }
  }

  /** A timer armed for `millis` fires as many ticks later as fit into that, and at least one. */
  lemma ArmedFiresOnce(s: Flat, millis: nat, ops: seq<Op>, tick: nat, x: TimerId, at: nat, q: nat)
    requires tick > 0 && Ahead(s.due, s.now) && Untouched(ops, x)
    requires q >= 1 && (q * tick <= millis < (q + 1) * tick || (q == 1 && millis < tick))
    ensures Firing(x, at) in Firings(s, [Arm(x, millis)] + ops, tick) <==> at == s.now + q && q <= TickCount(ops)
  {
    DelayIsTicks(q, millis, tick);
    StepAhead(s, Arm(x, millis), tick);
    LeftAloneFiresOnce(Step(s, Arm(x, millis), tick), ops, tick, x, at);
    assert ([Arm(x, millis)] + ops)[1..] == ops;
  }

  /** In every tick that fires `x`, some callback arms `x` again for `millis`, and nothing else touches
      it.  `fired` says that it has fired and waits for that. */
  predicate Rearming(s: Flat, ops: seq<Op>, tick: nat, x: TimerId, millis: nat, fired: bool)
    requires tick > 0
    decreases |ops|
  {
    if ops == [] then true
    else
      var next := Step(s, ops[0], tick);
      match ops[0]
      case Tick => !fired && Rearming(next, ops[1..], tick, x, millis, x in s.due && s.due[x] == s.now + 1)
      case Arm(y, m) =>
        if y == x then fired && m == millis && Rearming(next, ops[1..], tick, x, millis, false)
        else Rearming(next, ops[1..], tick, x, millis, fired)
      case Cancel(y) => y != x && Rearming(next, ops[1..], tick, x, millis, fired)
  }

  /** Whatever happens to other timers, a timer that is armed again whenever it fires does so first
      when it was set for, and from then on every `period` ticks. */
  lemma {:induction false} RearmedFiresPeriodically(
      s: Flat, ops: seq<Op>, tick: nat, x: TimerId, millis: nat, period: nat, fired: bool, at: nat)
    requires tick > 0 && Ahead(s.due, s.now) && Rearming(s, ops, tick, x, millis, fired)
    requires fired <==> x !in s.due
    requires period >= 1 && (period * tick <= millis < (period + 1) * tick || (period == 1 && millis < tick))
    ensures Firing(x, at) in Firings(s, ops, tick) <==>
      at <= s.now + TickCount(ops) && OnBeat(if fired then s.now + period else s.due[x], period, at)
    decreases |ops|
  {
    hide OnBeat;
    DelayIsTicks(period, millis, tick);
    if ops == [] {
      NoBeatBefore(if fired then s.now + period else s.due[x], period, at);
    } else {
      StepAhead(s, ops[0], tick);
      var next := Step(s, ops[0], tick);
      match ops[0]
      case Tick =>
        RearmedFiresPeriodically(next, ops[1..], tick, x, millis, period, s.due[x] == s.now + 1, at);
        NextBeat(s.due[x], period, at);
      case Arm(y, m) => RearmedFiresPeriodically(next, ops[1..], tick, x, millis, period, fired && y != x, at);
      case Cancel(y) => RearmedFiresPeriodically(next, ops[1..], tick, x, millis, period, fired, at);
    }
  }

  /** Is `at` the tick `first` or a whole number of periods later? */
  predicate OnBeat(first: nat, period: nat, at: nat)
    requires period > 0
  {
    first <= at && (at - first) % period == 0
  }

  lemma NoBeatBefore(first: nat, period: nat, at: nat)
    requires period > 0
    ensures OnBeat(first, period, at) ==> first <= at
  {
  }

  lemma NextBeat(first: nat, period: nat, at: nat)
    requires period > 0
    ensures OnBeat(first, period, at) <==> at == first || OnBeat(first + period, period, at)
  {
    if at > first {
      PeriodShift(at - first, period);
    }
  }

  lemma PeriodShift(d: nat, p: nat)
    requires d > 0 && p > 0
    ensures d % p == 0 <==> d >= p && (d - p) % p == 0
  {
    if d >= p {
      ModShift(d, p);
    }
  }

  // ---------- logs ----------

  /** `after` is `before` followed by the firings of `s`, each once. */
  ghost predicate Logs(before: seq<Firing>, after: seq<Firing>, s: set<Firing>) {
    && before <= after
    && (forall f :: f in after[|before|..] <==> f in s)
    && (forall i, j :: |before| <= i < j < |after| ==> after[i] != after[j])
  }

  function FireAll(xs: seq<TimerId>, now: nat): seq<Firing> {
    seq(|xs|, i requires 0 <= i < |xs| => Firing(xs[i], now))
  }

  lemma LogsBatch(before: seq<Firing>, xs: seq<TimerId>, due: Due, now: nat)
    requires forall x :: x in xs <==> x in due && due[x] == now
    requires forall p, q :: 0 <= p < q < |xs| ==> xs[p] != xs[q]
    ensures Logs(before, before + FireAll(xs, now), Fires(due, now))
  {
    var batch := FireAll(xs, now);
    var after := before + batch;
    assert after[|before|..] == batch;
    forall f | f in Fires(due, now) ensures f in batch {
      var k :| 0 <= k < |xs| && xs[k] == f.timer;
      assert batch[k] == f;
    }
    forall i, j | |before| <= i < j < |after| ensures after[i] != after[j] {
      assert after[i] == batch[i - |before|] && after[j] == batch[j - |before|];
    }
  }

  lemma LogsNothing(log: seq<Firing>)
    ensures Logs(log, log, {})
  {
  }

  lemma LogsCompose(a: seq<Firing>, b: seq<Firing>, c: seq<Firing>, s: set<Firing>, t: set<Firing>)
    requires Logs(a, b, s) && Logs(b, c, t) && s !! t
    ensures Logs(a, c, s + t)
  {
    assert c[|a|..] == b[|a|..] + c[|b|..];
    forall i, j | |a| <= i < j < |c| ensures c[i] != c[j] {
      if i < |b| {
        assert c[i] == b[i] && b[i] in b[|a|..];
      }
      if j >= |b| {
        assert c[j] in c[|b|..];
      }
    }
  }
}
