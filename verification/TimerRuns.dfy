/**
 Ticks of the wheel together with what the callbacks of the timers do (src/core/timer.h, timer.cc).

 What the callbacks of a tick do is given: for every timer the timers it arms and cancels.  The model
 goes on as long as nobody hits an unlinked timer and no callback touches a timer that waits to be
 fired in the same tick.
 */
module TimerRuns {
  import opened FlatTimers
  import opened TimerPlaces
  import opened TimerStates

  /** What the callbacks of timers do. */
  type Callbacks = map<TimerId, seq<Op>>

  predicate Proper(calls: Callbacks) {
    forall x :: x in calls ==> CanDoAll(calls[x]) && forall i :: 0 <= i < |calls[x]| ==> !calls[x][i].Tick?
  }

  function CallsOf(calls: Callbacks, x: TimerId): seq<Op> { if x in calls then calls[x] else [] }

  /** What the callbacks of `list` do, one after the other. */
  function Actions(list: seq<TimerId>, calls: Callbacks): seq<Op> {
    if list == [] then [] else CallsOf(calls, list[0]) + Actions(list[1..], calls)
  }

  predicate Touches(ops: seq<Op>, waiting: seq<TimerId>) {
    exists i :: 0 <= i < |ops| && !ops[i].Tick? && ops[i].timer in waiting
  }

  /** Does some callback of `list` touch a timer behind its own? */
  predicate Meddling(list: seq<TimerId>, calls: Callbacks) {
    list != [] && (Touches(CallsOf(calls, list[0]), list[1..]) || Meddling(list[1..], calls))
  }

  /** Some timer of the list has a callback that touches one behind it. */
  lemma {:induction false} MeddlingExactly(list: seq<TimerId>, calls: Callbacks)
    ensures Meddling(list, calls) <==>
      exists i :: 0 <= i < |list| && Touches(CallsOf(calls, list[i]), list[i + 1..])
  {
    hide Touches, CallsOf;
    if list != [] {
      var rest := list[1..];
      MeddlingExactly(rest, calls);
      forall i | 0 <= i < |rest| ensures rest[i] == list[i + 1] && rest[i + 1..] == list[i + 2..] {
      }
      if i :| 0 <= i < |list| && Touches(CallsOf(calls, list[i]), list[i + 1..]) {
        assert i > 0 ==> Touches(CallsOf(calls, rest[i - 1]), rest[i..]);
      }
      if Meddling(list, calls) && !Touches(CallsOf(calls, list[0]), list[1..]) {
        var i :| 0 <= i < |rest| && Touches(CallsOf(calls, rest[i]), rest[i + 1..]);
        assert Touches(CallsOf(calls, list[i + 1]), list[i + 1 + 1..]);
      }
    }
  }

  lemma {:induction false} ActionsCanBeDone(list: seq<TimerId>, calls: Callbacks)
    requires Proper(calls)
    ensures CanDoAll(Actions(list, calls)) && TickCount(Actions(list, calls)) == 0
  {
    if list != [] {
      ActionsCanBeDone(list[1..], calls);
      NoTicks(CallsOf(calls, list[0]));
      CountConcat(CallsOf(calls, list[0]), Actions(list[1..], calls));
    }
  }

  lemma {:induction false} NoTicks(a: seq<Op>)
    requires forall i :: 0 <= i < |a| ==> !a[i].Tick?
    ensures TickCount(a) == 0
  {
    if a != [] {
      NoTicks(a[1..]);
    }
  }

  // ---------- timers that wait to be fired ----------

  /** `w` while the timers `rest` are still to be fired. */
  function Before(w: Wheel, rest: seq<TimerId>, fired: seq<Firing>): Wheel {
    w.(flag := w.flag - SetOf(rest), fired := fired)
  }

  lemma BeforeIsValid(w: Wheel, rest: seq<TimerId>, fired: seq<Firing>)
    requires w.Valid()
    ensures Before(w, rest, fired).Valid()
  {
    hide Filed, Timed, Ahead, DueMap;
  }

  lemma CancelBefore(w: Wheel, x: TimerId, rest: seq<TimerId>, fired: seq<Firing>)
    requires w.Valid() && x !in rest
    ensures Filed(w.tv, w.place) && Cancelled(Before(w, rest, fired), x) == Before(Cancelled(w, x), rest, fired)
  {
    hide Timed, Ahead, DueMap, IndexOf, With, At;
  }

  lemma ArmBefore(w: Wheel, x: TimerId, millis: nat, tick: nat, rest: seq<TimerId>, fired: seq<Firing>)
    requires w.Valid() && x !in rest && tick > 0
    ensures Armed(Before(w, rest, fired), x, millis, tick) == Before(Armed(w, x, millis, tick), rest, fired)
  {
    hide Timed, Ahead, DueMap, IndexOf, With, At, Cancelled, Home, Ticks;
    CancelBefore(w, x, rest, fired);
    assert w.flag - SetOf(rest) - {x} == w.flag - {x} - SetOf(rest);
    var c := Cancelled(w, x);
    assert c.flag - SetOf(rest) - {x} == c.flag - {x} - SetOf(rest);
  }

  /** Operations on other timers do not notice that some are still to be fired. */
  lemma DoBefore(w: Wheel, op: Op, tick: nat, rest: seq<TimerId>, fired: seq<Firing>)
    requires w.Valid() && tick > 0 && CanDo(op) && !op.Tick? && op.timer !in rest
    ensures Before(w, rest, fired).Valid()
    ensures Do(Before(w, rest, fired), op, tick) == Before(Do(w, op, tick), rest, fired)
  {
    BeforeIsValid(w, rest, fired);
    hide Before, Cancelled, Armed, Filed, Timed, Ahead;
    match op
    case Arm(x, millis) => ArmBefore(w, x, millis, tick, rest, fired);
    case Cancel(x) => CancelBefore(w, x, rest, fired);
  }

  /** Callbacks that touch none of `rest` leave them fired, and neither the clock nor the log moves. */
  lemma {:induction false} DoAllElsewhere(w: Wheel, ops: seq<Op>, tick: nat, rest: seq<TimerId>)
    requires w.Ok() && tick > 0 && CanDoAll(ops) && !Touches(ops, rest)
    requires forall i :: 0 <= i < |ops| ==> !ops[i].Tick?
    ensures var r := DoAll(w, ops, tick);
      r.now == w.now && r.fired == w.fired && (SetOf(rest) <= w.flag ==> SetOf(rest) <= r.flag)
    decreases |ops|
  {
    if ops != [] {
      assert !Touches(ops[1..], rest) by {
        assert forall i :: 0 <= i < |ops[1..]| ==> ops[1..][i] == ops[i + 1];
      }
      DoIsOk(w, ops[0], tick);
      DoElsewhere(w, ops[0], tick, rest);
      DoAllElsewhere(Do(w, ops[0], tick), ops[1..], tick, rest);
    }
  }

  lemma DoElsewhere(w: Wheel, op: Op, tick: nat, rest: seq<TimerId>)
    requires w.Ok() && tick > 0 && !op.Tick? && op.timer !in rest
    ensures var r := Do(w, op, tick);
      r.now == w.now && r.fired == w.fired && (SetOf(rest) <= w.flag ==> SetOf(rest) <= r.flag)
  {
    hide Filed, Timed, Ahead, DueMap, Home, Ticks, With, At, IndexOf;
  }

  lemma RestIsDistinct(list: seq<TimerId>, x: TimerId, rest: seq<TimerId>)
    requires list == [x] + rest && Distinct(list)
    ensures Distinct(rest) && x !in rest && forall y :: y in list <==> y == x || y in rest
  {
    assert forall i :: 0 <= i < |rest| ==> list[i + 1] == rest[i];
    assert list[0] == x;
  }

  lemma FireOne(v: Wheel, list: seq<TimerId>, fired: seq<Firing>, x: TimerId, rest: seq<TimerId>)
    requires list == [x] + rest && Distinct(list) && SetOf(list) <= v.flag
    requires v.fired == fired + FireAll(list, v.now)
    ensures var b := Before(v, list, fired);
      && b.(flag := b.flag + {x}, fired := fired + [Firing(x, v.now)]) == Before(v, rest, fired + [Firing(x, v.now)])
      && v.fired == fired + [Firing(x, v.now)] + FireAll(rest, v.now)
      && SetOf(rest) <= v.flag && Distinct(rest)
  {
    RestIsDistinct(list, x, rest);
    hide Distinct;
    assert FireAll(list, v.now) == [Firing(x, v.now)] + FireAll(rest, v.now);
    assert v.flag - SetOf(list) + {x} == v.flag - SetOf(rest);
  }

  lemma NobodyWaits(v: Wheel, calls: Callbacks, tick: nat, fired: seq<Firing>)
    requires v.Ok() && tick > 0 && v.fired == fired + FireAll([], v.now)
    ensures Before(v, [], fired) == v && DoAll(v, Actions([], calls), tick) == v && !Meddling([], calls)
  {
  }

  lemma ListIsUnfired(w: Wheel)
    requires w.Valid()
    ensures w.flag + SetOf(FiringList(w)) - SetOf(FiringList(w)) == w.flag
  {
    hide Filed, Timed, Ahead, DueMap, Reached;
    DetachedKeeps(Reached(w), Place(0, (w.now + 1) % 256), LEVELS);
  }

  lemma OneTick(w: Wheel, ops: seq<Op>, tick: nat)
    requires w.Valid() && tick > 0 && CanDoAll(ops) && Ticked(w).Valid()
    ensures CanDoAll([Op.Tick] + ops)
    ensures DoAll(w, [Op.Tick] + ops, tick) == DoAll(Ticked(w), ops, tick)
  {
    hide Ticked;
    assert ([Op.Tick] + ops)[1..] == ops;
  }

  // ---------- catching up with the clock ----------

  /** What callbacks do, for every tick. */
  ghost predicate AllProper(calls: nat -> Callbacks) { forall t: nat :: Proper(calls(t)) }

  /** A tick of `w` and what its callbacks do. */
  function TickOps(w: Wheel, calls: nat -> Callbacks): (ops: seq<Op>)
    requires w.Valid() && AllProper(calls)
    ensures CanDoAll(ops) && TickCount(ops) == 1
  {
    ActionsCanBeDone(FiringList(w), calls(w.now + 1));
    OneTickCounts(Actions(FiringList(w), calls(w.now + 1)));
    [Op.Tick] + Actions(FiringList(w), calls(w.now + 1))
  }

  lemma OneTickCounts(ops: seq<Op>)
    requires CanDoAll(ops) && TickCount(ops) == 0
    ensures CanDoAll([Op.Tick] + ops) && TickCount([Op.Tick] + ops) == 1
  {
    assert ([Op.Tick] + ops)[1..] == ops;
  }

  /** After that tick. */
  function AfterTick(w: Wheel, calls: nat -> Callbacks, tick: nat): (r: Wheel)
    requires w.Valid() && AllProper(calls) && tick > 0
    ensures r.Ok()
  {
    DoAll(w, TickOps(w, calls), tick)
  }

  /** The tick hits no unlinked timer, and none of its callbacks touches a timer that waits. */
  predicate CalmTick(w: Wheel, calls: nat -> Callbacks, tick: nat)
    requires w.Valid() && AllProper(calls) && tick > 0
  {
    AfterTick(w, calls, tick).damage == Sound && !Meddling(FiringList(w), calls(w.now + 1))
  }

  /** All of the next `n` ticks are calm. */
  predicate Calm(w: Wheel, n: nat, calls: nat -> Callbacks, tick: nat)
    requires w.Valid() && AllProper(calls) && tick > 0
    decreases n
  {
    n == 0 || (CalmTick(w, calls, tick) && Calm(AfterTick(w, calls, tick), n - 1, calls, tick))
  }

  /** The operations of the next `n` ticks and their callbacks, up to the first tick that is not calm. */
  function RunOps(w: Wheel, n: nat, calls: nat -> Callbacks, tick: nat): seq<Op>
    requires w.Valid() && AllProper(calls) && tick > 0
    decreases n
  {
    if n == 0 then []
    else if CalmTick(w, calls, tick) then TickOps(w, calls) + RunOps(AfterTick(w, calls, tick), n - 1, calls, tick)
    else TickOps(w, calls)
  }

  /** If they are calm, that is a run of the wheel with `n` ticks. */
  lemma {:induction false} CalmRun(w: Wheel, n: nat, calls: nat -> Callbacks, tick: nat)
    requires w.Valid() && AllProper(calls) && tick > 0
    ensures CanDoAll(RunOps(w, n, calls, tick)) && TickCount(RunOps(w, n, calls, tick)) <= n
    ensures Calm(w, n, calls, tick) ==>
      var done := RunOps(w, n, calls, tick);
      DoAll(w, done, tick).damage == Sound && TickCount(done) == n
    decreases n
  {
    hide TickOps, Meddling, Gentle;
    if n > 0 {
      var more := TickOps(w, calls);
      if CalmTick(w, calls, tick) {
        var v := AfterTick(w, calls, tick);
        CalmRun(v, n - 1, calls, tick);
        DoAllConcat(w, more, RunOps(v, n - 1, calls, tick), tick);
        CountConcat(more, RunOps(v, n - 1, calls, tick));
      }
    }
  }

  /** On the way from `w` through `n` ticks: `v` after `done`, with `left` ticks to come. */
  ghost predicate Underway(
      w: Wheel, n: nat, v: Wheel, left: nat, done: seq<Op>, calls: nat -> Callbacks, tick: nat)
    requires w.Valid() && AllProper(calls) && tick > 0
  {
    if v.damage == Sound then
      v.Valid() && CanDoAll(done) && v == DoAll(w, done, tick)
      && done + RunOps(v, left, calls, tick) == RunOps(w, n, calls, tick)
      && (Calm(v, left, calls, tick) <==> Calm(w, n, calls, tick))
    else done == RunOps(w, n, calls, tick) && !Calm(w, n, calls, tick)
  }

  lemma UnderwayStarts(w: Wheel, n: nat, calls: nat -> Callbacks, tick: nat)
    requires w.Valid() && AllProper(calls) && tick > 0
    ensures Underway(w, n, w, n, [], calls, tick)
  {
    assert [] + RunOps(w, n, calls, tick) == RunOps(w, n, calls, tick);
  }

  lemma UnderwayGoesOn(
      w: Wheel, n: nat, v: Wheel, left: nat, done: seq<Op>, u: Wheel, calls: nat -> Callbacks, tick: nat)
    requires w.Valid() && AllProper(calls) && tick > 0
    requires Underway(w, n, v, left + 1, done, calls, tick) && v.Valid()
    requires u.damage == Sound <==> CalmTick(v, calls, tick)
    requires u.damage == Sound ==> u == AfterTick(v, calls, tick)
    ensures Underway(w, n, u, left, done + TickOps(v, calls), calls, tick)
  {
    hide TickOps, CalmTick, AfterTick, DoAll, RunOps, Calm, Wheel.Valid, Wheel.Ok;
    OneMore(v, left + 1, calls, tick);
    if u.damage == Sound {
      OkIsValid(u, v, calls, tick);
      DoneMore(w, v, done, calls, tick);
      var more, rest := TickOps(v, calls), RunOps(u, left, calls, tick);
      assert done + (more + rest) == (done + more) + rest;
    }
  }

  lemma OneMore(w: Wheel, n: nat, calls: nat -> Callbacks, tick: nat)
    requires w.Valid() && AllProper(calls) && tick > 0 && n > 0 && w.damage == Sound
    ensures CalmTick(w, calls, tick) ==> AfterTick(w, calls, tick).Valid()
    ensures Calm(w, n, calls, tick) <==>
      CalmTick(w, calls, tick) && Calm(AfterTick(w, calls, tick), n - 1, calls, tick)
    ensures RunOps(w, n, calls, tick) ==
      if CalmTick(w, calls, tick) then TickOps(w, calls) + RunOps(AfterTick(w, calls, tick), n - 1, calls, tick)
      else TickOps(w, calls)
  {
    hide AfterTick, TickOps, Wheel.Valid;
  }

  lemma DoneMore(w: Wheel, v: Wheel, done: seq<Op>, calls: nat -> Callbacks, tick: nat)
    requires w.Valid() && AllProper(calls) && tick > 0 && CanDoAll(done) && v == DoAll(w, done, tick) && v.Valid()
    ensures CanDoAll(done + TickOps(v, calls))
    ensures AfterTick(v, calls, tick) == DoAll(w, done + TickOps(v, calls), tick)
  {
    hide TickOps, Wheel.Valid, DoAll;
    DoAllConcat(w, done, TickOps(v, calls), tick);
  }

  lemma OkIsValid(u: Wheel, v: Wheel, calls: nat -> Callbacks, tick: nat)
    requires v.Valid() && AllProper(calls) && tick > 0 && u.damage == Sound && u == AfterTick(v, calls, tick)
    ensures u.Valid()
  {
    hide AfterTick, Wheel.Valid;
  }

  lemma UnderwayEnds(
      w: Wheel, n: nat, v: Wheel, left: nat, done: seq<Op>, calls: nat -> Callbacks, tick: nat)
    requires w.Valid() && AllProper(calls) && tick > 0 && CanDoAll(done)
    requires Underway(w, n, v, left, done, calls, tick) && (v.damage == Sound ==> left == 0)
    ensures done == RunOps(w, n, calls, tick) && (v.damage == Sound <==> Calm(w, n, calls, tick))
    ensures v.damage == Sound ==> v == DoAll(w, done, tick)
  {
    if v.damage == Sound {
      assert done + [] == done;
    }
  }

  // ---------- callbacks that mind their own timer ----------

  predicate OwnOps(ops: seq<Op>, x: TimerId) { forall i :: 0 <= i < |ops| ==> !ops[i].Tick? && ops[i].timer == x }

  /** Every callback arms and cancels only the timer it belongs to. */
  ghost predicate MindTheirOwn(calls: nat -> Callbacks) {
    forall t: nat, x: TimerId :: OwnOps(CallsOf(calls(t), x), x)
  }

  lemma PendingKeys(w: Wheel)
    requires w.Valid()
    ensures w.Pending().Keys == w.place.Keys
  {
  }

  /** Whatever a linked or idle timer does to itself hits nobody. */
  lemma {:induction false} OwnOpsAreSound(w: Wheel, ops: seq<Op>, tick: nat, x: TimerId)
    requires w.Valid() && tick > 0 && !Unlinked(w, x) && CanDoAll(ops) && OwnOps(ops, x)
    ensures var r := DoAll(w, ops, tick); r.Valid() && r.place.Keys <= w.place.Keys + {x}
    decreases |ops|
  {
    hide Wheel.Valid, Armed, Cancelled, Wheel.Pending, Ticks;
    NothingDone(w, tick);
    if ops != [] {
      PendingKeys(w);
      match ops[0] {
        case Arm(y, millis) => ArmMeans(w, x, millis, tick);
        case Cancel(y) => CancelMeans(w, x);
      }
      var n := Do(w, ops[0], tick);
      DoMeans(w, ops[0], tick);
      PendingKeys(n);
      OwnOpsAreSound(n, ops[1..], tick, x);
    }
  }

  lemma NothingDone(w: Wheel, tick: nat)
    requires w.Valid() && tick > 0
    ensures w.damage == Sound && w.Ok() && DoAll(w, [], tick) == w
  {
  }

  lemma {:induction false} OwnActionsAreSound(w: Wheel, list: seq<TimerId>, calls: Callbacks, tick: nat)
    requires w.Valid() && tick > 0 && Proper(calls) && Distinct(list)
    requires forall x :: x in list ==> x !in w.place && OwnOps(CallsOf(calls, x), x)
    ensures CanDoAll(Actions(list, calls)) && DoAll(w, Actions(list, calls), tick).damage == Sound
    ensures !Meddling(list, calls)
    decreases |list|
  {
    hide Wheel.Valid, DoAll, Distinct;
    ActionsCanBeDone(list, calls);
    NothingDone(w, tick);
    if list != [] {
      var x, rest := list[0], list[1..];
      RestIsDistinct(list, x, rest);
      var ops := CallsOf(calls, x);
      OwnOpsAreSound(w, ops, tick, x);
      ActionsCanBeDone(rest, calls);
      OwnActionsAreSound(DoAll(w, ops, tick), rest, calls, tick);
      DoAllConcat(w, ops, Actions(rest, calls), tick);
    }
  }

  lemma OwnTickIsCalm(w: Wheel, calls: nat -> Callbacks, tick: nat)
    requires w.Valid() && AllProper(calls) && tick > 0 && MindTheirOwn(calls)
    ensures CalmTick(w, calls, tick)
  {
    hide Wheel.Valid, Ticked, FiringList, DoAll, Actions, Meddling, Distinct, Logs, Wheel.Pending;
    var list, own := FiringList(w), calls(w.now + 1);
    TickedMeans(w, tick);
    ActionsCanBeDone(list, own);
    OwnActionsAreSound(Ticked(w), list, own, tick);
    OneTick(w, Actions(list, own), tick);
  }

  /** Such callbacks never do the wheel any harm, whatever timers are linked. */
  lemma {:induction false} OwnIsCalm(w: Wheel, n: nat, calls: nat -> Callbacks, tick: nat)
    requires w.Valid() && AllProper(calls) && tick > 0 && MindTheirOwn(calls)
    ensures Calm(w, n, calls, tick)
    decreases n
  {
    hide Wheel.Valid, CalmTick, AfterTick;
    if n > 0 {
      OwnTickIsCalm(w, calls, tick);
      CalmIsSound(w, calls, tick);
      OwnIsCalm(AfterTick(w, calls, tick), n - 1, calls, tick);
    }
  }

  lemma CalmIsSound(w: Wheel, calls: nat -> Callbacks, tick: nat)
    requires w.Valid() && AllProper(calls) && tick > 0 && CalmTick(w, calls, tick)
    ensures AfterTick(w, calls, tick).Valid() && w.damage == Sound
  {
    hide Wheel.Valid, AfterTick;
  }

  // ---------- what catching up fires ----------

  lemma {:induction false} UntouchedActions(list: seq<TimerId>, calls: Callbacks, x: TimerId)
    requires forall y :: OwnOps(CallsOf(calls, y), y)
    requires CallsOf(calls, x) == []
    ensures Untouched(Actions(list, calls), x)
  {
    if list != [] {
      UntouchedActions(list[1..], calls, x);
      assert OwnOps(CallsOf(calls, list[0]), list[0]);
    }
  }

  lemma UntouchedTick(w: Wheel, calls: nat -> Callbacks, x: TimerId)
    requires w.Valid() && AllProper(calls) && MindTheirOwn(calls)
    requires forall t: nat :: CallsOf(calls(t), x) == []
    ensures Untouched(TickOps(w, calls), x)
  {
    hide Wheel.Valid, Actions, FiringList;
    UntouchedActions(FiringList(w), calls(w.now + 1), x);
  }

  lemma UntouchedConcat(a: seq<Op>, b: seq<Op>, x: TimerId)
    requires Untouched(a, x) && Untouched(b, x)
    ensures Untouched(a + b, x)
  {
  }

  lemma {:induction false} UntouchedRun(w: Wheel, n: nat, calls: nat -> Callbacks, tick: nat, x: TimerId)
    requires w.Valid() && AllProper(calls) && tick > 0 && MindTheirOwn(calls)
    requires forall t: nat :: CallsOf(calls(t), x) == []
    ensures Untouched(RunOps(w, n, calls, tick), x)
    decreases n
  {
    hide Wheel.Valid, CalmTick, AfterTick, TickOps, Untouched, CallsOf, OwnOps;
    if n == 0 {
      assert Untouched([], x) by { UntouchedNothing(x); }
    } else {
      UntouchedTick(w, calls, x);
      if CalmTick(w, calls, tick) {
        CalmIsSound(w, calls, tick);
        var v := AfterTick(w, calls, tick);
        UntouchedRun(v, n - 1, calls, tick, x);
        UntouchedConcat(TickOps(w, calls), RunOps(v, n - 1, calls, tick), x);
      }
    }
  }

  lemma UntouchedNothing(x: TimerId)
    ensures Untouched([], x)
  {
  }

  /** Between `w` and `r` every pending timer that `done` does not touch has fired in its tick, if that is
      reached, and otherwise still waits for it. */
  ghost predicate FiresWhatIsDue(w: Wheel, done: seq<Op>, r: Wheel) {
    && w.fired <= r.fired
    && forall x :: x in w.Pending() && Untouched(done, x) ==>
         if w.Pending()[x] <= r.now then Firing(x, w.Pending()[x]) in r.fired[|w.fired|..] && x !in r.Pending()
         else x in r.Pending() && r.Pending()[x] == w.Pending()[x]
  }

  lemma UntouchedFire(w: Wheel, done: seq<Op>, tick: nat)
    requires w.Valid() && tick > 0 && CanDoAll(done) && DoAll(w, done, tick).damage == Sound
    ensures FiresWhatIsDue(w, done, DoAll(w, done, tick))
  {
    hide Wheel.Valid, DoAll, Run, Firings, TickCount, Wheel.Pending, Untouched;
    var r, due := DoAll(w, done, tick), w.Pending();
    SoundRun(w, done, tick);
    RunNow(FlatOf(w), done, tick);
    ValidIsAhead(w);
    forall x | x in due && Untouched(done, x)
      ensures if due[x] <= r.now then Firing(x, due[x]) in r.fired[|w.fired|..] && x !in r.Pending()
              else x in r.Pending() && r.Pending()[x] == due[x]
    {
      LeftAloneFiresOnce(FlatOf(w), done, tick, x, due[x]);
    }
  }

  /** Catching up by `n` ticks, with callbacks that mind their own timers, follows the flat map. */
  lemma CatchUpFollows(w: Wheel, n: nat, calls: nat -> Callbacks, tick: nat)
    requires w.Valid() && AllProper(calls) && tick > 0 && MindTheirOwn(calls)
    ensures var done := RunOps(w, n, calls, tick);
      && CanDoAll(done) && TickCount(done) == n
      && var r := DoAll(w, done, tick);
      && r.Valid() && r.now == w.now + n && FlatOf(r) == Run(FlatOf(w), done, tick)
      && Logs(w.fired, r.fired, Firings(FlatOf(w), done, tick))
  {
    hide Wheel.Valid, RunOps, Calm, DoAll, Logs, Run, Firings, TickCount;
    OwnIsCalm(w, n, calls, tick);
    CalmRun(w, n, calls, tick);
    SoundRun(w, RunOps(w, n, calls, tick), tick);
    RunNow(FlatOf(w), RunOps(w, n, calls, tick), tick);
  }

  /** And a timer whose callback does nothing fires once, in its tick, if that tick is reached. */
  lemma CatchUpFires(w: Wheel, n: nat, calls: nat -> Callbacks, tick: nat, x: TimerId, at: nat)
    requires w.Valid() && AllProper(calls) && tick > 0 && MindTheirOwn(calls)
    requires forall t: nat :: CallsOf(calls(t), x) == []
    ensures var done, due := RunOps(w, n, calls, tick), w.Pending();
      && CanDoAll(done)
      && var r := DoAll(w, done, tick);
      && w.fired <= r.fired
      && (Firing(x, at) in r.fired[|w.fired|..] <==> x in due && due[x] == at && at <= w.now + n)
      && (x in r.Pending() <==> x in due && due[x] > w.now + n)
      && (x in r.Pending() ==> r.Pending()[x] == due[x])
  {
    hide Wheel.Valid, RunOps, DoAll, Run, Firings, TickCount, Wheel.Pending, Untouched;
    var done := RunOps(w, n, calls, tick);
    CatchUpFollows(w, n, calls, tick);
    UntouchedRun(w, n, calls, tick, x);
    ValidIsAhead(w);
    LeftAloneFiresOnce(FlatOf(w), done, tick, x, at);
  }

  lemma ValidIsAhead(w: Wheel)
    requires w.Valid()
    ensures Ahead(w.Pending(), w.now)
  {
  }

  /** Without callbacks, catching up by `n` ticks fires exactly the timers due by then, each once and in
      its tick, and leaves exactly the others. */
  lemma QuietCatchUp(w: Wheel, n: nat, calls: nat -> Callbacks, tick: nat)
    requires w.Valid() && AllProper(calls) && tick > 0
    requires forall t: nat, x: TimerId :: CallsOf(calls(t), x) == []
    ensures Calm(w, n, calls, tick)
    ensures var done, due := RunOps(w, n, calls, tick), w.Pending();
      && CanDoAll(done) && TickCount(done) == n
      && var r := DoAll(w, done, tick);
      && r.Valid() && r.now == w.now + n
      && r.Pending() == (map x | x in due && due[x] > w.now + n :: due[x])
      && Logs(w.fired, r.fired, set x | x in due && due[x] <= w.now + n :: Firing(x, due[x]))
  {
    hide Wheel.Valid, RunOps, Calm, DoAll, TickCount, Wheel.Pending, CallsOf;
    assert MindTheirOwn(calls) by {
      forall t: nat, x: TimerId ensures OwnOps(CallsOf(calls(t), x), x) {
      }
    }
    OwnIsCalm(w, n, calls, tick);
    CatchUpFollows(w, n, calls, tick);
    var done, due := RunOps(w, n, calls, tick), w.Pending();
    var r := DoAll(w, done, tick);
    forall x: TimerId, at: nat
      ensures Firing(x, at) in r.fired[|w.fired|..] <==> x in due && due[x] == at && at <= w.now + n
    {
      CatchUpFires(w, n, calls, tick, x, at);
    }
    forall x: TimerId
      ensures x in r.Pending() <==> x in due && due[x] > w.now + n
      ensures x in r.Pending() ==> r.Pending()[x] == due[x]
    {
      CatchUpFires(w, n, calls, tick, x, 0);
    }
    assert r.Pending() == map x | x in due && due[x] > w.now + n :: due[x];
    SameLog(w.fired, r.fired, Firings(FlatOf(w), done, tick), due, w.now + n);
  }

  lemma SameLog(before: seq<Firing>, after: seq<Firing>, s: set<Firing>, due: Due, end: nat)
    requires Logs(before, after, s)
    requires forall x: TimerId, at: nat ::
      Firing(x, at) in after[|before|..] <==> x in due && due[x] == at && at <= end
    ensures Logs(before, after, set x | x in due && due[x] <= end :: Firing(x, due[x]))
  {
    var t := set x | x in due && due[x] <= end :: Firing(x, due[x]);
    forall f ensures f in after[|before|..] <==> f in t {
      assert f == Firing(f.timer, f.at);
    }
  }

  // ---------- a timer that its callback arms again ----------

  /** The callback of `x` arms `x` again for `millis`, in every tick. */
  ghost predicate Beats(calls: nat -> Callbacks, x: TimerId, millis: nat) {
    forall t: nat :: CallsOf(calls(t), x) == [Arm(x, millis)]
  }

  lemma {:induction false} ActionsConcat(a: seq<TimerId>, b: seq<TimerId>, calls: Callbacks)
    ensures Actions(a + b, calls) == Actions(a, calls) + Actions(b, calls)
  {
    if a == [] {
      assert a + b == b;
    } else {
      assert (a + b)[1..] == a[1..] + b;
      ActionsConcat(a[1..], b, calls);
    }
  }

  lemma {:induction false} OthersLeaveAlone(list: seq<TimerId>, calls: Callbacks, x: TimerId)
    requires x !in list && Proper(calls) && forall y :: OwnOps(CallsOf(calls, y), y)
    ensures Untouched(Actions(list, calls), x) && TickCount(Actions(list, calls)) == 0
  {
    ActionsCanBeDone(list, calls);
    if list != [] {
      OthersLeaveAlone(list[1..], calls, x);
      assert OwnOps(CallsOf(calls, list[0]), list[0]);
    }
  }

  /** What does not touch `x` does not matter to it. */
  lemma {:induction false} RearmingSkips(
      s: Flat, a: seq<Op>, b: seq<Op>, tick: nat, x: TimerId, millis: nat, fired: bool)
    requires tick > 0 && Untouched(a, x) && TickCount(a) == 0
    ensures Rearming(s, a + b, tick, x, millis, fired) <==> Rearming(Run(s, a, tick), b, tick, x, millis, fired)
    ensures x in Run(s, a, tick).due <==> x in s.due
    decreases |a|
  {
    if a == [] {
      assert a + b == b;
    } else {
      assert (a + b)[1..] == a[1..] + b && (a + b)[0] == a[0];
      assert Untouched(a[1..], x);
      RearmingSkips(Step(s, a[0], tick), a[1..], b, tick, x, millis, fired);
    }
  }

  lemma ActionsAround(list: seq<TimerId>, k: nat, calls: Callbacks)
    requires k < |list| && Distinct(list)
    ensures Actions(list, calls)
         == Actions(list[..k], calls) + (CallsOf(calls, list[k]) + Actions(list[k + 1..], calls))
    ensures list[k] !in list[..k] && list[k] !in list[k + 1..]
  {
    var x, last := list[k], list[k + 1..];
    assert list == list[..k] + ([x] + last);
    assert ([x] + last)[0] == x && ([x] + last)[1..] == last;
    ActionsConcat(list[..k], [x] + last, calls);
  }

  /** What the callbacks of a tick do to `x`: nothing, or, if `x` has fired, they arm it. */
  lemma BeatActions(s: Flat, list: seq<TimerId>, calls: Callbacks, b: seq<Op>, tick: nat, x: TimerId, millis: nat)
    requires tick > 0 && Proper(calls) && Distinct(list) && forall y :: OwnOps(CallsOf(calls, y), y)
    requires CallsOf(calls, x) == [Arm(x, millis)] && (x in list <==> x !in s.due)
    ensures var e := Run(s, Actions(list, calls), tick);
      && (Rearming(s, Actions(list, calls) + b, tick, x, millis, x in list) <==> Rearming(e, b, tick, x, millis, false))
      && x in e.due
  {
    hide OwnOps, CallsOf, Actions, Rearming, Run, Distinct;
    if x !in list {
      OthersLeaveAlone(list, calls, x);
      RearmingSkips(s, Actions(list, calls), b, tick, x, millis, false);
    } else {
      var k :| 0 <= k < |list| && list[k] == x;
      ActionsAround(list, k, calls);
      OthersLeaveAlone(list[..k], calls, x);
      OthersLeaveAlone(list[k + 1..], calls, x);
      BeatSteps(s, Actions(list[..k], calls), Actions(list[k + 1..], calls), b, tick, x, millis);
    }
  }

  lemma BeatSteps(s: Flat, a: seq<Op>, c: seq<Op>, b: seq<Op>, tick: nat, x: TimerId, millis: nat)
    requires tick > 0 && Untouched(a, x) && TickCount(a) == 0 && Untouched(c, x) && TickCount(c) == 0
    ensures var all := a + ([Arm(x, millis)] + c);
      && (Rearming(s, all + b, tick, x, millis, true) <==> Rearming(Run(s, all, tick), b, tick, x, millis, false))
      && x in Run(s, all, tick).due
  {
    var arm := [Arm(x, millis)];
    assert a + (arm + c) + b == a + (arm + (c + b));
    RearmingSkips(s, a, arm + (c + b), tick, x, millis, true);
    var m := Run(s, a, tick);
    assert (arm + (c + b))[1..] == c + b && (arm + c)[1..] == c;
    RearmingSkips(Step(m, arm[0], tick), c, b, tick, x, millis, false);
    RunConcat(s, a, arm + c, tick);
  }

  lemma BeatTick(w: Wheel, calls: nat -> Callbacks, rest: seq<Op>, tick: nat, x: TimerId, millis: nat)
    requires w.Valid() && AllProper(calls) && tick > 0 && MindTheirOwn(calls) && Beats(calls, x, millis)
    requires x in w.Pending()
    ensures var s, e := FlatOf(w), Run(FlatOf(w), TickOps(w, calls), tick);
      && (Rearming(s, TickOps(w, calls) + rest, tick, x, millis, false) <==> Rearming(e, rest, tick, x, millis, false))
      && x in e.due
  {
    hide Wheel.Valid, Wheel.Pending, FiringList, Actions, CallsOf, Distinct, Logs;
    var list, own := FiringList(w), calls(w.now + 1);
    var acts := Actions(list, own);
    TickedMeans(w, tick);
    FiringIsDue(w, x);
    var s := FlatOf(w);
    var s1 := Step(s, Op.Tick, tick);
    BeatActions(s1, list, own, rest, tick, x, millis);
    assert ([Op.Tick] + acts)[1..] == acts;
    assert ([Op.Tick] + acts + rest)[1..] == acts + rest;
  }

  lemma FiringIsDue(w: Wheel, x: TimerId)
    requires w.Valid() && x in w.Pending()
    ensures x in FiringList(w) <==> w.Pending()[x] == w.now + 1
  {
    hide Filed, Timed, Ahead, Reached, DueMap;
    var c := Reached(w);
    RegroupedIsPending(w.(now := w.now + 1), c, {});
    CurrentSlotIsDue(c.tv, c.expires, c.place, c.now);
  }

  lemma {:induction false} BeatRun(w: Wheel, n: nat, calls: nat -> Callbacks, tick: nat, x: TimerId, millis: nat)
    requires w.Valid() && AllProper(calls) && tick > 0 && MindTheirOwn(calls) && Beats(calls, x, millis)
    requires x in w.Pending()
    ensures Rearming(FlatOf(w), RunOps(w, n, calls, tick), tick, x, millis, false)
    decreases n
  {
    hide Wheel.Valid, CalmTick, AfterTick, TickOps, Wheel.Pending, Beats, MindTheirOwn;
    if n > 0 {
      OwnTickIsCalm(w, calls, tick);
      CalmIsSound(w, calls, tick);
      var v := AfterTick(w, calls, tick);
      TickFollows(w, calls, tick);
      var rest := RunOps(v, n - 1, calls, tick);
      BeatTick(w, calls, rest, tick, x, millis);
      BeatRun(v, n - 1, calls, tick, x, millis);
    }
  }

  lemma TickFollows(w: Wheel, calls: nat -> Callbacks, tick: nat)
    requires w.Valid() && AllProper(calls) && tick > 0 && CalmTick(w, calls, tick)
    ensures FlatOf(AfterTick(w, calls, tick)) == Run(FlatOf(w), TickOps(w, calls), tick)
  {
    hide Wheel.Valid, TickOps, DoAll, Run, Logs, Firings;
    SoundRun(w, TickOps(w, calls), tick);
  }

  /** A timer whose callback arms it again fires first when it was set for and then every `period` ticks,
      the whole ticks that fit into its delay and at least one; nothing else fires it. */
  lemma CatchUpBeats(
      w: Wheel, n: nat, calls: nat -> Callbacks, tick: nat, x: TimerId, millis: nat, period: nat, at: nat)
    requires w.Valid() && AllProper(calls) && tick > 0 && MindTheirOwn(calls) && Beats(calls, x, millis)
    requires x in w.Pending()
    requires period >= 1 && (period * tick <= millis < (period + 1) * tick || (period == 1 && millis < tick))
    ensures var done := RunOps(w, n, calls, tick);
      && CanDoAll(done)
      && var r := DoAll(w, done, tick);
      && w.fired <= r.fired
      && (Firing(x, at) in r.fired[|w.fired|..] <==> at <= w.now + n && OnBeat(w.Pending()[x], period, at))
  {
    hide Wheel.Valid, RunOps, DoAll, Run, Firings, TickCount, Wheel.Pending, OnBeat, Rearming;
    CatchUpFollows(w, n, calls, tick);
    BeatRun(w, n, calls, tick, x, millis);
    ValidIsAhead(w);
    RearmedFiresPeriodically(FlatOf(w), RunOps(w, n, calls, tick), tick, x, millis, period, false, at);
  }
}
