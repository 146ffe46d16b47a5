/**
 The hierarchical timing wheel as the program has it (src/core/timer.h, timer.cc).

 What the callbacks of a tick do is given: for every timer the timers it arms and cancels.  The model
 ends, with `damage` set, when a timer without its back link is cancelled or armed, or when a callback
 touches a timer that waits to be fired in the same tick.
 */
module TimerWheels {
  import opened Clock
  import opened FlatTimers
  import opened TimerPlaces
  import opened TimerStates
  import opened TimerRuns

  class TimeWheel {
    const tick_: nat
    const start: TimeSpec
    var tv: Wheels
    var place: map<TimerId, Place>
    var expires: map<TimerId, nat>
    var flag: set<TimerId>
    var back: set<TimerId>
    var current_tick_: nat
    var next_timeout_: TimeSpec
    var timeout_cache_: seq<TimeSpec>
    var damage: Damage
    ghost var fired: seq<Firing>

    ghost function View(): Wheel
      reads this
    {
      Wheel(tv, place, expires, flag, back, current_tick_, fired, damage)
    }

    /** The deadlines of the next four ticks are at hand. */
    ghost predicate Clocked()
      reads this
    {
      && tick_ > 0 && start.Normal()
      && Ring(timeout_cache_, start, tick_, current_tick_)
      && IsDeadline(next_timeout_, start, tick_, current_tick_ + 3)
    }

    constructor (tick: nat, clock: TimeSpec)
      requires tick > 0 && clock.Normal()
      ensures Clocked() && tick_ == tick && start == clock
      ensures View() == EMPTY && View().Valid() && View().Pending() == map[]
    {
      hide Deadline, Ring, Filed;
      tick_, start := tick, clock;
      tv := EmptyWheels();
      place, expires, flag, back := map[], map[], {}, {};
      current_tick_, damage, fired := 0, Sound, [];
      var t, cache := clock, [];
      for i := 0 to TIME_CACHE_SIZE
        invariant |cache| == i && t.Normal() && (if i == 0 then t == clock else IsDeadline(t, clock, tick, i - 1))
        invariant forall j :: 0 <= j < i ==> IsDeadline(cache[j], clock, tick, j)
      {
        if i == 0 {
          FirstDeadline(clock, tick);
        } else {
          DeadlineAfter(t, clock, tick, i - 1);
        }
        t := AddMillis(t, tick);
        cache := cache + [t];
      }
      RingStarts(cache, clock, tick);
      next_timeout_, timeout_cache_ := t, cache;
    }

    method Insert(p: Place, x: TimerId)
      requires Shape(tv) && InWheels(p)
      modifies `tv, `place, `back
      ensures View() == Put(old(View()), p, x)
    {
      var list := tv[p.level][p.slot];
      if list != [] {
        back := back + {list[0]};
      }
      back := back + {x};
      tv := With(tv, p, [x] + list);
      place := place[x := p];
    }

    method TimerAdd(x: TimerId)
      requires Shape(tv) && x in expires && current_tick_ <= expires[x]
      modifies `tv, `place, `back
      ensures View() == File(old(View()), x)
    {
      var distance := expires[x] - current_tick_;
      if distance < 0x100 {
        Insert(Place(0, SlotOf(0, expires[x])), x);
      } else if distance < 0x4000 {
        Insert(Place(1, SlotOf(1, expires[x])), x);
      } else if distance < 0x10_0000 {
        Insert(Place(2, SlotOf(2, expires[x])), x);
      } else if distance < 0x400_0000 {
        Insert(Place(3, SlotOf(3, expires[x])), x);
      } else {
        Insert(Place(4, SlotOf(4, expires[x])), x);
      }
    }

    /** Unlink `x`.  The back link of `x` is cleared before it is copied to the successor, so the
        successor is left without one. */
    method TimerCancel(x: TimerId)
      requires View().Valid()
      modifies `tv, `place, `back, `damage
      ensures View() == Cancelled(old(View()), x)
      ensures if old(Unlinked(View(), x)) then damage == Torn
              else View().Valid() && View().Pending() == old(View().Pending()) - {x}
    {
      hide Filed, Timed, Ahead, DueMap, IndexOf, With, At;
      ghost var w := View();
      if !Unlinked(w, x) {
        CancelMeans(w, x);
      }
      if x in flag || x !in place { return; }
      FiledAt(tv, place, x);
      var p := place[x];
      var list := At(tv, p);
      var k := IndexOf(list, x);
      if x in back {
        back := back - {x};
        tv := With(tv, p, list[..k] + list[k + 1..]);
        place := place - {x};
        if k + 1 < |list| {
          back := back - {list[k + 1]};
        }
      } else {
        tv := With(tv, p, list[..k + 1]);
        place := place - SetOf(list[k + 1..]);
        back := back - SetOf(list[k + 1..]);
        damage := Torn;
      }
    }

    /** Arm `x` to fire `millis` milliseconds from now. */
    method AddTimer(x: TimerId, millis: nat)
      requires View().Valid() && tick_ > 0 && millis < 0x1_0000_0000
      modifies `tv, `place, `back, `expires, `flag, `damage
      ensures View() == Armed(old(View()), x, millis, tick_)
      ensures if old(Unlinked(View(), x)) then damage != Sound
              else
                && View().Valid() && x in View().Pending()
                && View().Pending() == old(View().Pending())[x := View().Pending()[x]]
                && IsDelay(View().Pending()[x] - current_tick_, millis, tick_)
    {
      hide Ticks, IsDelay, Home, Timed, Ahead, Filed, DueMap, Cancelled, Put, With, At, Shape, InWheels;
      ghost var w := View();
      if !Unlinked(w, x) {
        ArmMeans(w, x, millis, tick_);
      }
      TimerCancel(x);
      FiledShape(tv, place);
      var ticks := millis / tick_;
      if ticks == 0 {
        ticks := 1;
      }
      TicksAre(millis, tick_);
      expires := expires[x := current_tick_ + ticks];
      flag := flag - {x};
      if x in place {
        // Nothing has taken `x` out of its old slot, which goes on with whatever `x` is put in front of.
        FiledAt(tv, place, x);
        var from, p := place[x], Home(expires[x], current_tick_);
        if from == p {
          damage := Looped;
          return;
        }
        tv := With(tv, from, At(tv, from) + At(tv, p));
      }
      TimerAdd(x);
    }

    /** Take the timers of one slot and file each of them anew. */
    method TimerCascade(level: nat, index: nat)
      requires 1 <= level < LEVELS && current_tick_ % Unit(level) == 0 && index == SlotOf(level, current_tick_)
      requires Settled(View(), level)
      modifies `tv, `place, `back
      ensures View() == Cascade(old(View()), level)
    {
      hide Settled, Homely, File, With, At, SlotOf, Distinct;
      CascadeReady(View(), level);
      var p := Place(level, index);
      var list := At(tv, p);
      tv := With(tv, p, []);
      place := place - SetOf(list);
      back := back - SetOf(list);
      HomelyIsFileable(View(), list, level + 1);
      ghost var d := View();
      for j := 0 to |list|
        invariant Shape(tv) && Fileable(View(), list[j..]) && FileAll(View(), list[j..]) == FileAll(d, list)
      {
        assert list[j..][0] == list[j] && list[j..][1..] == list[j + 1..];
        TimerAdd(list[j]);
      }
    }

    /** Move down every block that the clock has just reached, level by level. */
    method CascadeAll()
      requires current_tick_ % 256 == 0 && Settled(View(), 1)
      modifies `tv, `place, `back
      ensures View() == CascadeFrom(old(View()), 1)
    {
      hide Settled, Cascade, SlotOf;
      ghost var w := View();
      var i, cascade := 0, 0;
      while true
        invariant i < 4 && current_tick_ % Unit(i + 1) == 0 && Settled(View(), i + 1)
        invariant CascadeFrom(View(), i + 1) == CascadeFrom(w, 1)
        decreases 4 - i
      {
        cascade := SlotOf(i + 1, current_tick_);
        TimerCascade(i + 1, cascade);
        if cascade != 0 || i + 1 >= 4 {
          break;
        }
        NextBlock(i + 1, current_tick_);
        i := i + 1;
      }
    }

    method AdvanceClock()
      requires Clocked()
      modifies `next_timeout_, `timeout_cache_, `current_tick_
      ensures Clocked() && current_tick_ == old(current_tick_) + 1
    {
      hide Deadline;
      DeadlineAfter(next_timeout_, start, tick_, current_tick_ + 3);
      RingMoves(timeout_cache_, start, tick_, current_tick_, AddMillis(next_timeout_, tick_));
      next_timeout_ := AddMillis(next_timeout_, tick_);
      timeout_cache_ := timeout_cache_[current_tick_ % TIME_CACHE_SIZE := next_timeout_];
      current_tick_ := current_tick_ + 1;
    }

    /** Run a callback while the timers `waiting` are still to be fired. */
    method Callback(ops: seq<Op>, waiting: seq<TimerId>, ghost w: Wheel)
      requires w.Valid() && View() == Before(w, waiting, fired) && tick_ > 0
      requires CanDoAll(ops) && forall i :: 0 <= i < |ops| ==> !ops[i].Tick?
      modifies `tv, `place, `back, `expires, `flag, `damage
      ensures var r := DoAll(w, ops, tick_);
        && (damage == Sound <==> r.damage == Sound && !Touches(ops, waiting))
        && (damage == Sound ==> View() == Before(r, waiting, fired))
    {
      hide Filed, Timed, Ahead, DueMap, Cancelled, Armed;
      ghost var v := w;
      for i := 0 to |ops|
        invariant v.Valid() && View() == Before(v, waiting, fired) && !Touches(ops[..i], waiting)
        invariant DoAll(v, ops[i..], tick_) == DoAll(w, ops, tick_)
      {
        assert ops[i..][0] == ops[i] && ops[i..][1..] == ops[i + 1..];
        if ops[i].timer in waiting {
          damage := Torn;
          return;
        }
        DoBefore(v, ops[i], tick_, waiting, fired);
        DoMeans(v, ops[i], tick_);
        DoMeans(View(), ops[i], tick_);
        v := Do(v, ops[i], tick_);
        match ops[i] {
          case Arm(x, millis) => AddTimer(x, millis);
          case Cancel(x) => TimerCancel(x);
        }
        if damage != Sound {
          DamageStays(v, ops[i + 1..], tick_);
          return;
        }
      }
      assert ops[..|ops|] == ops;
    }

    /** Walk a detached list of timers: fire each and run its callback. */
    method FireList(list: seq<TimerId>, calls: Callbacks, ghost w: Wheel)
      requires w.Valid() && tick_ > 0 && Proper(calls) && Distinct(list)
      requires View() == Before(w, list, fired) && w.fired == fired + FireAll(list, current_tick_)
      requires SetOf(list) <= w.flag
      modifies `tv, `place, `back, `expires, `flag, `damage, `fired
      ensures CanDoAll(Actions(list, calls))
      ensures var r := DoAll(w, Actions(list, calls), tick_);
        && (damage == Sound <==> r.damage == Sound && !Meddling(list, calls))
        && (damage == Sound ==> View() == r)
    {
      hide Filed, Timed, Ahead, DueMap, Distinct, SetOf, DoAll, Touches, Gentle;
      ActionsCanBeDone(list, calls);
      ghost var v := w;
      for j := 0 to |list|
        invariant v.Valid() && View() == Before(v, list[j..], fired) && SetOf(list[j..]) <= v.flag
        invariant v.fired == fired + FireAll(list[j..], current_tick_) && Distinct(list[j..])
        invariant CanDoAll(Actions(list[j..], calls))
        invariant DoAll(v, Actions(list[j..], calls), tick_) == DoAll(w, Actions(list, calls), tick_)
        invariant Meddling(list[j..], calls) <==> Meddling(list, calls)
      {
        var x, rest := list[j], list[j + 1..];
        assert list[j..][0] == x && list[j..][1..] == rest;
        FireOne(v, list[j..], fired, x, rest);
        flag := flag + {x};
        fired := fired + [Firing(x, current_tick_)];
        ghost var ops := CallsOf(calls, x);
        ActionsCanBeDone(rest, calls);
        DoAllConcat(v, ops, Actions(rest, calls), tick_);
        Callback(CallsOf(calls, x), rest, v);
        ghost var r := DoAll(v, ops, tick_);
        if damage != Sound {
          if r.damage != Sound {
            DamageStays(r, Actions(rest, calls), tick_);
          }
          return;
        }
        DoAllElsewhere(v, ops, tick_, rest);
        v := r;
      }
      assert list[|list|..] == [];
      NobodyWaits(v, calls, tick_, fired);
    }

    /** Fire the timers of the current slot of level 0, in the order of its list. */
    method FireSlot(index: nat, calls: Callbacks, ghost w: Wheel)
      requires w.Valid() && View() == Reached(w) && index == current_tick_ % 256
      requires tick_ > 0 && Proper(calls)
      modifies `tv, `place, `back, `expires, `flag, `damage, `fired
      ensures CanDoAll(Actions(FiringList(w), calls)) && Ticked(w).Valid()
      ensures var list := FiringList(w);
        var r := DoAll(Ticked(w), Actions(list, calls), tick_);
        && (damage == Sound <==> r.damage == Sound && !Meddling(list, calls))
        && (damage == Sound ==> View() == r)
    {
      hide Filed, Timed, Ahead, DueMap, Distinct, With, At, Reached, Meddling, DoAll, Actions;
      TickedMeans(w, tick_);
      FiledShape(tv, place);
      var p := Place(0, index);
      var list := At(tv, p);
      ListIsUnfired(w);
      tv := With(tv, p, []);
      place := place - SetOf(list);
      back := back - SetOf(list);
      FireList(list, calls, Ticked(w));
    }

    /** Let one tick pass. */
    method Tick(calls: Callbacks)
      requires View().Valid() && Clocked() && Proper(calls)
      modifies this
      ensures Clocked() && current_tick_ == old(current_tick_) + 1
      ensures CanDoAll(Actions(FiringList(old(View())), calls))
      ensures var list := FiringList(old(View()));
        var r := DoAll(old(View()), [Op.Tick] + Actions(list, calls), tick_);
        && (damage == Sound <==> r.damage == Sound && !Meddling(list, calls))
        && (damage == Sound ==> View() == r)
    {
      hide Filed, Timed, Ahead, DueMap, Ring, IsDeadline, Settled, CascadeFrom, Meddling, DoAll, Actions;
      ghost var w := View();
      Moved(w);
      AdvanceClock();
      var index := current_tick_ % 256;
      if index == 0 {
        CascadeAll();
      }
      FireSlot(index, calls, w);
      OneTick(w, Actions(FiringList(w), calls), tick_);
    }

    /** Catch up with the clock, which never goes back, tick by tick. */
    method Update(now: TimeSpec, calls: nat -> Callbacks) returns (ghost done: seq<Op>)
      requires View().Valid() && Clocked() && start.Nanos() <= now.Nanos()
      requires AllProper(calls)
      modifies this
      ensures Clocked() && CanDoAll(done) && current_tick_ == old(current_tick_) + TickCount(done)
      // What is done: the ticks up to the clock, each with its callbacks, as long as they are calm.
      ensures var w, n := old(View()), TicksBehind(start, now, tick_, old(current_tick_));
        done == RunOps(w, n, calls, tick_) && (damage == Sound <==> Calm(w, n, calls, tick_))
      ensures damage == Sound ==>
        && View().Valid() && View() == DoAll(old(View()), done, tick_)
        && FlatOf(View()) == Run(old(FlatOf(View())), done, tick_)
        && Logs(old(fired), fired, Firings(old(FlatOf(View())), done, tick_))
      // The current tick catches up with the clock and never goes back.
      ensures damage == Sound ==>
        var elapsed := (now.Millis() - start.Millis()) / tick_;
        current_tick_ == if elapsed > old(current_tick_) then elapsed else old(current_tick_)
      ensures damage == Sound && now.Normal() ==>
        forall i: nat :: now.Nanos() >= Deadline(start, tick_, i) ==> current_tick_ >= i + 1
      ensures damage == Sound ==> FiresWhatIsDue(old(View()), done, View())
    {
      hide Filed, Timed, Ahead, DueMap, Ring, IsDeadline, DoAll, Logs, Run, Firings, Reached, Meddling, Underway,
        Calm, RunOps, FiringList, Actions, Wheel.Valid, TimeSpec.Millis, Deadline, FiresWhatIsDue;
      ghost var w := View();
      ghost var n := TicksBehind(start, now, tick_, current_tick_);
      var target := (now.Millis() - start.Millis()) / tick_;
      done := [];
      ghost var left := n;
      UnderwayStarts(w, n, calls, tick_);
      while current_tick_ < target && damage == Sound
        invariant Clocked() && left == TicksBehind(start, now, tick_, current_tick_)
        invariant n == left + TickCount(done) && current_tick_ == w.now + TickCount(done) && CanDoAll(done)
        invariant Underway(w, n, View(), left, done, calls, tick_) && (damage == Sound ==> View().Valid())
      {
        ghost var v := View();
        ghost var more := TickOps(v, calls);
        var t := current_tick_ + 1;
        Tick(calls(t));
        CountConcat(done, more);
        left := left - 1;
        UnderwayGoesOn(w, n, v, left, done, View(), calls, tick_);
        done := done + more;
        if damage == Sound {
          OkIsValid(View(), v, calls, tick_);
        }
      }
      UnderwayEnds(w, n, View(), left, done, calls, tick_);
      if damage == Sound {
        SoundRun(w, done, tick_);
        UntouchedFire(w, done, tick_);
        DeadlinesAreReached(start, now, tick_, current_tick_);
      }
    }
  }
}
