/**
 The timing wheel as a value, its operations as functions, and when a run of them does what the flat
 map does (src/core/timer.h, timer.cc).

 A slot is the sequence of the timers that following the pointers from its head gives; module
 `TimerSlots` is about those pointers.  `timer_cancel` leaves the successor of a timer without its
 back link.  Cancelling or arming such a timer damages the wheel; the model shows what the slots are
 right after that and ends there.
 */
module TimerStates {
  import opened Arithmetic
  import opened FlatTimers
  import opened TimerPlaces

  /** `Torn`: a pending timer without its back link has been cancelled or armed.
      `Looped`: and its slot runs into itself. */
  datatype Damage = Sound | Torn | Looped

  datatype Wheel = Wheel(
    tv: Wheels,
    place: map<TimerId, Place>,   // the slot that a pending timer is linked into
    expires: map<TimerId, nat>,   // of every timer ever armed
    flag: set<TimerId>,           // timers whose last arming has fired
    back: set<TimerId>,           // pending timers whose back link is set
    now: nat,
    fired: seq<Firing>,           // callbacks called, in order
    damage: Damage)
  {
    ghost predicate Valid(): (b: bool)
      ensures b ==> damage == Sound && Filed(tv, place) && Shape(tv)
    {
      && damage == Sound
      && Filed(tv, place) && place.Keys !! flag && back <= place.Keys
      && Timed(expires, place, now, LEVELS)
      && Ahead(Pending(), now)
    }

    /** Sound as long as it is modelled. */
    ghost predicate Ok() { damage == Sound ==> Valid() }

    function Pending(): Due { DueMap(expires, place) }
  }

  const EMPTY := Wheel(EmptyWheels(), map[], map[], {}, {}, 0, [], Sound)

  // ---------- filing ----------

  /** `x` in front of a slot: the old front gets its back link from `x`. */
  function Put(w: Wheel, p: Place, x: TimerId): (r: Wheel)
    requires Shape(w.tv) && InWheels(p)
    ensures Shape(r.tv)
  {
    var list := At(w.tv, p);
    w.(tv := With(w.tv, p, [x] + list), place := w.place[x := p],
       back := w.back + {x} + if list == [] then {} else {list[0]})
  }

  function File(w: Wheel, x: TimerId): (r: Wheel)
    requires Shape(w.tv) && x in w.expires && w.now <= w.expires[x]
    ensures Shape(r.tv)
  {
    Put(w, Home(w.expires[x], w.now), x)
  }

  /** Every timer that `xs` files is armed for the current tick or later. */
  predicate Fileable(w: Wheel, xs: seq<TimerId>) {
    forall x :: x in xs ==> x in w.expires && w.now <= w.expires[x]
  }

  function FileAll(w: Wheel, xs: seq<TimerId>): (r: Wheel)
    requires Shape(w.tv) && Fileable(w, xs)
    ensures Shape(r.tv)
    decreases |xs|
  {
    if xs == [] then w else FileAll(File(w, xs[0]), xs[1..])
  }

  // ---------- cancelling and arming ----------

  /** Is `x` in a slot without knowing who points at it? */
  predicate Unlinked(w: Wheel, x: TimerId) { x in w.place && x !in w.back }

  /** After `timer_cancel`.  The back link of `x` is cleared before it is copied to the successor.  An
      unlinked timer stays in its slot and cuts off what was behind it. */
  function Cancelled(w: Wheel, x: TimerId): (r: Wheel)
    requires Filed(w.tv, w.place)
    ensures Filed(r.tv, r.place)
  {
    if x in w.flag || x !in w.place then w
    else
      FiledAt(w.tv, w.place, x);
      var p := w.place[x];
      var list := At(w.tv, p);
      var k := IndexOf(list, x);
      if x in w.back then
        FiledRemove(w.tv, w.place, x, k);
        w.(tv := With(w.tv, p, list[..k] + list[k + 1..]), place := w.place - {x},
           back := w.back - {x} - if k + 1 < |list| then {list[k + 1]} else {})
      else
        FiledCut(w.tv, w.place, x, k);
        var lost := SetOf(list[k + 1..]);
        w.(tv := With(w.tv, p, list[..k + 1]), place := w.place - lost, back := w.back - lost, damage := Torn)
  }

  /** After `AddTimer`.  An unlinked timer hangs in its old slot as well, which so runs into the new
      one; if they are the same slot, into itself. */
  function Armed(w: Wheel, x: TimerId, millis: nat, tick: nat): Wheel
    requires Filed(w.tv, w.place) && tick > 0
  {
    var c := Cancelled(w, x);
    var at := w.now + Ticks(millis, tick);
    var r := c.(expires := c.expires[x := at], flag := c.flag - {x});
    var p := Home(at, w.now);
    if x !in c.place then Put(r, p, x)
    else
      FiledAt(c.tv, c.place, x);
      var from := c.place[x];
      if from == p then r.(damage := Looped)
      else Put(r.(tv := With(c.tv, from, At(c.tv, from) + At(c.tv, p))), p, x)
  }

  // ---------- what filing does ----------

  /** Every pending timer is in one slot, where the clock will find it in time. */
  ghost predicate Settled(w: Wheel, u: nat): (b: bool)
    ensures b ==> Shape(w.tv)
  {
    Filed(w.tv, w.place) && Timed(w.expires, w.place, w.now, u) && w.back <= w.place.Keys
  }

  /** `x` is armed for the current tick or later, and its home suits it. */
  ghost predicate Homely(w: Wheel, x: TimerId, u: nat) {
    && x in w.expires && w.now <= w.expires[x] && x !in w.place
    && var p := Home(w.expires[x], w.now); Fits(p.level, p.slot, w.expires[x], w.now, u)
  }

  /** `r` is `w` with the timers `xs` filed: they are pending and linked, and nobody has been lost. */
  ghost predicate Gains(w: Wheel, r: Wheel, xs: set<TimerId>) {
    && r.place.Keys == w.place.Keys + xs
    && w.back + xs <= r.back
    && r.(tv := w.tv, place := w.place, back := w.back) == w
  }

  lemma DistinctTail(xs: seq<TimerId>)
    requires Distinct(xs) && xs != []
    ensures Distinct(xs[1..]) && forall x :: x in xs[1..] ==> x in xs && x != xs[0]
  {
  }

  lemma GainsNothing(w: Wheel)
    ensures Gains(w, w, SetOf([]))
  {
  }

  lemma HomelyIsFileable(w: Wheel, xs: seq<TimerId>, u: nat)
    requires forall x :: x in xs ==> Homely(w, x, u)
    ensures Fileable(w, xs)
  {
  }

  lemma GainsMore(w: Wheel, m: Wheel, r: Wheel, x: TimerId, xs: seq<TimerId>)
    requires Gains(w, m, {x}) && Gains(m, r, SetOf(xs))
    ensures Gains(w, r, SetOf([x] + xs))
  {
  }

  lemma FileKeeps(w: Wheel, x: TimerId, u: nat)
    requires Settled(w, u) && Homely(w, x, u)
    ensures var r := File(w, x);
      && Settled(r, u) && Gains(w, r, {x})
      && forall y :: y != x && Homely(w, y, u) ==> Homely(r, y, u)
  {
    hide Timed, Fits, Home;
    var p := Home(w.expires[x], w.now);
    FiledInsert(w.tv, w.place, x, p);
    TimedInsert(w.expires, w.place, w.now, u, x, p);
  }

  /** Every timer of `xs` is filed, once. */
  lemma {:induction false} FileAllKeeps(w: Wheel, xs: seq<TimerId>, u: nat)
    requires Settled(w, u) && Distinct(xs) && forall x :: x in xs ==> Homely(w, x, u)
    ensures Fileable(w, xs)
    ensures var r := FileAll(w, xs); Settled(r, u) && Gains(w, r, SetOf(xs))
    decreases |xs|
  {
    hide Settled, Homely, Put, File, Gains, Shape, SetOf, Distinct, Fileable;
    HomelyIsFileable(w, xs, u);
    if xs == [] {
      GainsNothing(w);
    } else {
      assert Homely(w, xs[0], u);
      var f := File(w, xs[0]);
      FileKeeps(w, xs[0], u);
      DistinctTail(xs);
      FileAllKeeps(f, xs[1..], u);
      GainsMore(w, f, FileAll(f, xs[1..]), xs[0], xs[1..]);
      assert xs == [xs[0]] + xs[1..];
    }
  }

  // ---------- a tick ----------

  /** A slot taken out of the wheel: its timers wait for what is done with them. */
  function Detached(w: Wheel, p: Place): (r: Wheel)
    requires Shape(w.tv) && InWheels(p)
    ensures Shape(r.tv)
  {
    var xs := SetOf(At(w.tv, p));
    w.(tv := With(w.tv, p, []), place := w.place - xs, back := w.back - xs)
  }

  lemma DetachedKeeps(w: Wheel, p: Place, u: nat)
    requires Settled(w, u) && InWheels(p)
    ensures var d := Detached(w, p);
      && Filed(d.tv, d.place) && d.back <= d.place.Keys
      && Distinct(At(w.tv, p)) && SetOf(At(w.tv, p)) <= w.place.Keys
  {
    FiledEmpty(w.tv, w.place, p);
  }

  /** The same timers are pending, and all that were linked or are in `xs` are linked. */
  ghost predicate Regrouped(w: Wheel, r: Wheel, xs: set<TimerId>) {
    && r.place.Keys == w.place.Keys
    && w.back + xs <= r.back
    && r.(tv := w.tv, place := w.place, back := w.back) == w
  }

  lemma CascadeReady(w: Wheel, level: nat)
    requires 1 <= level < LEVELS && w.now % Unit(level) == 0 && Settled(w, level)
    ensures var p := Place(level, SlotOf(level, w.now));
      var list, d := At(w.tv, p), Detached(w, p);
      && InWheels(p) && Settled(d, level + 1) && Distinct(list)
      && forall x :: x in list ==> Homely(d, x, level + 1)
  {
    hide Filed, Timed, Fits, Home;
    var p := Place(level, SlotOf(level, w.now));
    CascadeTakes(w.tv, w.place, w.expires, w.now, level);
    DetachedKeeps(w, p, level);
    forall x | x in At(w.tv, p) ensures Homely(Detached(w, p), x, level + 1) {
      HomeIsBelow(w.expires[x], w.now, level);
    }
  }

  /** The slot of `level` that has been reached, emptied and its timers filed anew. */
  function Cascade(w: Wheel, level: nat): (r: Wheel)
    requires 1 <= level < LEVELS && w.now % Unit(level) == 0 && Settled(w, level)
    ensures Settled(r, level + 1)
    ensures Regrouped(w, r, SetOf(At(w.tv, Place(level, SlotOf(level, w.now)))))
  {
    CascadeReady(w, level);
    var p := Place(level, SlotOf(level, w.now));
    var list, d := At(w.tv, p), Detached(w, p);
    FileAllKeeps(d, list, level + 1);
    DetachedKeeps(w, p, level);
    CascadeRegroups(w, d, FileAll(d, list), list);
    FileAll(d, list)
  }

  lemma CascadeRegroups(w: Wheel, d: Wheel, r: Wheel, list: seq<TimerId>)
    requires SetOf(list) <= w.place.Keys && Gains(d, r, SetOf(list))
    requires d == w.(tv := d.tv, place := w.place - SetOf(list), back := w.back - SetOf(list))
    ensures Regrouped(w, r, SetOf(list))
  {
  }

  /** Cascading from `level` on: a slot that is the first of its level starts a block of the next. */
  function CascadeFrom(w: Wheel, level: nat): (r: Wheel)
    requires 1 <= level < LEVELS && w.now % Unit(level) == 0 && Settled(w, level)
    ensures Settled(r, LEVELS) && Regrouped(w, r, {})
    decreases LEVELS - level
  {
    hide Timed, Filed, SlotOf;
    var c := Cascade(w, level);
    if SlotOf(level, w.now) == 0 && level + 1 < LEVELS then
      NextBlock(level, w.now);
      CascadeFrom(c, level + 1)
    else
      CascadeEnds(c, level);
      c
  }

  lemma CascadeEnds(c: Wheel, level: nat)
    requires 1 <= level < LEVELS && c.now % Unit(level) == 0 && Settled(c, level + 1)
    requires SlotOf(level, c.now) != 0 || level + 1 == LEVELS
    ensures Settled(c, LEVELS)
  {
    hide Timed;
    if level + 1 < LEVELS {
      CascadeSettles(c.expires, c.place, c.now, level);
    }
  }

  lemma Moved(w: Wheel)
    requires w.Valid()
    ensures var t := w.(now := w.now + 1);
      && Settled(t, 1) && (t.now % 256 != 0 ==> Settled(t, LEVELS))
  {
    hide Filed, Timed;
    TickTimed(w.expires, w.place, w.now);
    if (w.now + 1) % 256 != 0 {
      NothingToCascade(w.expires, w.place, w.now + 1);
    }
  }

  /** The clock one tick on, and every block that it has reached moved down. */
  function Reached(w: Wheel): (r: Wheel)
    requires w.Valid()
    ensures Settled(r, LEVELS) && Regrouped(w.(now := w.now + 1), r, {})
  {
    Moved(w);
    var t := w.(now := w.now + 1);
    if t.now % 256 == 0 then CascadeFrom(t, 1) else t
  }

  /** The timers that the next tick fires, in order. */
  function FiringList(w: Wheel): seq<TimerId>
    requires w.Valid()
  {
    At(Reached(w).tv, Place(0, (w.now + 1) % 256))
  }

  /** After `Tick`, before the callbacks have done anything. */
  function Ticked(w: Wheel): Wheel
    requires w.Valid()
  {
    var list := FiringList(w);
    var d := Detached(Reached(w), Place(0, (w.now + 1) % 256));
    d.(flag := d.flag + SetOf(list), fired := d.fired + FireAll(list, d.now))
  }

  lemma RegroupedIsPending(w: Wheel, r: Wheel, xs: set<TimerId>)
    requires Regrouped(w, r, xs)
    ensures r.Pending() == w.Pending()
  {
    DueMoved(w.expires, w.place, r.place);
  }

  /** A tick fires exactly the timers that are due, each once, and keeps the others and their links. */
  lemma TickedMeans(w: Wheel, tick: nat)
    requires w.Valid() && tick > 0
    ensures var r, list := Ticked(w), FiringList(w);
      && r.Valid()
      && Flat(r.Pending(), r.now) == Step(Flat(w.Pending(), w.now), Tick, tick)
      && Distinct(list) && Logs(w.fired, r.fired, Fires(w.Pending(), r.now))
      && r.place.Keys == w.place.Keys - SetOf(list) && w.back - SetOf(list) <= r.back
      && r.flag == w.flag + SetOf(list) && r.expires == w.expires
  {
    hide Filed, Timed, Ahead, Logs, Reached, DueMap;
    var c, list, r := Reached(w), FiringList(w), Ticked(w);
    var p := Place(0, c.now % 256);
    RegroupedIsPending(w.(now := w.now + 1), c, {});
    CurrentSlotIsDue(c.tv, c.expires, c.place, c.now);
    DetachedKeeps(c, p, LEVELS);
    OthersAreAhead(c.expires, c.place, c.now, SetOf(list));
    LogsBatch(w.fired, list, w.Pending(), c.now);
    assert r.Pending() == Step(Flat(w.Pending(), w.now), Tick, tick).due;
  }

  // ---------- cancelling and arming a timer that is linked, or not pending ----------

  lemma CancelMeans(w: Wheel, x: TimerId)
    requires w.Valid() && !Unlinked(w, x)
    ensures var r := Cancelled(w, x);
      r.Valid() && r.Pending() == w.Pending() - {x} && x !in r.place && r.expires == w.expires && r.now == w.now
  {
    hide Filed, Timed, Ahead;
    DueLess(w.expires, w.place, {x});
    TimedLess(w.expires, w.place, w.now, LEVELS, {x});
    if x in w.place {
      FiledAt(w.tv, w.place, x);
      FiledBehind(w.tv, w.place, x, IndexOf(At(w.tv, w.place[x]), x));
      AheadLess(w.Pending(), w.now, {x});
    } else {
      assert w.place - {x} == w.place;
    }
  }

  lemma AheadLess(due: Due, now: nat, gone: set<TimerId>)
    requires Ahead(due, now)
    ensures Ahead(due - gone, now)
  {
  }

  lemma ArmMeans(w: Wheel, x: TimerId, millis: nat, tick: nat)
    requires w.Valid() && !Unlinked(w, x) && tick > 0 && millis < 0x1_0000_0000
    ensures var r := Armed(w, x, millis, tick);
      && r.Valid() && x in r.back
      && r.Pending() == w.Pending()[x := w.now + Ticks(millis, tick)] && r.now == w.now
      && IsDelay(r.Pending()[x] - w.now, millis, tick)
  {
    hide Filed, Timed, Ticks, Home, IsDelay;
    CancelMeans(w, x);
    TicksBound(millis, tick);
    DelayIsTicks(Ticks(millis, tick), millis, tick);
    var c, at := Cancelled(w, x), w.now + Ticks(millis, tick);
    var r := c.(expires := c.expires[x := at], flag := c.flag - {x});
    TimedRearm(c.expires, c.place, c.now, LEVELS, x, at);
    HomeFits(at, w.now);
    FileKeeps(r, x, LEVELS);
    DueMore(c.expires, c.place, x, at, Home(at, w.now));
  }

  // ---------- runs ----------

  predicate CanDo(op: Op) { op.Arm? ==> op.millis < 0x1_0000_0000 }

  /** The operation cancels or arms a pending timer that has lost its back link. */
  predicate Hits(w: Wheel, op: Op) { !op.Tick? && Unlinked(w, op.timer) }

  function FiresOf(s: Flat, op: Op): set<Firing> { if op.Tick? then Fires(s.due, s.now + 1) else {} }

  /** What the flat map sees of a wheel. */
  function FlatOf(w: Wheel): Flat { Flat(w.Pending(), w.now) }

  /** An operation that hits no unlinked timer does to the wheel what it does to the flat map. */
  lemma DoMeans(w: Wheel, op: Op, tick: nat)
    requires w.Valid() && tick > 0 && CanDo(op)
    ensures var r := Do(w, op, tick);
      if Hits(w, op) then r.damage != Sound
      else r.Valid() && FlatOf(r) == Step(FlatOf(w), op, tick) && Logs(w.fired, r.fired, FiresOf(FlatOf(w), op))
  {
    hide Filed, Timed, Ahead, DueMap, Ticks, Home, Logs;
    LogsNothing(w.fired);
    match op
    case Tick => TickedMeans(w, tick);
    case Arm(x, millis) =>
      if !Unlinked(w, x) {
        ArmMeans(w, x, millis, tick);
      }
    case Cancel(x) =>
      if !Unlinked(w, x) {
        CancelMeans(w, x);
      }
  }

  function Do(w: Wheel, op: Op, tick: nat): Wheel
    requires w.Ok() && tick > 0
  {
    if w.damage != Sound then w
    else match op
      case Tick => Ticked(w)
      case Arm(x, millis) => Armed(w, x, millis, tick)
      case Cancel(x) => Cancelled(w, x)
  }

  predicate CanDoAll(ops: seq<Op>) { forall i :: 0 <= i < |ops| ==> CanDo(ops[i]) }

  lemma DoIsOk(w: Wheel, op: Op, tick: nat)
    requires w.Ok() && tick > 0 && CanDo(op)
    ensures Do(w, op, tick).Ok()
  {
    if w.damage == Sound {
      DoMeans(w, op, tick);
    }
  }

  /** The wheel after a run, or up to its first damage. */
  function DoAll(w: Wheel, ops: seq<Op>, tick: nat): (r: Wheel)
    requires w.Ok() && tick > 0 && CanDoAll(ops)
    ensures r.Ok()
    decreases |ops|
  {
    if ops == [] then w
    else
      DoIsOk(w, ops[0], tick);
      DoAll(Do(w, ops[0], tick), ops[1..], tick)
  }

  /** No operation of the run hits an unlinked timer. */
  predicate Gentle(w: Wheel, ops: seq<Op>, tick: nat)
    requires w.Ok() && tick > 0 && CanDoAll(ops)
    decreases |ops|
  {
    if ops == [] then true
    else
      DoIsOk(w, ops[0], tick);
      !Hits(w, ops[0]) && Gentle(Do(w, ops[0], tick), ops[1..], tick)
  }

  /** The slots hold exactly the pending timers of `s`, each once. */
  ghost predicate StandsFor(w: Wheel, s: Flat) {
    && w.damage != Looped && w.now == s.now
    && exists place :: Filed(w.tv, place) && place.Keys <= w.expires.Keys && DueMap(w.expires, place) == s.due
  }

  /** The wheel stands for the flat map before, between and after the operations of the run. */
  ghost predicate Follows(w: Wheel, s: Flat, ops: seq<Op>, tick: nat)
    requires w.Ok() && tick > 0 && CanDoAll(ops)
    decreases |ops|
  {
    if ops == [] then StandsFor(w, s)
    else
      DoIsOk(w, ops[0], tick);
      StandsFor(w, s) && Follows(Do(w, ops[0], tick), Step(s, ops[0], tick), ops[1..], tick)
  }

  // ---------- what a hit does ----------

  /** Cancelling an unlinked timer leaves it in its slot, and what was behind it in none. */
  lemma CancelHit(w: Wheel, x: TimerId)
    requires w.Valid() && Unlinked(w, x)
    ensures Shape(w.tv) && InWheels(w.place[x]) && x in At(w.tv, w.place[x])
    ensures var r, p, list := Cancelled(w, x), w.place[x], At(w.tv, w.place[x]);
      var kept, lost := list[..IndexOf(list, x) + 1], list[IndexOf(list, x) + 1..];
      && r.tv == With(w.tv, p, kept) && x in kept
      && r.place == w.place - SetOf(lost) && r.place.Keys == w.place.Keys - SetOf(lost) && x in r.place
      && r.back == w.back - SetOf(lost)
      && r.damage == Torn && r.expires == w.expires && r.now == w.now && r.flag == w.flag && r.fired == w.fired
  {
    hide Timed, Ahead, Filed, At, With, IndexOf, Distinct;
    FiledAt(w.tv, w.place, x);
    FiledDistinct(w.tv, w.place, w.place[x]);
    CutBehind(At(w.tv, w.place[x]), x);
  }

  lemma CutBehind(list: seq<TimerId>, x: TimerId)
    requires Distinct(list) && x in list
    ensures x in list[..IndexOf(list, x) + 1] && x !in list[IndexOf(list, x) + 1..]
  {
    assert list[..IndexOf(list, x) + 1][IndexOf(list, x)] == x;
  }

  /** Arming an unlinked timer makes its old slot run into the new one: the timers of the new slot
      hang in both, and fire or cascade with whichever comes first. */
  lemma ArmHit(w: Wheel, x: TimerId, millis: nat, tick: nat)
    requires w.Valid() && Unlinked(w, x) && tick > 0
    ensures Shape(w.tv) && InWheels(w.place[x]) && x in At(w.tv, w.place[x])
    ensures var r, p, list := Armed(w, x, millis, tick), w.place[x], At(w.tv, w.place[x]);
      var q := Home(w.now + Ticks(millis, tick), w.now);
      if p == q then r.damage == Looped
      else
        && r.damage == Torn && Shape(r.tv)
        && At(r.tv, p) == list[..IndexOf(list, x) + 1] + At(w.tv, q)
        && At(r.tv, q) == [x] + At(w.tv, q)
  {
    hide Ticks, Home, Timed, Ahead, Filed, Cancelled, With, At, IndexOf, Shape, Wheel.Valid;
    CancelHit(w, x);
    var p, q := w.place[x], Home(w.now + Ticks(millis, tick), w.now);
    if p != q {
      SlotsJoin(w.tv, p, q, At(w.tv, p)[..IndexOf(At(w.tv, p), x) + 1], x);
    }
  }

  /** Slot `p` cut down to `kept` and run into slot `q`, with `x` put in front of `q`. */
  lemma SlotsJoin(tv: Wheels, p: Place, q: Place, kept: seq<TimerId>, x: TimerId)
    requires Shape(tv) && InWheels(p) && InWheels(q) && p != q
    ensures var c := With(tv, p, kept);
      var j := With(c, p, At(c, p) + At(c, q));
      var r := With(j, q, [x] + At(j, q));
      At(r, p) == kept + At(tv, q) && At(r, q) == [x] + At(tv, q)
  {
  }

  /** Right after a hit some slot holds a timer that is not pending, or a timer is in two slots, or a
      slot has no end. */
  lemma HitShows(w: Wheel, op: Op, tick: nat)
    requires w.Valid() && tick > 0 && CanDo(op) && Hits(w, op)
    ensures !StandsFor(Do(w, op, tick), Step(FlatOf(w), op, tick))
  {
    hide StandsFor, Cancelled, Armed;
    match op
    case Arm(x, millis) => ArmHitShows(w, x, millis, tick);
    case Cancel(x) => CancelHitShows(w, x, tick);
  }

  lemma ArmHitShows(w: Wheel, x: TimerId, millis: nat, tick: nat)
    requires w.Valid() && Unlinked(w, x) && tick > 0
    ensures !StandsFor(Armed(w, x, millis, tick), Step(FlatOf(w), Arm(x, millis), tick))
  {
    hide Timed, Ticks, Home, Ahead, Armed, Filed, With, DueMap;
    ArmHit(w, x, millis, tick);
    var r := Armed(w, x, millis, tick);
    if r.damage != Looped {
      FiledDistinct(w.tv, w.place, w.place[x]);
      CutBehind(At(w.tv, w.place[x]), x);
      NotInTwoSlots(r.tv, w.place[x], Home(w.now + Ticks(millis, tick), w.now), x);
    }
  }

  lemma CancelHitShows(w: Wheel, x: TimerId, tick: nat)
    requires w.Valid() && Unlinked(w, x) && tick > 0
    ensures !StandsFor(Cancelled(w, x), Step(FlatOf(w), Cancel(x), tick))
  {
    hide Timed, Ahead, Cancelled, IndexOf, Distinct;
    CancelHit(w, x);
    var r, s := Cancelled(w, x), Step(FlatOf(w), Cancel(x), tick);
    assert x in At(r.tv, w.place[x]);
    forall place | Filed(r.tv, place) && place.Keys <= r.expires.Keys ensures DueMap(r.expires, place) != s.due {
      assert x in DueMap(r.expires, place) && x !in s.due;
    }
  }

  lemma NotInTwoSlots(tv: Wheels, p: Place, q: Place, x: TimerId)
    requires Shape(tv) && InWheels(p) && InWheels(q) && p != q && x in At(tv, p) && x in At(tv, q)
    ensures forall place :: !Filed(tv, place)
  {
    forall place ensures !Filed(tv, place) {
      OneSlot(tv, place, p, q, x);
    }
  }

  lemma OneSlot(tv: Wheels, place: map<TimerId, Place>, p: Place, q: Place, x: TimerId)
    requires Shape(tv) && InWheels(p) && InWheels(q) && x in At(tv, p) && x in At(tv, q)
    ensures Filed(tv, place) ==> p == q
  {
    assert Filed(tv, place) ==> x in place && place[x] == p;
  }

  /** The wheel follows the flat map through a run of arming, cancelling and ticks if and only if no
      operation hits a pending timer that has lost its back link. */
  lemma {:induction false} FollowsExactly(w: Wheel, ops: seq<Op>, tick: nat)
    requires w.Valid() && tick > 0 && CanDoAll(ops)
    ensures Follows(w, FlatOf(w), ops, tick) <==> Gentle(w, ops, tick)
    ensures Gentle(w, ops, tick) ==>
      var r := DoAll(w, ops, tick);
      r.Valid() && FlatOf(r) == Run(FlatOf(w), ops, tick) && Logs(w.fired, r.fired, Firings(FlatOf(w), ops, tick))
    decreases |ops|
  {
    hide Filed, Timed, Ahead, DueMap, Do, Logs;
    ValidStands(w);
    if ops == [] {
      LogsNothing(w.fired);
    } else {
      DoMeans(w, ops[0], tick);
      DoIsOk(w, ops[0], tick);
      if Hits(w, ops[0]) {
        HitShows(w, ops[0], tick);
      } else {
        var n := Do(w, ops[0], tick);
        FollowsExactly(n, ops[1..], tick);
        if Gentle(w, ops, tick) {
          FiringsAhead(FlatOf(n), ops[1..], tick);
          FiresNow(FlatOf(w), ops[0], tick);
          LogsCompose(
            w.fired, n.fired, DoAll(n, ops[1..], tick).fired,
            FiresOf(FlatOf(w), ops[0]), Firings(FlatOf(n), ops[1..], tick));
        }
      }
    }
  }

  lemma FiresNow(s: Flat, op: Op, tick: nat)
    requires tick > 0
    ensures forall f :: f in FiresOf(s, op) ==> f.at <= Step(s, op, tick).now
  {
  }

  lemma ValidStands(w: Wheel)
    requires w.Valid()
    ensures StandsFor(w, FlatOf(w))
  {
  }

  /** A run that leaves the wheel sound has hit nobody. */
  lemma {:induction false} SoundIsGentle(w: Wheel, ops: seq<Op>, tick: nat)
    requires w.Valid() && tick > 0 && CanDoAll(ops)
    ensures DoAll(w, ops, tick).damage == Sound <==> Gentle(w, ops, tick)
    decreases |ops|
  {
    hide Do, Filed, Timed, Ahead, DueMap;
    if ops != [] {
      DoMeans(w, ops[0], tick);
      var n := Do(w, ops[0], tick);
      if Hits(w, ops[0]) {
        DamageStays(n, ops[1..], tick);
      } else {
        SoundIsGentle(n, ops[1..], tick);
      }
    }
  }

  /** What a run that leaves the wheel sound has done. */
  lemma SoundRun(w: Wheel, ops: seq<Op>, tick: nat)
    requires w.Valid() && tick > 0 && CanDoAll(ops) && DoAll(w, ops, tick).damage == Sound
    ensures var r := DoAll(w, ops, tick);
      r.Valid() && FlatOf(r) == Run(FlatOf(w), ops, tick) && Logs(w.fired, r.fired, Firings(FlatOf(w), ops, tick))
  {
    SoundIsGentle(w, ops, tick);
    FollowsExactly(w, ops, tick);
  }

  lemma {:induction false} DamageStays(w: Wheel, ops: seq<Op>, tick: nat)
    requires w.damage != Sound && tick > 0 && CanDoAll(ops)
    ensures DoAll(w, ops, tick) == w
    decreases |ops|
  {
    if ops != [] {
      DamageStays(w, ops[1..], tick);
    }
  }

  lemma {:induction false} DoAllConcat(w: Wheel, a: seq<Op>, b: seq<Op>, tick: nat)
    requires w.Ok() && tick > 0 && CanDoAll(a) && CanDoAll(b)
    ensures CanDoAll(a + b) && DoAll(w, a + b, tick) == DoAll(DoAll(w, a, tick), b, tick)
    decreases |a|
  {
    hide Do, Wheel.Ok;
    assert CanDoAll(a + b);
    if a == [] {
      assert a + b == b;
    } else {
      assert (a + b)[1..] == a[1..] + b;
      DoIsOk(w, a[0], tick);
      DoAllConcat(Do(w, a[0], tick), a[1..], b, tick);
    }
  }

  // ---------- back links ----------

  /** Is `y` right behind `x` in a slot? */
  predicate IsBehind(w: Wheel, x: TimerId, y: TimerId)
    requires Filed(w.tv, w.place)
  {
    x in w.place && x !in w.flag &&
    (FiledAt(w.tv, w.place, x);
     var list := At(w.tv, w.place[x]);
     var k := IndexOf(list, x);
     k + 1 < |list| && list[k + 1] == y)
  }

  predicate IsFront(w: Wheel, p: Place, y: TimerId)
    requires Shape(w.tv) && InWheels(p)
  {
    At(w.tv, p) != [] && At(w.tv, p)[0] == y
  }

  /** Cancelling unlinks the successor and nobody else. */
  lemma LinksAfterCancel(w: Wheel, x: TimerId, y: TimerId)
    requires w.Valid() && !Unlinked(w, x) && y in Cancelled(w, x).place
    ensures y in Cancelled(w, x).back <==> y in w.back && !IsBehind(w, x, y)
  {
    hide Timed, Ahead;
  }

  /** Arming does that too if the timer is pending, and links the timer and the old front of its slot. */
  lemma LinksAfterArm(w: Wheel, x: TimerId, millis: nat, tick: nat, y: TimerId)
    requires w.Valid() && tick > 0 && !Unlinked(w, x) && y in Armed(w, x, millis, tick).place
    ensures y in Armed(w, x, millis, tick).back <==>
      || y == x || (y in w.back && !IsBehind(w, x, y))
      || IsFront(Cancelled(w, x), Home(w.now + Ticks(millis, tick), w.now), y)
  {
    hide Timed, Ahead, Home, Ticks, Cancelled, IsBehind, Filed, DueMap;
    CancelMeans(w, x);
    if y != x {
      LinksAfterCancel(w, x, y);
    }
  }

  /** A tick unlinks nobody who is still pending. */
  lemma LinksAfterTick(w: Wheel, y: TimerId)
    requires w.Valid() && y in Ticked(w).place && y in w.back
    ensures y in Ticked(w).back
  {
    TickedMeans(w, 1);
  }

  /** The common case of two timers: armed one after the other for the same time, the second armed
      again for another slot.  Then the first is in its slot without a back link, and cancelling or
      arming it again is a hit. */
  lemma TwoTimersHit(w: Wheel, a: TimerId, b: TimerId, m: nat, m': nat, tick: nat)
    requires w.Valid() && tick > 0 && a != b && a !in w.place && b !in w.place
    requires m < 0x1_0000_0000 && m' < 0x1_0000_0000
    requires Home(w.now + Ticks(m, tick), w.now) != Home(w.now + Ticks(m', tick), w.now)
    ensures var ops := [Arm(a, m)] + ([Arm(b, m)] + ([Arm(b, m')] + []));
      CanDoAll(ops) && Gentle(w, ops, tick) && Unlinked(DoAll(w, ops, tick), a)
  {
    hide Wheel.Valid, Wheel.Ok, Armed, Home, Ticks;
    TwoArmed(w, a, b, m, m', tick);
    var w1 := Armed(w, a, m, tick);
    var w2 := Armed(w1, b, m, tick);
    ThenDo(w2, Arm(b, m'), [], tick);
    ThenDo(w1, Arm(b, m), [Arm(b, m')] + [], tick);
    ThenDo(w, Arm(a, m), [Arm(b, m)] + ([Arm(b, m')] + []), tick);
  }

  lemma TwoArmed(w: Wheel, a: TimerId, b: TimerId, m: nat, m': nat, tick: nat)
    requires w.Valid() && tick > 0 && a != b && a !in w.place && b !in w.place
    requires m < 0x1_0000_0000 && m' < 0x1_0000_0000
    requires Home(w.now + Ticks(m, tick), w.now) != Home(w.now + Ticks(m', tick), w.now)
    ensures var w1 := Armed(w, a, m, tick);
      && w.damage == Sound && w1.Valid() && w1.damage == Sound && b !in w1.place
      && var w2 := Armed(w1, b, m, tick);
      && w2.Valid() && w2.damage == Sound && !Unlinked(w2, b)
      && var w3 := Armed(w2, b, m', tick);
      w3.Valid() && Unlinked(w3, a)
  {
    hide Wheel.Valid, Ticks, Home, Filed, Shape, At, Cancelled, Armed;
    FirstArm(w, a, m, tick);
    var w1 := Armed(w, a, m, tick);
    FirstArm(w1, b, m, tick);
    var w2 := Armed(w1, b, m, tick);
    ArmMeans(w2, b, m', tick);
    SecondIsUnlinked(w2, b, a, m', tick);
  }

  lemma ThenDo(w: Wheel, op: Op, ops: seq<Op>, tick: nat)
    requires w.Valid() && tick > 0 && CanDo(op) && CanDoAll(ops)
    ensures CanDoAll([op] + ops) && Do(w, op, tick).Ok()
    ensures DoAll(w, [op] + ops, tick) == DoAll(Do(w, op, tick), ops, tick)
    ensures Gentle(w, [op] + ops, tick) <==> !Hits(w, op) && Gentle(Do(w, op, tick), ops, tick)
  {
    hide Do, Wheel.Ok, Wheel.Valid, Hits;
    assert ([op] + ops)[1..] == ops;
    ValidIsOk(w);
    DoIsOk(w, op, tick);
  }

  lemma ValidIsOk(w: Wheel)
    requires w.Valid()
    ensures w.Ok()
  {
  }

  lemma FirstArm(w: Wheel, x: TimerId, millis: nat, tick: nat)
    requires w.Valid() && tick > 0 && millis < 0x1_0000_0000 && x !in w.place
    ensures var r, p := Armed(w, x, millis, tick), Home(w.now + Ticks(millis, tick), w.now);
      r.Valid() && r.now == w.now && r.place == w.place[x := p] && x in r.back && At(r.tv, p) == [x] + At(w.tv, p)
  {
    hide Ticks, Home, Timed, Ahead, DueMap;
    ArmMeans(w, x, millis, tick);
  }

  lemma SecondIsUnlinked(w: Wheel, x: TimerId, y: TimerId, millis: nat, tick: nat)
    requires w.Valid() && tick > 0 && millis < 0x1_0000_0000 && x in w.back
    requires var p := w.place[x];
      && InWheels(p) && Shape(w.tv) && |At(w.tv, p)| >= 2 && At(w.tv, p)[0] == x && At(w.tv, p)[1] == y
      && p != Home(w.now + Ticks(millis, tick), w.now)
    ensures Unlinked(Armed(w, x, millis, tick), y)
  {
    hide Ticks, Home, Timed, Ahead, DueMap;
  }
}
