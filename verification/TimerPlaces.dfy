/**
 The places of the hierarchical timing wheel (src/core/timer.h, timer.cc).

 Five wheels of slots: level 0 has 256 slots of one tick, levels 1 to 4 have 64 slots of 2^8, 2^14,
 2^20 and 2^26 ticks.  A timer waits on the level its distance asks for and is moved down a level
 when the clock reaches its slot.
 */
module TimerPlaces {
  import opened Arithmetic
  import opened FlatTimers

  const LEVELS := 5

  function Unit(level: nat): (u: nat)
    requires level < LEVELS
    ensures u > 0
  {
    match level
    case 0 => 1
    case 1 => 0x100
    case 2 => 0x4000
    case 3 => 0x10_0000
    case _ => 0x400_0000
  }

  function Slots(level: nat): nat { if level == 0 then 256 else 64 }

  /** The slot of `level` that the tick `at` falls into: bits of `at`, from the level's shift up. */
  function SlotOf(level: nat, at: nat): (i: nat)
    requires level < LEVELS
    ensures i < Slots(level)
  {
    (at / Unit(level)) % Slots(level)
  }

  datatype Place = Place(level: nat, slot: nat)

  predicate InWheels(p: Place) { p.level < LEVELS && p.slot < Slots(p.level) }

  /** The level for a timer `distance` ticks away. */
  function LevelFor(distance: nat): (level: nat)
    ensures level < LEVELS
  {
    if distance < 0x100 then 0
    else if distance < 0x4000 then 1
    else if distance < 0x10_0000 then 2
    else if distance < 0x400_0000 then 3
    else 4
  }

  /** How many blocks of `level` lie between the clock and the tick `at`. */
  function Blocks(level: nat, now: nat, at: nat): int
    requires level < LEVELS
  {
    at / Unit(level) - now / Unit(level)
  }

  /** A timer for tick `at` may wait in slot `i` of `level`.  On the levels from `uncascaded` on the
      clock may have just reached a block whose timers have not been moved down yet. */
  predicate Fits(level: nat, i: nat, at: nat, now: nat, uncascaded: nat) {
    && level < LEVELS && i == SlotOf(level, at)
    && (if level == 0 then now <= at < now + 256
        else if level >= uncascaded && now % Unit(level) == 0 then 0 <= Blocks(level, now, at) < 64
        else 1 <= Blocks(level, now, at) <= 64)
  }

  /** Where a timer for tick `at` is filed. */
  function Home(at: nat, now: nat): (p: Place)
    requires now <= at
    ensures InWheels(p)
  {
    var level := LevelFor(at - now);
    Place(level, SlotOf(level, at))
  }

  lemma HomeFits(at: nat, now: nat)
    requires now <= at < now + 0x1_0000_0000
    ensures var p := Home(at, now); Fits(p.level, p.slot, at, now, LEVELS)
  {
  }

  /** A timer that is less than a block of `above` away goes below that level. */
  lemma HomeIsBelow(at: nat, now: nat, above: nat)
    requires 1 <= above < LEVELS && now <= at < now + Unit(above)
    ensures var p := Home(at, now); Fits(p.level, p.slot, at, now, above + 1)
  {
  }

  /** When the clock moves on, waiting timers still fit, except that blocks may need a cascade. */
  lemma TickFits(level: nat, i: nat, at: nat, now: nat)
    requires Fits(level, i, at, now, LEVELS) && now < at
    ensures Fits(level, i, at, now + 1, 1)
  {
  }

  /** The timers in the slot that is cascaded are exactly those whose block has been reached. */
  lemma CascadeSlot(level: nat, i: nat, at: nat, now: nat)
    requires 1 <= level && Fits(level, i, at, now, level) && now % Unit(level) == 0
    ensures i == SlotOf(level, now) <==> Blocks(level, now, at) == 0
    ensures i == SlotOf(level, now) ==> now <= at < now + Unit(level)
    ensures i != SlotOf(level, now) ==> Fits(level, i, at, now, level + 1)
  {
  }

  lemma BlockBelow(level: nat, now: nat)
    requires level + 1 < LEVELS && now % Unit(level + 1) == 0
    ensures now % Unit(level) == 0
  {
    var u, c := Unit(level), if level == 0 then 256 else 64;
    var q := now / Unit(level + 1);
    assert Unit(level + 1) == c * u;
    assert now == (c * u) * q == (c * q) * u;
    ModUnique(now, c * q, 0, u);
  }

  lemma {:induction false} BlocksBelow(level: nat, m: nat, now: nat)
    requires level <= m < LEVELS && now % Unit(m) == 0
    ensures now % Unit(level) == 0
    decreases m - level
  {
    if level < m {
      BlocksBelow(level + 1, m, now);
      BlockBelow(level, now);
    }
  }

  lemma NextBlock(level: nat, now: nat)
    requires 1 <= level < LEVELS - 1 && now % Unit(level) == 0
    ensures SlotOf(level, now) == 0 <==> now % Unit(level + 1) == 0
  {
    var u := Unit(level);
    var block := now / u;
    var a, b := block / 64, block % 64;
    assert Unit(level + 1) == 64 * u;
    assert now == u * block == a * (64 * u) + u * b;
    ModUnique(now, a, u * b, 64 * u);
  }

  /** Where a cascade stops, no higher level has reached a new block. */
  lemma CascadeStops(level: nat, m: nat, now: nat)
    requires 1 <= level < m < LEVELS && now % Unit(level) == 0 && SlotOf(level, now) != 0
    ensures now % Unit(m) != 0
  {
    NextBlock(level, now);
    if now % Unit(m) == 0 {
      BlocksBelow(level + 1, m, now);
      assert false;
    }
  }

  // ---------- slots ----------

  type Wheels = seq<seq<seq<TimerId>>>

  predicate Shape(tv: Wheels) {
    |tv| == LEVELS && forall k :: 0 <= k < LEVELS ==> |tv[k]| == Slots(k)
  }

  function At(tv: Wheels, p: Place): seq<TimerId>
    requires Shape(tv) && InWheels(p)
  {
    tv[p.level][p.slot]
  }

  function With(tv: Wheels, p: Place, list: seq<TimerId>): (r: Wheels)
    requires Shape(tv) && InWheels(p)
    ensures Shape(r) && At(r, p) == list
    ensures forall q: Place :: InWheels(q) && q != p ==> At(r, q) == At(tv, q)
  {
    tv[p.level := tv[p.level][p.slot := list]]
  }

  function SetOf(xs: seq<TimerId>): (r: set<TimerId>)
    ensures forall x :: x in r <==> x in xs
  {
    set x | x in xs
  }

  predicate Distinct(s: seq<TimerId>) { forall p, q :: 0 <= p < q < |s| ==> s[p] != s[q] }

  /** Every pending timer is in the list of its place, once, and in no other list. */
  ghost predicate Filed(tv: Wheels, place: map<TimerId, Place>) {
    && Shape(tv)
    && (forall x :: x in place ==> InWheels(place[x]) && x in At(tv, place[x]))
    && (forall p: Place, x :: InWheels(p) && x in At(tv, p) ==> x in place && place[x] == p)
    && (forall p: Place :: InWheels(p) ==> Distinct(At(tv, p)))
  }

  /** Every pending timer waits where the clock will find it in time. */
  ghost predicate Timed(expires: map<TimerId, nat>, place: map<TimerId, Place>, now: nat, uncascaded: nat) {
    forall x :: x in place ==>
      x in expires && Fits(place[x].level, place[x].slot, expires[x], now, uncascaded)
  }

  /** What the wheel stands for: the pending timers and the ticks they are armed for. */
  function DueMap(expires: map<TimerId, nat>, place: map<TimerId, Place>): Due {
    map x | x in place && x in expires :: expires[x]
  }

  lemma DueLess(expires: map<TimerId, nat>, place: map<TimerId, Place>, gone: set<TimerId>)
    ensures DueMap(expires, place - gone) == DueMap(expires, place) - gone
  {
  }

  lemma DueMore(expires: map<TimerId, nat>, place: map<TimerId, Place>, x: TimerId, at: nat, p: Place)
    requires x !in place
    ensures DueMap(expires[x := at], place[x := p]) == DueMap(expires, place)[x := at]
  {
  }

  lemma DueMoved(expires: map<TimerId, nat>, place: map<TimerId, Place>, place': map<TimerId, Place>)
    requires place.Keys == place'.Keys
    ensures DueMap(expires, place') == DueMap(expires, place)
  {
  }

  lemma FiledInsert(tv: Wheels, place: map<TimerId, Place>, x: TimerId, p: Place)
    requires Filed(tv, place) && x !in place && InWheels(p)
    ensures Filed(With(tv, p, [x] + At(tv, p)), place[x := p])
  {
  }

  lemma FiledAt(tv: Wheels, place: map<TimerId, Place>, x: TimerId)
    requires Filed(tv, place) && x in place
    ensures Shape(tv) && InWheels(place[x]) && x in At(tv, place[x])
  {
  }

  /** The timer behind `x` in its slot, if there is one, is another pending timer. */
  lemma FiledBehind(tv: Wheels, place: map<TimerId, Place>, x: TimerId, k: nat)
    requires Filed(tv, place) && x in place && k < |At(tv, place[x])| && At(tv, place[x])[k] == x
    ensures var list := At(tv, place[x]);
      k + 1 < |list| ==> list[k + 1] in place && list[k + 1] != x && list[|list| - 1] != x
  {
  }

  lemma FiledShape(tv: Wheels, place: map<TimerId, Place>)
    requires Filed(tv, place)
    ensures Shape(tv)
  {
  }

  lemma FiledDistinct(tv: Wheels, place: map<TimerId, Place>, p: Place)
    requires Filed(tv, place) && InWheels(p)
    ensures Distinct(At(tv, p)) && SetOf(At(tv, p)) <= place.Keys
  {
  }

  /** A slot without some of its timers. */
  lemma FiledLess(tv: Wheels, place: map<TimerId, Place>, p: Place, less: seq<TimerId>, gone: set<TimerId>)
    requires Filed(tv, place) && InWheels(p) && Distinct(less) && gone <= SetOf(At(tv, p))
    requires forall y :: y in less <==> y in At(tv, p) && y !in gone
    ensures Filed(With(tv, p, less), place - gone)
  {
    var r, left := With(tv, p, less), place - gone;
    assert forall y :: y in gone ==> y in place && place[y] == p;
    forall q: Place, y | InWheels(q) && y in At(r, q) ensures y in left && left[y] == q {
      assert y in At(tv, q);
    }
    forall y | y in left ensures y in At(r, left[y]) {
      assert y in At(tv, place[y]);
    }
    forall q: Place | InWheels(q) ensures Distinct(At(r, q)) {
      assert q != p ==> Distinct(At(tv, q));
    }
  }

  lemma FiledRemove(tv: Wheels, place: map<TimerId, Place>, x: TimerId, k: nat)
    requires Filed(tv, place) && x in place && k < |At(tv, place[x])| && At(tv, place[x])[k] == x
    ensures Filed(With(tv, place[x], At(tv, place[x])[..k] + At(tv, place[x])[k + 1..]), place - {x})
  {
    FiledDistinct(tv, place, place[x]);
    var list := At(tv, place[x]);
    FiledLess(tv, place, place[x], list[..k] + list[k + 1..], {x});
  }

  lemma FiledCut(tv: Wheels, place: map<TimerId, Place>, x: TimerId, k: nat)
    requires Filed(tv, place) && x in place && k < |At(tv, place[x])| && At(tv, place[x])[k] == x
    ensures var list := At(tv, place[x]); Filed(With(tv, place[x], list[..k + 1]), place - SetOf(list[k + 1..]))
  {
    FiledDistinct(tv, place, place[x]);
    var list := At(tv, place[x]);
    assert list == list[..k + 1] + list[k + 1..];
    FiledLess(tv, place, place[x], list[..k + 1], SetOf(list[k + 1..]));
  }

  lemma TimedLess(expires: map<TimerId, nat>, place: map<TimerId, Place>, now: nat, u: nat, gone: set<TimerId>)
    requires Timed(expires, place, now, u)
    ensures Timed(expires, place - gone, now, u)
  {
  }

  lemma TimedRearm(expires: map<TimerId, nat>, place: map<TimerId, Place>, now: nat, u: nat, x: TimerId, at: nat)
    requires Timed(expires, place, now, u) && x !in place
    ensures Timed(expires[x := at], place, now, u)
  {
  }

  lemma TimedInsert(expires: map<TimerId, nat>, place: map<TimerId, Place>, now: nat, u: nat, x: TimerId, p: Place)
    requires Timed(expires, place, now, u) && x in expires && Fits(p.level, p.slot, expires[x], now, u)
    ensures Timed(expires, place[x := p], now, u)
  {
  }

  lemma FiledEmpty(tv: Wheels, place: map<TimerId, Place>, p: Place)
    requires Filed(tv, place) && InWheels(p)
    ensures Filed(With(tv, p, []), place - SetOf(At(tv, p)))
  {
    FiledLess(tv, place, p, [], SetOf(At(tv, p)));
  }

  /** The slot that a cascade takes holds the timers of the block that the clock has reached, and
      without them the level is settled. */
  lemma CascadeTakes(tv: Wheels, place: map<TimerId, Place>, expires: map<TimerId, nat>, now: nat, level: nat)
    requires 1 <= level < LEVELS && now % Unit(level) == 0
    requires Filed(tv, place) && Timed(expires, place, now, level)
    ensures Shape(tv)
    ensures var p := Place(level, SlotOf(level, now));
      var taken := SetOf(At(tv, p));
      && Distinct(At(tv, p))
      && (forall x :: x in At(tv, p) ==> x in place && x in expires && now <= expires[x] < now + Unit(level))
      && Filed(With(tv, p, []), place - taken)
      && Timed(expires, place - taken, now, level + 1)
  {
    var p := Place(level, SlotOf(level, now));
    FiledEmpty(tv, place, p);
    forall x | x in place && place[x].level == level
      ensures place[x] == p ==> now <= expires[x] < now + Unit(level)
      ensures place[x] != p ==> Fits(level, place[x].slot, expires[x], now, level + 1)
    {
      CascadeSlot(level, place[x].slot, expires[x], now);
    }
  }

  /** Between the block boundaries nothing waits for a cascade. */
  lemma NothingToCascade(expires: map<TimerId, nat>, place: map<TimerId, Place>, now: nat)
    requires Timed(expires, place, now, 1) && now % 256 != 0
    ensures Timed(expires, place, now, LEVELS)
  {
    forall x | x in place ensures Fits(place[x].level, place[x].slot, expires[x], now, LEVELS) {
      if place[x].level >= 1 && now % Unit(place[x].level) == 0 {
        BlocksBelow(1, place[x].level, now);
      }
    }
  }

  /** A cascade that does not wrap leaves nothing to do on the higher levels. */
  lemma CascadeSettles(expires: map<TimerId, nat>, place: map<TimerId, Place>, now: nat, level: nat)
    requires 1 <= level < LEVELS && Timed(expires, place, now, level + 1)
    requires now % Unit(level) == 0 && SlotOf(level, now) != 0
    ensures Timed(expires, place, now, LEVELS)
  {
    forall x | x in place ensures Fits(place[x].level, place[x].slot, expires[x], now, LEVELS) {
      if place[x].level > level {
        CascadeStops(level, place[x].level, now);
      }
    }
  }

  /** Once everything is settled, the current slot of level 0 holds the timers due now. */
  lemma CurrentSlotIsDue(tv: Wheels, expires: map<TimerId, nat>, place: map<TimerId, Place>, now: nat)
    requires Filed(tv, place) && Timed(expires, place, now, LEVELS)
    ensures var p := Place(0, now % 256);
      var due := DueMap(expires, place);
      && Shape(tv) && InWheels(p) && Distinct(At(tv, p))
      && forall x :: x in At(tv, p) <==> x in due && due[x] == now
  {
    hide Fits;
    var p := Place(0, now % 256);
    var due := DueMap(expires, place);
    assert forall q: Place :: InWheels(q) ==> Distinct(At(tv, q));
    forall x | x in place ensures x in due && (due[x] == now <==> place[x] == p) {
      SettledIsAhead(place[x].level, place[x].slot, expires[x], now);
    }
  }

  /** Without them, every pending timer is ahead. */
  lemma OthersAreAhead(expires: map<TimerId, nat>, place: map<TimerId, Place>, now: nat, gone: set<TimerId>)
    requires Timed(expires, place, now, LEVELS)
    requires forall x :: x in DueMap(expires, place) && DueMap(expires, place)[x] == now ==> x in gone
    ensures Timed(expires, place - gone, now, LEVELS)
    ensures DueMap(expires, place - gone) == DueMap(expires, place) - gone
    ensures Ahead(DueMap(expires, place - gone), now)
  {
    hide Fits;
    forall x | x in place ensures expires[x] >= now {
      SettledIsAhead(place[x].level, place[x].slot, expires[x], now);
    }
  }

  lemma SettledIsAhead(level: nat, i: nat, at: nat, now: nat)
    requires Fits(level, i, at, now, LEVELS)
    ensures now <= at
    ensures at == now <==> level == 0 && i == now % 256
  {
    if level > 0 && at <= now {
      QuotientMonotone(at, now, Unit(level));
      assert false;
    }
  }

  lemma TickTimed(expires: map<TimerId, nat>, place: map<TimerId, Place>, now: nat)
    requires Timed(expires, place, now, LEVELS) && Ahead(DueMap(expires, place), now)
    ensures Timed(expires, place, now + 1, 1)
  {
    var due := DueMap(expires, place);
    forall x | x in place ensures Fits(place[x].level, place[x].slot, expires[x], now + 1, 1) {
      assert x in due && due[x] == expires[x];
      TickFits(place[x].level, place[x].slot, expires[x], now);
    }
  }

  lemma TicksBound(millis: nat, tick: nat)
    requires tick > 0
    ensures 1 <= Ticks(millis, tick) && (Ticks(millis, tick) <= millis || Ticks(millis, tick) == 1)
  {
    MulMonotone(1, tick, millis + 1);
    QuotientBelow(millis, tick, millis + 1);
  }

  function IndexOf(s: seq<TimerId>, x: TimerId): (k: nat)
    requires x in s
    ensures k < |s| && s[k] == x
  {
    if s[0] == x then 0 else 1 + IndexOf(s[1..], x)
  }

  function EmptyWheels(): (tv: Wheels)
    ensures Filed(tv, map[])
  {
    seq(LEVELS, k requires 0 <= k < LEVELS => seq(Slots(k), _ => []))
  }
}
