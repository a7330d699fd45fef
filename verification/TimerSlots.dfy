/** The slots of the timing wheel: where a timer belongs at a time, and which slot a tick empties.

    Ticks are counted without bound; the wheel itself sees them modulo 2^32. */
module TimerSlots {

  const TIME_NEAR := 256
  const TIME_LEVEL := 64
  const WRAP := 0x1_0000_0000

  /** Delays are those of a signed 32-bit integer. */
  const MAXDELAY := 0x8000_0000

  datatype Slot = Near(idx: nat) | Level(i: nat, idx: nat)

  /** How many ticks a slot of level `i` spans; at level 4, all there are. */
  function Span(i: nat): (n: nat)
    requires i <= 4
    ensures n > 0
  {
    match i
    case 0 => 256
    case 1 => 16384
    case 2 => 1048576
    case 3 => 67108864
    case _ => WRAP
  }

  /** Do two times agree but for what is below a multiple of `n`, a power of two? */
  predicate SameBlock(a: nat, b: nat, n: nat)
    requires n > 0
  {
    a / n == b / n
  }

  /** The level for a time outside the near slots. */
  function LevelOf(time: nat, current: nat): (i: nat)
    ensures i <= 3
  {
    if SameBlock(time, current, Span(1)) then 0
    else if SameBlock(time, current, Span(2)) then 1
    else if SameBlock(time, current, Span(3)) then 2
    else 3
  }

  /** The slot of level `i` for a time. */
  function IndexAt(time: nat, i: nat): (idx: nat)
    requires i <= 3
    ensures idx < TIME_LEVEL
  {
    (time / Span(i)) % TIME_LEVEL
  }

  /** The slot for an expiry time, both times of 32 bits. */
  function Place(time: nat, current: nat): Slot {
    if SameBlock(time, current, TIME_NEAR) then Near(time % TIME_NEAR)
    else var i := LevelOf(time, current); Level(i, IndexAt(time, i))
  }

  /** The slot that is moved when the time becomes `ct`, if one is: that of the highest level whose
      lower levels have all come round. */
  datatype Move = Nothing | List(i: nat, idx: nat)

  function MoveAt(ct: nat): (m: Move)
    ensures m.List? ==> m.i <= 3 && m.idx < TIME_LEVEL
  {
    if ct == 0 then List(3, 0)
    else if ct % Span(0) != 0 then Nothing
    else if IndexAt(ct, 0) != 0 then List(0, IndexAt(ct, 0))
    else if IndexAt(ct, 1) != 0 then List(1, IndexAt(ct, 1))
    else if IndexAt(ct, 2) != 0 then List(2, IndexAt(ct, 2))
    else if IndexAt(ct, 3) != 0 then List(3, IndexAt(ct, 3))
    else Nothing
  }

  /** A tick as the wheel sees it. */
  function Clock(tick: nat): (time: nat)
    ensures time < WRAP
  {
    tick % WRAP
  }

  function SlotOf(now: nat, due: nat): Slot { Place(Clock(due), Clock(now)) }

  /** A timer that is not overdue, and not due later than any delay can make it. */
  predicate Pending(now: nat, due: nat) { now <= due < now + MAXDELAY }

  // ---------------------------------------------------------------- one tick

  /** `e` is not before `c`, going round, by less than half of all ticks. */
  predicate Ahead(e: nat, c: nat) {
    e < WRAP && c < WRAP && if e >= c then e - c < MAXDELAY else e + WRAP - c < MAXDELAY
  }

  lemma PendingAhead(now: nat, due: nat)
    requires Pending(now, due)
    ensures Ahead(Clock(due), Clock(now))
  {
  }

  /** How coarse a slot is. */
  function Height(s: Slot): nat { if s.Near? then 0 else s.i + 1 }

  function NextTime(c: nat): nat { if c + 1 == WRAP then 0 else c + 1 }

  // The digits of a time: near slot, then the slot of each level.

  function Digit(a: nat, j: nat): (d: nat)
    requires j <= 4
  {
    if j == 0 then a % 256 else (a / Span(j - 1)) % 64
  }

  lemma Digits(a: nat)
    requires a < WRAP
    ensures Digit(a, 0) < 256 && Digit(a, 1) < 64 && Digit(a, 2) < 64 && Digit(a, 3) < 64 && Digit(a, 4) < 64
    ensures a / 67108864 == Digit(a, 4)
    ensures a / 1048576 == Digit(a, 3) + 64 * Digit(a, 4)
    ensures a / 16384 == Digit(a, 2) + 64 * Digit(a, 3) + 4096 * Digit(a, 4)
    ensures a / 256 == Digit(a, 1) + 64 * Digit(a, 2) + 4096 * Digit(a, 3) + 262144 * Digit(a, 4)
    ensures a == Digit(a, 0) + 256 * Digit(a, 1) + 16384 * Digit(a, 2) + 1048576 * Digit(a, 3) + 67108864 * Digit(a, 4)
  {
    assert a / 16384 == a / 256 / 64;
    assert a / 1048576 == a / 16384 / 64;
    assert a / 67108864 == a / 1048576 / 64;
  }

  /** The place of a time, by the highest digit in which it differs from the current one. */
  function PlaceByDigits(e: nat, c: nat): Slot {
    if Digit(e, 4) != Digit(c, 4) then Level(3, Digit(e, 4))
    else if Digit(e, 3) != Digit(c, 3) then Level(2, Digit(e, 3))
    else if Digit(e, 2) != Digit(c, 2) then Level(1, Digit(e, 2))
    else if Digit(e, 1) != Digit(c, 1) then Level(0, Digit(e, 1))
    else Near(Digit(e, 0))
  }

  lemma PlaceDigits(e: nat, c: nat)
    requires e < WRAP && c < WRAP
    ensures Place(e, c) == PlaceByDigits(e, c)
  {
    Digits(e);
    Digits(c);
  }

  /** Times agree in the digits above digit `j`. */
  predicate SameAbove(a: nat, b: nat, j: nat) {
    && (j < 4 ==> Digit(a, 4) == Digit(b, 4)) && (j < 3 ==> Digit(a, 3) == Digit(b, 3))
    && (j < 2 ==> Digit(a, 2) == Digit(b, 2)) && (j < 1 ==> Digit(a, 1) == Digit(b, 1))
  }

  /** The digits below digit `j` are zero. */
  predicate ZeroBelow(a: nat, j: nat) {
    && (j > 0 ==> Digit(a, 0) == 0) && (j > 1 ==> Digit(a, 1) == 0)
    && (j > 2 ==> Digit(a, 2) == 0) && (j > 3 ==> Digit(a, 3) == 0)
  }

  /** Counting on from `c` to `d` carries into digit `j`. */
  predicate Carries(c: nat, d: nat, j: nat)
    requires j <= 4
  {
    ZeroBelow(d, j) && Digit(d, j) == Digit(c, j) + 1 && SameAbove(c, d, j)
  }

  /** Counting on by one carries into the next group exactly when the last one comes round. */
  lemma CountOn(a: nat)
    ensures (a + 1) % 256 != 0 ==> (a + 1) / 256 == a / 256
    ensures (a + 1) % 256 == 0 ==> (a + 1) / 256 == a / 256 + 1
    ensures (a + 1) % 64 != 0 ==> (a + 1) / 64 == a / 64 && (a + 1) % 64 == a % 64 + 1
    ensures (a + 1) % 64 == 0 ==> (a + 1) / 64 == a / 64 + 1
  {
  }

  lemma Groups(a: nat)
    ensures a / 16384 == a / 256 / 64 && a / 1048576 == a / 16384 / 64 && a / 67108864 == a / 1048576 / 64
  {
  }

  /** The digit that counting on carries into. */
  function CarryDigit(d: nat): (j: nat)
    ensures j <= 4
  {
    if Digit(d, 0) != 0 then 0
    else if Digit(d, 1) != 0 then 1
    else if Digit(d, 2) != 0 then 2
    else if Digit(d, 3) != 0 then 3
    else 4
  }

  lemma SameGroups(a: nat, b: nat)
    ensures a / 256 == b / 256 ==> SameAbove(a, b, 0)
    ensures a / 16384 == b / 16384 ==> SameAbove(a, b, 1)
    ensures a / 1048576 == b / 1048576 ==> SameAbove(a, b, 2)
    ensures a / 67108864 == b / 67108864 ==> SameAbove(a, b, 3)
    ensures SameAbove(a, b, 4)
  {
    Groups(a);
    Groups(b);
  }

  lemma NextDigits(c: nat)
    requires c + 1 < WRAP
    ensures Carries(c, c + 1, CarryDigit(c + 1))
  {
    var d := c + 1;
    SameGroups(c, d);
    CountOn(c);
    if d % 256 == 0 {
      Groups(c);
      Groups(d);
      hide SameAbove;
      CountOn(c / 256);
      if (d / 256) % 64 == 0 { NextHigher(c, d); }
    }
  }

  lemma NextHigher(c: nat, d: nat)
    requires d < WRAP && d % 256 == 0 && (d / 256) % 64 == 0 && d / 16384 == c / 16384 + 1
    ensures Carries(c, d, CarryDigit(d))
  {
    SameGroups(c, d);
    Groups(c);
    Groups(d);
    hide SameAbove;
    CountOn(c / 16384);
    if (d / 16384) % 64 == 0 { NextTop(c, d); }
  }

  lemma NextTop(c: nat, d: nat)
    requires d < WRAP && d % 256 == 0 && (d / 256) % 64 == 0 && (d / 16384) % 64 == 0
    requires d / 1048576 == c / 1048576 + 1
    ensures Carries(c, d, CarryDigit(d))
  {
    SameGroups(c, d);
    Groups(c);
    Groups(d);
    hide SameAbove;
    CountOn(c / 1048576);
    if (d / 1048576) % 64 == 0 { CountOn(c / 67108864); }
  }

  lemma MoveDigits(d: nat)
    requires 0 < d < WRAP
    ensures var j := CarryDigit(d); MoveAt(d) == if j == 0 then Nothing else List(j - 1, Digit(d, j))
  {
    Digits(d);
  }

  /** What a tick does to the slot of a timer: nothing, unless it is in the list that is moved; and no
      timer is in a slot finer than that. */
  lemma TickPlace(e: nat, c: nat)
    requires c < WRAP && Ahead(e, NextTime(c))
    ensures var m := MoveAt(NextTime(c));
            m.Nothing? ==> Place(e, NextTime(c)) == Place(e, c)
    ensures var m := MoveAt(NextTime(c));
            m.List? ==>
              if Place(e, c) == Level(m.i, m.idx) then Height(Place(e, NextTime(c))) <= m.i
              else Place(e, NextTime(c)) == Place(e, c) && Height(Place(e, c)) > m.i
  {
    var d := NextTime(c);
    PlaceDigits(e, c);
    PlaceDigits(e, d);
    if d == 0 {
      AheadOfWrap(e, c);
    } else {
      NextDigits(c);
      MoveDigits(d);
      var j := CarryDigit(d);
      TickBelow(e, c, j);
      hide Place, Digit, MoveAt;
    }
  }

  /** When the time comes round, all timers are in the coarsest slots. */
  lemma AheadOfWrap(e: nat, c: nat)
    requires Ahead(e, 0) && c + 1 == WRAP
    ensures Digit(e, 4) < 63 == Digit(c, 4) && MoveAt(0) == List(3, 0) && Digit(0, 4) == 0
  {
  }

  /** A timer that is ahead differs from the current time in a digit that is not below the one
      carried into. */
  lemma TickBelow(e: nat, c: nat, j: nat)
    requires j <= 4 && c + 1 < WRAP && Ahead(e, c + 1) && Carries(c, c + 1, j)
    ensures j > 0 ==> Digit(e, j) != Digit(c, j) || !SameAbove(e, c, j)
  {
    Digits(e);
    Digits(c + 1);
  }
}
