/** The hierarchical timing wheel: 256 near slots and four levels of 64 slots, over a
    32-bit clock that wraps around. */
module SkynetWheel {

  const NEAR: nat := 256
  const LEVELS: nat := 4
  const LEVEL: nat := 64
  const WRAP: nat := 0x1_0000_0000
  const MAX_DELAY: nat := 0x8000_0000   // delays are positive 32-bit ints

  /** Where a node is linked. */
  datatype Place = Near(idx: nat) | Level(level: nat, idx: nat)

  predicate IsPlace(p: Place) {
    match p
    case Near(idx) => idx < NEAR
    case Level(level, idx) => level < LEVELS && idx < LEVEL
  }

  /** `x` shifted right by the bits below a level, and its digit at the level. */
  function Shifted(x: nat, level: nat): nat {
    if level == 0 then x / NEAR else Shifted(x, level - 1) / LEVEL
  }

  function Digit(x: nat, level: nat): (d: nat)
    ensures d < LEVEL
  {
    Shifted(x, level) % LEVEL
  }

  function PlaceOf(expire: nat, time: nat): (p: Place)
    ensures IsPlace(p)
  {
    if Shifted(expire, 0) == Shifted(time, 0) then Near(expire % NEAR)
    else if Shifted(expire, 1) == Shifted(time, 1) then Level(0, Digit(expire, 0))
    else if Shifted(expire, 2) == Shifted(time, 2) then Level(1, Digit(expire, 1))
    else if Shifted(expire, 3) == Shifted(time, 3) then Level(2, Digit(expire, 2))
    else Level(3, Digit(expire, 3))
  }

  function Turn(level: nat): nat {
    if level == 0 then 0x100_0000 else if level == 1 then 0x4_0000 else if level == 2 then 0x1000 else 0x40
  }

  lemma {:induction false} ShiftedTurns(turns: nat, x: nat, level: nat)
    requires x < WRAP && level < LEVELS
    ensures Shifted(WRAP * turns + x, level) == Turn(level) * turns + Shifted(x, level)
    ensures Shifted(x, level) < Turn(level)
  {
    if level > 0 { ShiftedTurns(turns, x, level - 1); }
  }

  lemma {:induction false} Spread(due: nat, now: nat, level: nat)
    requires now <= due < now + MAX_DELAY && level < LEVELS
    ensures Shifted(now, level) <= Shifted(due, level) <= Shifted(now, level) + Turn(level) / 2
  {
    if level > 0 { Spread(due, now, level - 1); }
  }

  lemma Gap(m: nat, a: nat, b: nat)
    requires a > b
    ensures m * a >= m * b + m
  {
    var k: nat := a - b - 1;
    assert m * a == m * b + m + m * k;
    assert m * k >= 0;
  }

  lemma SameTurn(m: nat, a: nat, x: nat, b: nat, y: nat)
    requires x < m && y < m && m * b + y <= m * a + x <= m * b + y + m / 2
    ensures x == y <==> m * a + x == m * b + y
  {
    if a > b { Gap(m, a, b); } else if a < b { Gap(m, b, a); }
  }

  /** Two times written as turns of the clock and what is left of them. */
  lemma TurnedBack(a: nat, x: nat, b: nat, y: nat, level: nat)
    requires x < WRAP && y < WRAP && level < LEVELS
    requires WRAP * b + y <= WRAP * a + x < WRAP * b + y + MAX_DELAY
    ensures Shifted(x, level) == Shifted(y, level) <==> Shifted(WRAP * a + x, level) == Shifted(WRAP * b + y, level)
  {
    hide Shifted, Turn;
    ShiftedTurns(a, x, level);
    ShiftedTurns(b, y, level);
    Spread(WRAP * a + x, WRAP * b + y, level);
    SameTurn(Turn(level), a, Shifted(x, level), b, Shifted(y, level));
  }

  lemma Unwrapped(due: nat, now: nat, level: nat)
    requires now <= due < now + MAX_DELAY && level < LEVELS
    ensures Shifted(due % WRAP, level) == Shifted(now % WRAP, level) <==> Shifted(due, level) == Shifted(now, level)
  {
    hide Shifted;
    assert due == WRAP * (due / WRAP) + due % WRAP && now == WRAP * (now / WRAP) + now % WRAP;
    TurnedBack(due / WRAP, due % WRAP, now / WRAP, now % WRAP, level);
  }

  lemma FullTurns(turns: nat, y: nat)
    ensures (LEVEL * turns + y) % LEVEL == y % LEVEL
  {
  }

  lemma DigitWraps(x: nat, level: nat)
    requires level < LEVELS
    ensures Digit(x % WRAP, level) == Digit(x, level)
  {
    hide Shifted;
    ShiftedTurns(x / WRAP, x % WRAP, level);
    var turns, y := x / WRAP, Shifted(x % WRAP, level);
    if level == 0 { FullTurns(0x4_0000 * turns, y); }
    else if level == 1 { FullTurns(0x1000 * turns, y); }
    else if level == 2 { FullTurns(0x40 * turns, y); }
    else { FullTurns(turns, y); }
  }
  
  /** Before it is due, wrap-around does not change the place of a node. */
  lemma PlaceWraps(due: nat, now: nat)
    requires now <= due < now + MAX_DELAY
    ensures PlaceOf(due % WRAP, now % WRAP) == PlaceOf(due, now)
  {
    hide Shifted, Turn, Digit;
    DigitWraps(due, 0);
    DigitWraps(due, 1);
    DigitWraps(due, 2);
    DigitWraps(due, 3);
    Unwrapped(due, now, 0);
    Unwrapped(due, now, 1);
    Unwrapped(due, now, 2);
    Unwrapped(due, now, 3);
    assert due % WRAP % NEAR == due % NEAR;
  }

  predicate Below(p: Place, level: nat) { p.Near? || p.level < level }

  function Cascade(time: nat): (p: Place)
    ensures IsPlace(p) && p.Level?
  {
    if Digit(time, 0) != 0 then Level(0, Digit(time, 0))
    else if Digit(time, 1) != 0 then Level(1, Digit(time, 1))
    else if Digit(time, 2) != 0 then Level(2, Digit(time, 2))
    else Level(3, Digit(time, 3))
  }

  predicate Rolls(now: nat, level: nat) {
    if level == 0 then (now + 1) % NEAR == 0 else Rolls(now, level - 1) && Digit(now + 1, level - 1) == 0
  }

  lemma {:induction false} ShiftedNext(now: nat, level: nat)
    ensures Shifted(now + 1, level) == Shifted(now, level) + if Rolls(now, level) then 1 else 0
  {
    if level > 0 { ShiftedNext(now, level - 1); }
  }

  lemma ShiftedUp(x: nat, y: nat, level: nat)
    ensures Shifted(x, level) == Shifted(y, level) <==> Shifted(x, level + 1) == Shifted(y, level + 1) && Digit(x, level) == Digit(y, level)
  {
  }

  lemma LastDigit(due: nat, now: nat)
    requires now <= due < now + MAX_DELAY
    ensures Shifted(due, 3) == Shifted(now, 3) <==> Digit(due, 3) == Digit(now, 3)
  {
    Spread(due, now, 3);
    hide Shifted;
  }

  lemma ShiftedRolls(due: nat, now: nat)
    requires now < due < now + MAX_DELAY && (now + 1) % NEAR == 0
    ensures Shifted(due, 0) >= Shifted(now + 1, 0) == Shifted(now, 0) + 1
    ensures Digit(now + 1, 0) == 0 ==> Shifted(due, 1) >= Shifted(now + 1, 1) == Shifted(now, 1) + 1
    ensures Digit(now + 1, 0) != 0 ==> Shifted(now + 1, 1) == Shifted(now, 1)
    ensures Digit(now + 1, 0) == 0 && Digit(now + 1, 1) == 0 ==> Shifted(due, 2) >= Shifted(now + 1, 2) == Shifted(now, 2) + 1
    ensures Digit(now + 1, 0) != 0 || Digit(now + 1, 1) != 0 ==> Shifted(now + 1, 2) == Shifted(now, 2)
    ensures Digit(now + 1, 0) == 0 && Digit(now + 1, 1) == 0 && Digit(now + 1, 2) == 0 ==> Shifted(due, 3) >= Shifted(now + 1, 3) == Shifted(now, 3) + 1
    ensures Digit(now + 1, 0) != 0 || Digit(now + 1, 1) != 0 || Digit(now + 1, 2) != 0 ==> Shifted(now + 1, 3) == Shifted(now, 3)
  {
    ShiftedNext(now, 0); ShiftedNext(now, 1); ShiftedNext(now, 2); ShiftedNext(now, 3);
    Spread(due, now + 1, 0); Spread(due, now + 1, 1); Spread(due, now + 1, 2); Spread(due, now + 1, 3);
    assert Rolls(now, 0) && (Rolls(now, 1) <==> Digit(now + 1, 0) == 0);
    assert Rolls(now, 2) == (Rolls(now, 1) && Digit(now + 1, 1) == 0);
    assert Rolls(now, 3) == (Rolls(now, 2) && Digit(now + 1, 2) == 0);
    hide Shifted, Rolls, Digit, Turn;
  }

  lemma PlaceShift(due: nat, now: nat)
    requires now < due < now + MAX_DELAY && (now + 1) % NEAR == 0
    ensures var c := Cascade(now + 1);
            !Below(PlaceOf(due, now), c.level) &&
            if PlaceOf(due, now) == c then Below(PlaceOf(due, now + 1), c.level)
            else PlaceOf(due, now + 1) == PlaceOf(due, now)
  {
    hide Shifted, Rolls, Digit, Turn;
    ShiftedRolls(due, now);
    ShiftedUp(due, now + 1, 0); ShiftedUp(due, now + 1, 1); ShiftedUp(due, now + 1, 2);
    ShiftedUp(due, now, 0); ShiftedUp(due, now, 1); ShiftedUp(due, now, 2);
    LastDigit(due, now + 1);
  }

  /** Ticks in a slot of a level. */
  function Unit(level: nat): (u: nat)
    ensures u > 0
  {
    if level == 0 then 0x100
    else if level == 1 then 0x4000
    else if level == 2 then 0x10_0000
    else if level == 3 then 0x400_0000
    else WRAP
  }

  /** `x | (m - 1)` for a power of two `m`. */
  function Fill(x: nat, m: nat): nat
    requires m > 0
  {
    x / m * m + (m - 1)
  }

  lemma ShiftedIs(x: nat, level: nat)
    requires level < LEVELS
    ensures Shifted(x, level) == x / Unit(level)
  {
    var a := Shifted(x, 0);
    var b := Shifted(x, 1);
    var c := Shifted(x, 2);
    assert b == a / LEVEL && c == b / LEVEL && Shifted(x, 3) == c / LEVEL;
  }

  lemma FillSame(x: nat, y: nat, level: nat)
    requires level < LEVELS
    ensures Fill(x, Unit(level)) == Fill(y, Unit(level)) <==> Shifted(x, level) == Shifted(y, level)
  {
    ShiftedIs(x, level);
    ShiftedIs(y, level);
    hide Shifted;
  }

  lemma {:induction false} Rounded(x: nat, level: nat)
    requires level <= LEVELS && x < WRAP && x % NEAR == 0 && forall j: nat :: j < level ==> Digit(x, j) == 0
    ensures x % Unit(level) == 0
  {
    if level > 0 {
      Rounded(x, level - 1);
      ShiftedIs(x, level - 1);
      assert Digit(x, level - 1) == 0;
    }
  }

  datatype Event = Event(handle: nat, session: int)
  datatype TimerNode = TimerNode(expire: nat, event: Event)

  /** An event that waits: its deadline counts shifts, without wrap-around. */
  datatype Entry = Entry(due: nat, event: Event)

  function NodeOf(e: Entry): TimerNode { TimerNode(e.due % WRAP, e.event) }

  /** The nodes that the wheel must hold at place `p`, in order. */
  function InPlace(pending: seq<Entry>, now: nat, p: Place): seq<TimerNode> {
    if pending == [] then []
    else
      var e := pending[|pending| - 1];
      var rest := InPlace(pending[..|pending| - 1], now, p);
      if PlaceOf(e.due, now) == p then rest + [NodeOf(e)] else rest
  }

  /** The nodes of a list that `AddNode` links at place `p`. */
  function Routed(nodes: seq<TimerNode>, time: nat, p: Place): seq<TimerNode> {
    if nodes == [] then []
    else
      var n := nodes[|nodes| - 1];
      var rest := Routed(nodes[..|nodes| - 1], time, p);
      if PlaceOf(n.expire, time) == p then rest + [n] else rest
  }

  /** The entries that are due at a time, and those that are not. */
  function Due(pending: seq<Entry>, now: nat): seq<Entry> {
    if pending == [] then []
    else
      var e := pending[|pending| - 1];
      var rest := Due(pending[..|pending| - 1], now);
      if e.due == now then rest + [e] else rest
  }

  function NotDue(pending: seq<Entry>, now: nat): seq<Entry> {
    if pending == [] then []
    else
      var e := pending[|pending| - 1];
      var rest := NotDue(pending[..|pending| - 1], now);
      if e.due == now then rest else rest + [e]
  }

  predicate Waiting(pending: seq<Entry>, now: nat) {
    forall i :: 0 <= i < |pending| ==> now <= pending[i].due < now + MAX_DELAY
  }

  /** Nothing is due: the state in which the lock is free. */
  predicate Settled(pending: seq<Entry>, now: nat) {
    forall i :: 0 <= i < |pending| ==> now < pending[i].due < now + MAX_DELAY
  }

  function Nodes(entries: seq<Entry>): seq<TimerNode> {
    if entries == [] then [] else Nodes(entries[..|entries| - 1]) + [NodeOf(entries[|entries| - 1])]
  }

  /* ---------- the lists, one entry at a time ---------- */

  lemma InPlaceSnoc(pending: seq<Entry>, e: Entry, now: nat, p: Place)
    ensures InPlace(pending + [e], now, p) ==
            if PlaceOf(e.due, now) == p then InPlace(pending, now, p) + [NodeOf(e)] else InPlace(pending, now, p)
  {
    hide PlaceOf;
    assert (pending + [e])[..|pending|] == pending;
  }

  lemma RoutedSnoc(nodes: seq<TimerNode>, n: TimerNode, time: nat, p: Place)
    ensures Routed(nodes + [n], time, p) ==
            if PlaceOf(n.expire, time) == p then Routed(nodes, time, p) + [n] else Routed(nodes, time, p)
  {
    hide PlaceOf;
    assert (nodes + [n])[..|nodes|] == nodes;
  }

  lemma DueSnoc(pending: seq<Entry>, e: Entry, now: nat)
    ensures Due(pending + [e], now) == if e.due == now then Due(pending, now) + [e] else Due(pending, now)
    ensures NotDue(pending + [e], now) == if e.due == now then NotDue(pending, now) else NotDue(pending, now) + [e]
    ensures Nodes(pending + [e]) == Nodes(pending) + [NodeOf(e)]
  {
    assert (pending + [e])[..|pending|] == pending;
  }

  lemma NearPlace(due: nat, now: nat)
    requires now <= due
    ensures PlaceOf(due, now) == Near(now % NEAR) <==> due == now
  {
  }

  lemma NoNodes(now: nat, next: nat, p: Place, q: Place)
    ensures InPlace([], now, p) == InPlace([], now, q) == InPlace([], next, q) == []
    ensures forall time: nat :: Routed([], time, q) == []
  {
  }

  /* ---------- a shift keeps every list ---------- */

  lemma {:induction false} NothingElsewhere(pending: seq<Entry>, now: nat, p: Place)
    requires Settled(pending, now) && (now + 1) % NEAR == 0
    requires !Below(p, Cascade(now + 1).level)
    ensures Routed(InPlace(pending, now, Cascade(now + 1)), (now + 1) % WRAP, p) == []
  {
    hide PlaceOf, Cascade, InPlace, Routed;
    var c := Cascade(now + 1);
    if pending == [] {
      NoNodes(now, now + 1, c, p);
    } else {
      var rest, e := pending[..|pending| - 1], pending[|pending| - 1];
      assert pending == rest + [e];
      NothingElsewhere(rest, now, p);
      PlaceShift(e.due, now);
      PlaceWraps(e.due, now + 1);
      InPlaceSnoc(rest, e, now, c);
      RoutedSnoc(InPlace(rest, now, c), NodeOf(e), (now + 1) % WRAP, p);
    }
  }

  /** Moving the one list and leaving the others gives the lists of the next time. */
  lemma {:induction false} ShiftMoves(pending: seq<Entry>, now: nat, p: Place)
    requires Settled(pending, now) && Round(now + 1)
    ensures var c := Cascade(now + 1);
            InPlace(pending, now + 1, p) ==
            (if p == c then [] else InPlace(pending, now, p)) + Routed(InPlace(pending, now, c), Clock(now + 1), p)
  {
    hide PlaceOf, Cascade, InPlace, Routed;
    var c := Cascade(now + 1);
    if pending == [] {
      NoNodes(now, now + 1, c, p);
    } else {
      var rest, e := pending[..|pending| - 1], pending[|pending| - 1];
      assert pending == rest + [e];
      ShiftMoves(rest, now, p);
      PlaceShift(e.due, now);
      PlaceWraps(e.due, now + 1);
      InPlaceSnoc(rest, e, now, c);
      InPlaceSnoc(rest, e, now, p);
      InPlaceSnoc(rest, e, now + 1, p);
      if PlaceOf(e.due, now) == c {
        RoutedSnoc(InPlace(rest, now, c), NodeOf(e), (now + 1) % WRAP, p);
      } else if PlaceOf(e.due, now) == p {
        NothingElsewhere(rest, now, p);
      }
    }
  }

  /** A shift inside a near block moves nothing. */
  lemma {:induction false} ShiftKeeps(pending: seq<Entry>, now: nat, p: Place)
    requires !Round(now + 1)
    ensures InPlace(pending, now + 1, p) == InPlace(pending, now, p)
  {
    if pending != [] {
      ShiftKeeps(pending[..|pending| - 1], now, p);
      ShiftedNext(now, 0); ShiftedNext(now, 1); ShiftedNext(now, 2); ShiftedNext(now, 3);
      hide Shifted, Digit;
      assert !Rolls(now, 0) && !Rolls(now, 1) && !Rolls(now, 2) && !Rolls(now, 3);
    }
  }

  /* ---------- a pass takes out what is due ---------- */

  /** The slot of the current time holds exactly the entries that are due, in the order
      in which they were added. */
  lemma {:induction false} DueInPlace(pending: seq<Entry>, now: nat)
    requires Waiting(pending, now)
    ensures InPlace(pending, now, Near(now % NEAR)) == Nodes(Due(pending, now))
  {
    hide PlaceOf;
    if pending != [] {
      var rest, e := pending[..|pending| - 1], pending[|pending| - 1];
      assert pending == rest + [e];
      DueInPlace(rest, now);
      NearPlace(e.due, now);
      DueSnoc(Due(rest, now), e, now);
    }
  }

  /** Taking that slot leaves the lists of the others. */
  lemma {:induction false} NotDueInPlace(pending: seq<Entry>, now: nat, p: Place)
    requires Waiting(pending, now)
    ensures InPlace(NotDue(pending, now), now, p) == if p == Near(now % NEAR) then [] else InPlace(pending, now, p)
  {
    hide PlaceOf;
    if pending != [] {
      var rest, e := pending[..|pending| - 1], pending[|pending| - 1];
      assert pending == rest + [e];
      NotDueInPlace(rest, now, p);
      NearPlace(e.due, now);
      InPlaceSnoc(NotDue(rest, now), e, now, p);
    }
  }

  lemma {:induction false} DueSettled(pending: seq<Entry>, now: nat)
    requires Settled(pending, now)
    ensures Due(pending, now) == []
  {
    if pending != [] { DueSettled(pending[..|pending| - 1], now); }
  }

  lemma {:induction false} NotDueNone(pending: seq<Entry>, now: nat)
    requires Due(pending, now) == []
    ensures NotDue(pending, now) == pending
  {
    if pending != [] {
      NotDueNone(pending[..|pending| - 1], now);
      assert pending == pending[..|pending| - 1] + [pending[|pending| - 1]];
    }
  }

  lemma {:induction false} NotDueSettled(pending: seq<Entry>, now: nat)
    requires Waiting(pending, now)
    ensures Settled(NotDue(pending, now), now)
  {
    if pending != [] { NotDueSettled(pending[..|pending| - 1], now); }
  }

  lemma WaitingNext(pending: seq<Entry>, now: nat)
    requires Settled(pending, now)
    ensures Waiting(pending, now + 1)
  {
  }

  lemma {:induction false} NodesNone(entries: seq<Entry>)
    ensures Nodes(entries) == [] <==> entries == []
  {
  }

  lemma CascadeWraps(time: nat)
    ensures Cascade(time % WRAP) == Cascade(time)
  {
    DigitWraps(time, 0);
    DigitWraps(time, 1);
    DigitWraps(time, 2);
    DigitWraps(time, 3);
    hide Digit;
  }

  lemma NearWraps(time: nat)
    ensures time % WRAP % NEAR == time % NEAR
  {
  }

  /** The 32-bit clock after a number of shifts. */
  function Clock(now: nat): (time: nat)
    ensures time < WRAP
  {
    now % WRAP
  }

  /** The near wheel has gone round. */
  predicate Round(time: nat) { time % NEAR == 0 }

  lemma ClockNext(now: nat)
    ensures Clock(Clock(now) + 1) == Clock(now + 1)
  {
  }

  lemma RoundNext(now: nat)
    ensures Round(Clock(now)) == Round(now) == (now % NEAR == 0) && Cascade(Clock(now)) == Cascade(now)
    ensures Clock(now) == now % WRAP
  {
    NearWraps(now);
    CascadeWraps(now);
    hide Cascade;
  }
}
