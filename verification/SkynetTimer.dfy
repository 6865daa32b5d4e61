/** The timer object: its lists, its 32-bit clock, and what it dispatches, proved against
    a plain bag of deadlines. */
module SkynetTimer {
  import opened SkynetWheel

  /* ---------- the bag of deadlines ---------- */

  datatype Request = Request(event: Event, delay: nat)
  datatype Dispatch = Dispatch(at: nat, event: Event)
  datatype Bag = Bag(now: nat, pending: seq<Entry>, log: seq<Dispatch>)
  datatype Op = Add(request: Request) | Tick

  const EMPTY: Bag := Bag(0, [], [])

  predicate IsRequest(r: Request) { 1 <= r.delay < MAX_DELAY }

  predicate IsRun(ops: seq<Op>) { forall i :: 0 <= i < |ops| && ops[i].Add? ==> IsRequest(ops[i].request) }

  function Dispatches(entries: seq<Entry>, at: nat): seq<Dispatch> {
    if entries == [] then []
    else Dispatches(entries[..|entries| - 1], at) + [Dispatch(at, entries[|entries| - 1].event)]
  }

  /** A pass dispatches what is due now. */
  function Passed(b: Bag): Bag {
    Bag(b.now, NotDue(b.pending, b.now), b.log + Dispatches(Due(b.pending, b.now), b.now))
  }

  function Step(b: Bag, op: Op): Bag {
    match op
    case Add(r) => b.(pending := b.pending + [Entry(b.now + r.delay, r.event)])
    case Tick => Passed(b.(now := b.now + 1))
  }

  function Run(b: Bag, ops: seq<Op>): Bag {
    if ops == [] then b else Step(Run(b, ops[..|ops| - 1]), ops[|ops| - 1])
  }

  lemma {:induction false} RunAppend(b: Bag, ops: seq<Op>, more: seq<Op>)
    ensures Run(b, ops + more) == Run(Run(b, ops), more)
  {
    if more == [] {
      assert ops + more == ops;
    } else {
      RunAppend(b, ops, more[..|more| - 1]);
      assert (ops + more)[..|ops + more| - 1] == ops + more[..|more| - 1];
    }
  }

  /* ---------- every deadline is met once, on time, in order ---------- */

  function Ticks(ops: seq<Op>): (n: nat)
    ensures n <= |ops|
  {
    if ops == [] then 0 else Ticks(ops[..|ops| - 1]) + if ops[|ops| - 1].Tick? then 1 else 0
  }

  /** The deadlines that a run asks for: the ticks before the request, plus its delay. */
  function Deadlines(ops: seq<Op>): seq<Entry> {
    if ops == [] then []
    else
      var k := |ops| - 1;
      var rest := Deadlines(ops[..k]);
      if ops[k].Add? then rest + [Entry(Ticks(ops[..k]) + ops[k].request.delay, ops[k].request.event)] else rest
  }

  /** The dispatches up to a time: time after time, and in the order of the requests. */
  function OnTime(entries: seq<Entry>, until: nat): seq<Dispatch> {
    if until == 0 then [] else OnTime(entries, until - 1) + Dispatches(Due(entries, until), until)
  }

  function Later(entries: seq<Entry>, now: nat): seq<Entry> {
    if entries == [] then []
    else
      var e := entries[|entries| - 1];
      var rest := Later(entries[..|entries| - 1], now);
      if e.due > now then rest + [e] else rest
  }

  lemma {:induction false} OnTimeSnoc(entries: seq<Entry>, e: Entry, until: nat)
    requires e.due > until
    ensures OnTime(entries + [e], until) == OnTime(entries, until)
  {
    if until > 0 {
      OnTimeSnoc(entries, e, until - 1);
      DueSnoc(entries, e, until);
    }
  }

  lemma {:induction false} LaterSteps(entries: seq<Entry>, now: nat)
    ensures NotDue(Later(entries, now), now + 1) == Later(entries, now + 1)
    ensures Due(Later(entries, now), now + 1) == Due(entries, now + 1)
  {
    if entries != [] {
      var rest, e := entries[..|entries| - 1], entries[|entries| - 1];
      LaterSteps(rest, now);
      DueSnoc(Later(rest, now), e, now + 1);
    }
  }

  lemma LaterSnoc(entries: seq<Entry>, e: Entry, now: nat)
    requires e.due > now
    ensures Later(entries + [e], now) == Later(entries, now) + [e]
  {
    assert (entries + [e])[..|entries|] == entries;
  }

  /** What was dispatched is exactly the deadlines reached, each at its own time, equal
      deadlines in the order in which they were asked for; what waits is exactly the rest. */
  function Exact(entries: seq<Entry>, now: nat): Bag {
    Bag(now, Later(entries, now), OnTime(entries, now))
  }

  lemma TickExact(entries: seq<Entry>, now: nat)
    ensures Step(Exact(entries, now), Tick) == Exact(entries, now + 1)
  {
    LaterSteps(entries, now);
    assert OnTime(entries, now + 1) == OnTime(entries, now) + Dispatches(Due(entries, now + 1), now + 1);
  }

  lemma AddExact(entries: seq<Entry>, now: nat, r: Request)
    requires IsRequest(r)
    ensures Step(Exact(entries, now), Add(r)) == Exact(entries + [Entry(now + r.delay, r.event)], now)
  {
    var e := Entry(now + r.delay, r.event);
    OnTimeSnoc(entries, e, now);
    LaterSnoc(entries, e, now);
  }

  lemma Last(ops: seq<Op>)
    requires ops != []
    ensures var rest, op := ops[..|ops| - 1], ops[|ops| - 1];
            && Run(EMPTY, ops) == Step(Run(EMPTY, rest), op)
            && (op.Tick? ==> Ticks(ops) == Ticks(rest) + 1 && Deadlines(ops) == Deadlines(rest))
            && (op.Add? ==> Ticks(ops) == Ticks(rest) && Deadlines(ops) ==
                              Deadlines(rest) + [Entry(Ticks(rest) + op.request.delay, op.request.event)])
  {
    hide Step;
  }

  /** For every interleaving of requests and ticks. */
  lemma {:induction false} RunOnTime(ops: seq<Op>)
    requires IsRun(ops)
    ensures Run(EMPTY, ops) == Exact(Deadlines(ops), Ticks(ops))
  {
    if ops == [] {
      assert Exact([], 0) == EMPTY;
    } else {
      var rest, op := ops[..|ops| - 1], ops[|ops| - 1];
      assert IsRun(rest) && (op.Add? ==> IsRequest(op.request));
      RunOnTime(rest);
      Last(ops);
      match op
      case Tick => TickExact(Deadlines(rest), Ticks(rest));
      case Add(r) => AddExact(Deadlines(rest), Ticks(rest), r);
    }
  }

  lemma DispatchesSnoc(entries: seq<Entry>, e: Entry, at: nat)
    ensures Dispatches(entries + [e], at) == Dispatches(entries, at) + [Dispatch(at, e.event)]
  {
    assert (entries + [e])[..|entries|] == entries;
  }

  lemma CountSnoc<T>(s: seq<T>, last: T, x: T)
    ensures multiset(s + [last])[x] == multiset(s)[x] + if x == last then 1 else 0
  {
  }

  lemma NoneDue(at: nat)
    ensures Dispatches(Due([], at), at) == []
  {
  }

  lemma {:induction false} DispatchesCount(entries: seq<Entry>, at: nat, t: nat, ev: Event)
    ensures multiset(Dispatches(Due(entries, at), at))[Dispatch(t, ev)] ==
            if t == at then multiset(entries)[Entry(t, ev)] else 0
  {
    if entries == [] {
      NoneDue(at);
    } else {
      hide Due, Dispatches;
      var rest, e := entries[..|entries| - 1], entries[|entries| - 1];
      DispatchesCount(rest, at, t, ev);
      assert entries == rest + [e];
      DueSnoc(rest, e, at);
      CountSnoc(rest, e, Entry(t, ev));
      if e.due == at {
        DispatchesSnoc(Due(rest, at), e, at);
        CountSnoc(Dispatches(Due(rest, at), at), Dispatch(at, e.event), Dispatch(t, ev));
      }
    }
  }

  lemma {:induction false} OnTimeCount(entries: seq<Entry>, until: nat, t: nat, ev: Event)
    ensures multiset(OnTime(entries, until))[Dispatch(t, ev)] ==
            if 1 <= t <= until then multiset(entries)[Entry(t, ev)] else 0
  {
    if until > 0 {
      hide Dispatches, Due;
      OnTimeCount(entries, until - 1, t, ev);
      DispatchesCount(entries, until, t, ev);
      var before, last := OnTime(entries, until - 1), Dispatches(Due(entries, until), until);
      assert OnTime(entries, until) == before + last;
      assert multiset(before + last) == multiset(before) + multiset(last);
    }
  }

  /** Never early, never late, never lost, never twice. */
  lemma DispatchedOnce(ops: seq<Op>, t: nat, ev: Event)
    requires IsRun(ops)
    ensures multiset(Run(EMPTY, ops).log)[Dispatch(t, ev)] ==
            if 1 <= t <= Ticks(ops) then multiset(Deadlines(ops))[Entry(t, ev)] else 0
  {
    RunOnTime(ops);
    OnTimeCount(Deadlines(ops), Ticks(ops), t, ev);
  }

  lemma RoutedNone(time: nat)
    ensures forall q: Place :: Routed([], time, q) == []
  {
  }

  /* ---------- the timer ---------- */

  function Adds(requests: seq<Request>): seq<Op> {
    if requests == [] then [] else Adds(requests[..|requests| - 1]) + [Add(requests[|requests| - 1])]
  }

  predicate AreRequests(requests: seq<Request>) { forall i :: 0 <= i < |requests| ==> IsRequest(requests[i]) }

  function Events(nodes: seq<TimerNode>): seq<Event> {
    if nodes == [] then [] else Events(nodes[..|nodes| - 1]) + [nodes[|nodes| - 1].event]
  }

  function Sent(log: seq<Dispatch>): (r: seq<Event>)
    ensures |r| == |log| && forall i :: 0 <= i < |r| ==> r[i] == log[i].event
  {
    if log == [] then [] else Sent(log[..|log| - 1]) + [log[|log| - 1].event]
  }

  lemma EventsSnoc(log: seq<Dispatch>, d: Dispatch, nodes: seq<TimerNode>, n: TimerNode)
    ensures Sent(log + [d]) == Sent(log) + [d.event]
    ensures Events(nodes + [n]) == Events(nodes) + [n.event]
  {
    assert (log + [d])[..|log|] == log;
    assert (nodes + [n])[..|nodes|] == nodes;
  }

  lemma {:induction false} SentAppend(log: seq<Dispatch>, entries: seq<Entry>, at: nat)
    ensures Sent(log + Dispatches(entries, at)) == Sent(log) + Events(Nodes(entries))
  {
    if entries == [] {
      assert log + Dispatches(entries, at) == log;
    } else {
      hide Sent, Events;
      var k := |entries| - 1;
      var e, before := entries[k], log + Dispatches(entries[..k], at);
      SentAppend(log, entries[..k], at);
      EventsSnoc(before, Dispatch(at, e.event), Nodes(entries[..k]), NodeOf(e));
      assert log + Dispatches(entries, at) == before + [Dispatch(at, e.event)];
    }
  }

  lemma {:induction false} AddsRun(requests: seq<Request>)
    requires AreRequests(requests)
    ensures IsRun(Adds(requests)) && Ticks(Adds(requests)) == 0
  {
    if requests != [] {
      var k := |requests| - 1;
      AddsRun(requests[..k]);
      assert AreRequests(requests) && IsRequest(requests[k]);
      TicksAppend(Adds(requests[..k]), [Add(requests[k])]);
    }
  }

  lemma {:induction false} TicksAppend(ops: seq<Op>, more: seq<Op>)
    ensures Ticks(ops + more) == Ticks(ops) + Ticks(more)
  {
    if more == [] {
      assert ops + more == ops;
    } else {
      TicksAppend(ops, more[..|more| - 1]);
      assert (ops + more)[..|ops + more| - 1] == ops + more[..|more| - 1];
    }
  }

  lemma PassedNone(b: Bag)
    ensures Run(b, []) == b && Run(Passed(b), []) == Passed(b)
    ensures Due(b.pending, b.now) == [] ==> Passed(b) == b
  {
    if Due(b.pending, b.now) == [] { NotDueNone(b.pending, b.now); }
  }

  lemma OneTick(b: Bag, before: seq<Op>, after: seq<Op>)
    ensures Run(Step(Run(b, before), Tick), after) == Run(b, before + [Tick] + after)
    ensures Ticks(before + [Tick] + after) == Ticks(before) + 1 + Ticks(after)
  {
    RunAppend(b, before + [Tick], after);
    TicksAppend(before + [Tick], after);
    assert (before + [Tick])[..|before|] == before;
  }

  /** What the other threads ask for around one tick: while the lock is open before it, and
      from the dispatch of what is due on. */
  datatype Others = Others(before: seq<Request>, during: seq<Request>)

  predicate AreOthers(o: Others) { AreRequests(o.before) && AreRequests(o.during) }

  function TickOps(o: Others): seq<Op> { Adds(o.before) + [Tick] + Adds(o.during) }

  /** One tick after the other. */
  function TicksOps(others: seq<Others>): seq<Op> {
    if others == [] then [] else TicksOps(others[..|others| - 1]) + TickOps(others[|others| - 1])
  }

  lemma TickOpsRun(o: Others)
    requires AreOthers(o)
    ensures IsRun(TickOps(o)) && Ticks(TickOps(o)) == 1
  {
    AddsRun(o.before);
    AddsRun(o.during);
    OneTick(EMPTY, Adds(o.before), Adds(o.during));
  }

  lemma {:induction false} TicksOpsRun(others: seq<Others>)
    requires forall i :: 0 <= i < |others| ==> AreOthers(others[i])
    ensures IsRun(TicksOps(others)) && Ticks(TicksOps(others)) == |others|
  {
    if others != [] {
      var k := |others| - 1;
      TicksOpsRun(others[..k]);
      TickOpsRun(others[k]);
      hide TickOps, IsRun;
      RunsAppend(TicksOps(others[..k]), TickOps(others[k]));
      TicksAppend(TicksOps(others[..k]), TickOps(others[k]));
    }
  }

  lemma MoreTicks(b: Bag, others: seq<Others>, i: nat)
    requires i < |others|
    ensures Run(b, TicksOps(others[..i + 1])) == Run(Run(b, TicksOps(others[..i])), TickOps(others[i]))
  {
    assert others[..i + 1][..i] == others[..i];
    RunAppend(b, TicksOps(others[..i]), TickOps(others[i]));
  }

  /** The ticks between two readings of the system's clock. */
  function Passing(last: nat, cp: nat): nat { if cp < last then 0 else Clock(cp - last) }

  lemma PassingIs(last: nat, cp: nat)
    ensures Passing(last, cp) == if cp < last then 0 else (cp - last) % 0x1_0000_0000
  {
  }

  lemma WideIs(x: nat)
    ensures Wide(x) == x % 0x1_0000_0000_0000_0000
  {
  }

  /** 64-bit counts. */
  function Wide(x: nat): (w: nat)
    ensures w < CLOCK
  {
    x % CLOCK
  }

  lemma NoOps(current: nat)
    requires current < CLOCK
    ensures IsRun([]) && Clock(0) == 0 && Wide(current) == current
  {
  }

  lemma RunsAppend(ops: seq<Op>, more: seq<Op>)
    requires IsRun(ops) && IsRun(more)
    ensures IsRun(ops + more)
  {
  }

  const CLOCK: nat := 0x1_0000_0000_0000_0000

  class Timer {
    const near: array<seq<TimerNode>>
    const t: array2<seq<TimerNode>>
    var time: nat
    var current: nat          // 64-bit count of ticks
    var currentPoint: nat     // the last reading of the system's clock
    var sent: seq<Event>      // the messages pushed to the services
    ghost var bag: Bag

    ghost predicate Shape() reads this {
      near.Length == NEAR && t.Length0 == LEVELS && t.Length1 == LEVEL && time < WRAP && current < CLOCK
    }

    function List(p: Place): seq<TimerNode>
      requires near.Length == NEAR && t.Length0 == LEVELS && t.Length1 == LEVEL && IsPlace(p)
      reads near, t
    {
      match p
      case Near(idx) => near[idx]
      case Level(level, idx) => t[level, idx]
    }

    /** Each list is exactly what `AddNode` would put there now, in the order of the
        requests. */
    ghost predicate Placed() reads this, near, t {
      && Shape()
      && time == Clock(bag.now)
      && sent == Sent(bag.log)
      && forall p: Place :: IsPlace(p) ==> List(p) == InPlace(bag.pending, bag.now, p)
    }

    ghost predicate Valid() reads this, near, t { Placed() && Settled(bag.pending, bag.now) }

    constructor (start: nat, now: nat)
      requires start < CLOCK
      ensures Valid() && bag == EMPTY && fresh(near) && fresh(t)
      ensures current == start && currentPoint == now
    {
      near := new seq<TimerNode>[NEAR](_ => []);
      t := new seq<TimerNode>[LEVELS, LEVEL]((_, _) => []);
      time := 0;
      current := start;
      currentPoint := now;
      sent := [];
      bag := EMPTY;
    }

    method Link(p: Place, node: TimerNode)
      requires Shape() && IsPlace(p)
      modifies near, t
      ensures forall q: Place :: IsPlace(q) ==> List(q) == if q == p then old(List(q)) + [node] else old(List(q))
    {
      match p
      case Near(idx) => near[idx] := near[idx] + [node];
      case Level(level, idx) => t[level, idx] := t[level, idx] + [node];
    }

    method LinkClear(p: Place) returns (nodes: seq<TimerNode>)
      requires Shape() && IsPlace(p)
      modifies near, t
      ensures nodes == old(List(p))
      ensures forall q: Place :: IsPlace(q) ==> List(q) == if q == p then [] else old(List(q))
    {
      match p
      case Near(idx) =>
        nodes := near[idx];
        near[idx] := [];
      case Level(level, idx) =>
        nodes := t[level, idx];
        t[level, idx] := [];
    }

    method AddNode(node: TimerNode)
      requires Shape()
      modifies near, t
      ensures forall q: Place :: IsPlace(q) ==>
                List(q) == if q == PlaceOf(node.expire, time) then old(List(q)) + [node] else old(List(q))
    {
      FillSame(node.expire, time, 0);
      if Fill(node.expire, NEAR) == Fill(time, NEAR) {
        Link(Near(node.expire % NEAR), node);
      } else {
        var i, mask := 0, NEAR * LEVEL;
        while i < 3
          invariant 0 <= i <= 3 && mask == Unit(i + 1)
          invariant unchanged(near) && unchanged(t)
          invariant forall j: nat :: j <= i ==> Shifted(node.expire, j) != Shifted(time, j)
        {
          FillSame(node.expire, time, i + 1);
          if Fill(node.expire, mask) == Fill(time, mask) { break; }
          mask := mask * LEVEL;
          i := i + 1;
        }
        ShiftedIs(node.expire, i);
        assert PlaceOf(node.expire, time) == Level(i, Digit(node.expire, i)) by { hide Shifted, Digit; }
        Link(Level(i, node.expire / Unit(i) % LEVEL), node);
      }
    }

    /** Another thread asks for an event. */
    method TimerAdd(r: Request)
      requires Valid() && IsRequest(r)
      modifies this`bag, near, t
      ensures Valid() && bag == Step(old(bag), Add(r))
    {
      hide InPlace, PlaceOf, Sent;
      ghost var e := Entry(bag.now + r.delay, r.event);
      assert (r.delay + time) % WRAP == e.due % WRAP;
      PlaceWraps(e.due, bag.now);
      forall p: Place | IsPlace(p)
        ensures InPlace(bag.pending + [e], bag.now, p) ==
                if PlaceOf(e.due, bag.now) == p then InPlace(bag.pending, bag.now, p) + [NodeOf(e)]
                else InPlace(bag.pending, bag.now, p)
      {
        InPlaceSnoc(bag.pending, e, bag.now, p);
      }
      AddNode(TimerNode((r.delay + time) % WRAP, r.event));
      bag := bag.(pending := bag.pending + [e]);
    }

    method TimerAddAll(requests: seq<Request>)
      requires Valid() && AreRequests(requests)
      modifies this`bag, near, t
      ensures Valid() && bag == Run(old(bag), Adds(requests)) && bag.now == old(bag.now)
    {
      for i := 0 to |requests|
        invariant Valid() && bag == Run(old(bag), Adds(requests[..i])) && bag.now == old(bag.now)
      {
        TimerAdd(requests[i]);
        assert requests[..i + 1][..i] == requests[..i];
        assert Adds(requests[..i + 1]) == Adds(requests[..i]) + [Add(requests[i])];
      }
      assert requests[..|requests|] == requests;
    }

    /** What was there, and behind it the nodes that were spread so far. */
    ghost predicate Spread(was: Place -> seq<TimerNode>, nodes: seq<TimerNode>) reads this, near, t {
      Shape() && forall q: Place :: IsPlace(q) ==> List(q) == was(q) + Routed(nodes, time, q)
    }

    method MoveNode(node: TimerNode, ghost was: Place -> seq<TimerNode>, ghost nodes: seq<TimerNode>)
      requires Spread(was, nodes)
      modifies near, t
      ensures Spread(was, nodes + [node])
    {
      hide Routed, PlaceOf, Digit, Shifted;
      AddNode(node);
      forall q: Place | IsPlace(q)
        ensures List(q) == was(q) + Routed(nodes + [node], time, q)
      {
        RoutedSnoc(nodes, node, time, q);
      }
    }

    method MoveList(p: Place)
      requires Shape() && IsPlace(p)
      modifies near, t
      ensures forall q: Place :: IsPlace(q) ==>
                List(q) == (if q == p then [] else old(List(q))) + Routed(old(List(p)), time, q)
    {
      hide Routed, PlaceOf;
      var nodes := LinkClear(p);
      ghost var was: Place -> seq<TimerNode> := q => if q == p || !IsPlace(q) then [] else old(List(q));
      RoutedNone(time);
      assert nodes[..0] == [];
      assert Spread(was, []);
      hide Spread, IsPlace, List;
      for i := 0 to |nodes|
        invariant Spread(was, nodes[..i])
      {
        assert nodes[..i + 1] == nodes[..i] + [nodes[i]];
        MoveNode(nodes[i], was, nodes[..i]);
      }
      assert nodes[..|nodes|] == nodes;
    }

    /** The clock moves on, and the one list that comes nearer is moved. */
    method TimerShift()
      requires Shape()
      modifies this`time, near, t
      ensures time == Clock(old(time) + 1)
      ensures !Round(time) ==> unchanged(near) && unchanged(t)
      ensures Round(time) ==>
                var c := Cascade(time);
                forall q: Place :: IsPlace(q) ==>
                  List(q) == (if q == c then [] else old(List(q))) + Routed(old(List(c)), time, q)
    {
      var mask := NEAR;
      time := (time + 1) % WRAP;
      var ct := time;
      if ct == 0 {
        assert Cascade(ct) == Level(3, 0);
        MoveList(Level(3, 0));
      } else {
        var rest := ct / NEAR;
        var i := 0;
        assert rest == Shifted(ct, 0);
        while ct % mask == 0
          invariant time == ct && 0 <= i < LEVELS && mask == Unit(i) && rest == Shifted(ct, i)
          invariant i > 0 ==> ct % NEAR == 0 == ct % mask
          invariant forall j: nat :: j < i ==> Digit(ct, j) == 0
          invariant unchanged(near) && unchanged(t)
          decreases LEVELS - i
        {
          var idx := rest % LEVEL;
          assert idx == Digit(ct, i);
          assert rest / LEVEL == Shifted(ct, i + 1);
          if idx == 0 { Rounded(ct, i + 1); }
          if idx != 0 {
            assert Cascade(ct) == Level(i, idx);
            MoveList(Level(i, idx));
            break;
          }
          mask := mask * LEVEL;
          rest := rest / LEVEL;
          i := i + 1;
        }
      }
    }

    /** What the other threads ask for in the first of the moments without the lock. */
    ghost function During(windows: seq<seq<Request>>): seq<Op> {
      if windows == [] then [] else Adds(windows[0])
    }

    /** Takes out and dispatches what is due, without the lock; `windows` are the requests
        of other threads in those moments, if there are any. No such request is due at once,
        so one round is enough. */
    method TimerExecute(windows: seq<seq<Request>>) returns (found: bool)
      requires Placed() && Waiting(bag.pending, bag.now)
      requires forall i :: 0 <= i < |windows| ==> AreRequests(windows[i])
      modifies this`bag, this`sent, near, t
      ensures Valid()
      ensures found <==> Due(old(bag).pending, old(bag).now) != []
      ensures bag == Run(Passed(old(bag)), if found then During(windows) else [])
    {
      hide InPlace, NotDue, Due, Dispatches, Nodes, Events, Sent, Run, PlaceOf;
      var idx := time % NEAR;
      NearWraps(bag.now);
      DueInPlace(bag.pending, bag.now);
      NodesNone(Due(bag.pending, bag.now));
      NotDueSettled(bag.pending, bag.now);
      SentAppend(bag.log, Due(bag.pending, bag.now), bag.now);
      PassedNone(bag);
      var round := 0;
      while near[idx] != []
        invariant round == 0 ==> bag == old(bag) && Placed()
        invariant round > 0 ==> Valid() && near[idx] == [] && bag == Run(Passed(old(bag)), During(windows))
        invariant round > 0 ==> Due(old(bag).pending, old(bag).now) != []
        decreases |near[idx]|
      {
        var nodes := LinkClear(Near(idx));
        sent := sent + Events(nodes);
        forall p: Place | IsPlace(p)
          ensures InPlace(Passed(bag).pending, bag.now, p) ==
                  if p == Near(idx) then [] else InPlace(bag.pending, bag.now, p)
        {
          NotDueInPlace(bag.pending, bag.now, p);
        }
        bag := Passed(bag);
        PassedNone(bag);
        if round < |windows| { TimerAddAll(windows[round]); }
        round := round + 1;
        DueInPlace(bag.pending, bag.now);
        DueSettled(bag.pending, bag.now);
        NodesNone(Due(bag.pending, bag.now));
      }
      assert List(Near(idx)) == near[idx];
      found := round > 0;
    }

    /** One tick of the clock. Between two ticks nothing is due, so the pass before the
        shift finds nothing to do. */
    method TimerUpdate(windows: seq<seq<Request>>) returns (found: bool)
      requires Valid()
      requires forall i :: 0 <= i < |windows| ==> AreRequests(windows[i])
      modifies this`bag, this`sent, this`time, near, t
      ensures Valid() && bag == Run(Step(old(bag), Tick), if found then During(windows) else [])
      ensures found <==> Due(old(bag).pending, old(bag).now + 1) != []
    {
      hide InPlace, NotDue, Due, Dispatches, Sent, PlaceOf, Cascade, Digit, Shifted, Routed, Run;
      DueSettled(bag.pending, bag.now);
      PassedNone(bag);
      found := TimerExecute(windows);
      assert bag == old(bag);
      ShiftBag();
      found := TimerExecute(windows);
    }

    /** The shift, for the bag: one tick, and every list is again what it must be. */
    method ShiftBag()
      requires Valid()
      modifies this`bag, this`time, near, t
      ensures Placed() && Waiting(bag.pending, bag.now) && bag == old(bag).(now := old(bag.now) + 1)
    {
      hide InPlace, Routed, Cascade, PlaceOf, Clock, Round, Sent, Settled, Waiting;
      ghost var next := bag.now + 1;
      RoundNext(next);
      ClockNext(bag.now);
      WaitingNext(bag.pending, bag.now);
      TimerShift();
      ghost var c := Cascade(time);
      forall p: Place | IsPlace(p)
        ensures List(p) == InPlace(bag.pending, next, p)
      {
        assert old(List(p)) == InPlace(bag.pending, bag.now, p) && old(List(c)) == InPlace(bag.pending, bag.now, c);
        if Round(next) {
          ShiftMoves(bag.pending, bag.now, p);
        } else {
          ShiftKeeps(bag.pending, bag.now, p);
          assert List(p) == old(List(p));
        }
      }
      bag := bag.(now := next);
    }

    /** A tick with what the other threads ask for around it. When nothing was due, the lock
        is not open before the end of the tick. */
    method TickAmong(o: Others)
      requires Valid() && AreOthers(o)
      modifies this`bag, this`sent, this`time, near, t
      ensures Valid() && bag == Run(old(bag), TickOps(o))
    {
      hide Run, Step, Due, Ticks, Adds;
      TimerAddAll(o.before);
      PassedNone(Step(bag, Tick));
      var found := TimerUpdate([o.during]);
      if !found { TimerAddAll(o.during); }
      OneTick(old(bag), Adds(o.before), Adds(o.during));
    }

    /** The timer thread reads the clock: one tick for each hundredth of a second, and a
        clock that went back only moves the point of reference. */
    method UpdateTime(cp: nat, others: seq<Others>)
      requires Valid() && |others| == Passing(currentPoint, cp)
      requires forall i :: 0 <= i < |others| ==> AreOthers(others[i])
      modifies this, near, t
      ensures Valid() && currentPoint == cp
      ensures bag == Run(old(bag), TicksOps(others))
      ensures current == (old(current) + |others|) % 0x1_0000_0000_0000_0000
      ensures Ticks(TicksOps(others)) == |others|
      ensures |others| == if cp < old(currentPoint) then 0 else (cp - old(currentPoint)) % 0x1_0000_0000
    {
      hide Run, Step, Due, NotDue, Dispatches, Clock, Wide, AreOthers, InPlace, Sent, Settled, PlaceOf, TickOps;
      PassedNone(bag);
      NoOps(current);
      TicksOpsRun(others);
      PassingIs(currentPoint, cp);
      WideIs(current + |others|);
      if cp <= currentPoint { assert others == []; }
      if cp < currentPoint {
        currentPoint := cp;
      } else if cp != currentPoint {
        var diff := Clock(cp - currentPoint);
        currentPoint := cp;
        current := Wide(current + diff);
        assert others[..0] == [];
        for i := 0 to diff
          invariant Valid() && currentPoint == cp && current == Wide(old(current) + diff)
          invariant bag == Run(old(bag), TicksOps(others[..i]))
        {
          MoreTicks(old(bag), others, i);
          TickAmong(others[i]);
        }
        assert others[..diff] == others;
      }
    }
  }

  /* ---------- a whole history of calls ---------- */

  datatype Call = Ask(r: Request) | Read(cp: nat, others: seq<Others>)

  /** The last reading of the system's clock. */
  function Reading(now: nat, calls: seq<Call>): nat {
    if calls == [] then now
    else if calls[|calls| - 1].Read? then calls[|calls| - 1].cp
    else Reading(now, calls[..|calls| - 1])
  }

  /** A request that comes to the wheel, or a reading with what the other threads ask for
      around each of its ticks. */
  predicate IsCall(c: Call, last: nat) {
    match c
    case Ask(r) => IsRequest(r)
    case Read(cp, others) =>
      cp < CLOCK && |others| == Passing(last, cp) && forall i :: 0 <= i < |others| ==> AreOthers(others[i])
  }

  predicate AreCalls(now: nat, calls: seq<Call>) {
    forall i :: 0 <= i < |calls| ==> IsCall(calls[i], Reading(now, calls[..i]))
  }

  /** What a call asks of the bag of deadlines, and what all calls do. */
  function CallOps(c: Call): seq<Op> {
    match c
    case Ask(r) => [Add(r)]
    case Read(_, others) => TicksOps(others)
  }

  function CallsOps(calls: seq<Call>): seq<Op> {
    if calls == [] then [] else CallsOps(calls[..|calls| - 1]) + CallOps(calls[|calls| - 1])
  }

  lemma CallOpsRun(c: Call, last: nat)
    requires IsCall(c, last)
    ensures IsRun(CallOps(c))
  {
    if c.Read? { TicksOpsRun(c.others); }
  }

  lemma OneAdd(b: Bag, r: Request)
    ensures Run(b, [Add(r)]) == Step(b, Add(r))
  {
    assert [Add(r)][..0] == [];
  }

  lemma MoreCalls(b: Bag, calls: seq<Call>, k: nat, last: nat)
    requires k < |calls| && IsRun(CallsOps(calls[..k])) && IsCall(calls[k], last)
    ensures IsRun(CallsOps(calls[..k + 1]))
    ensures Run(b, CallsOps(calls[..k + 1])) == Run(Run(b, CallsOps(calls[..k])), CallOps(calls[k]))
  {
    hide IsRun, CallOps, IsCall;
    assert calls[..k + 1][..k] == calls[..k];
    CallOpsRun(calls[k], last);
    RunsAppend(CallsOps(calls[..k]), CallOps(calls[k]));
    RunAppend(b, CallsOps(calls[..k]), CallOps(calls[k]));
  }

  lemma NoTick(c: Call, current: nat)
    requires current < CLOCK
    ensures c.Ask? ==> Ticks(CallOps(c)) == 0 && current % 0x1_0000_0000_0000_0000 == current
  {
    if c.Ask? { assert [Add(c.r)][..0] == []; }
  }

  /** The readings do not fall, and each is less than 2^32 above the one before. */
  predicate Rises(now: nat, calls: seq<Call>) {
    forall i :: 0 <= i < |calls| && calls[i].Read? ==>
      Reading(now, calls[..i]) <= calls[i].cp < Reading(now, calls[..i]) + 0x1_0000_0000
  }

  lemma CallTicks(c: Call, last: nat)
    requires IsCall(c, last)
    ensures Ticks(CallOps(c)) == if c.Ask? || c.cp < last then 0 else (c.cp - last) % 0x1_0000_0000
  {
    match c
    case Ask(r) => assert [Add(r)][..0] == [];
    case Read(cp, others) =>
      TicksOpsRun(others);
      PassingIs(last, cp);
  }

  /** Then the ticks are the hundredths of a second that passed. */
  lemma {:induction false} TicksAreTime(now: nat, calls: seq<Call>)
    requires AreCalls(now, calls) && Rises(now, calls)
    ensures Reading(now, calls) >= now && Ticks(CallsOps(calls)) == Reading(now, calls) - now
  {
    hide Ticks, CallOps, CallsOps, IsCall, AreCalls, Rises, Reading;
    if calls == [] {
      NoTicks(now);
    } else {
      var before, c := calls[..|calls| - 1], calls[|calls| - 1];
      CallsBefore(now, calls);
      TicksAreTime(now, before);
      LastCall(now, calls);
      CallTicks(c, Reading(now, before));
      if c.Read? { Remainder(c.cp - Reading(now, before)); }
    }
  }

  lemma LastCall(now: nat, calls: seq<Call>)
    requires AreCalls(now, calls) && Rises(now, calls) && calls != []
    ensures var before, c := calls[..|calls| - 1], calls[|calls| - 1];
            var last := Reading(now, before);
            && IsCall(c, last) && Reading(now, calls) == (if c.Read? then c.cp else last)
            && (c.Read? ==> last <= c.cp < last + 0x1_0000_0000)
            && Ticks(CallsOps(calls)) == Ticks(CallsOps(before)) + Ticks(CallOps(c))
  {
    hide Ticks, CallOps, IsCall;
    var before, c := calls[..|calls| - 1], calls[|calls| - 1];
    TicksAppend(CallsOps(before), CallOps(c));
  }

  lemma NoTicks(now: nat)
    ensures Ticks(CallsOps([])) == 0 && Reading(now, []) == now
  {
  }

  lemma CallsBefore(now: nat, calls: seq<Call>)
    requires AreCalls(now, calls) && Rises(now, calls) && calls != []
    ensures AreCalls(now, calls[..|calls| - 1]) && Rises(now, calls[..|calls| - 1])
  {
    hide IsCall, Reading;
    var before := calls[..|calls| - 1];
    forall i | 0 <= i < |before|
      ensures IsCall(before[i], Reading(now, before[..i]))
      ensures before[i].Read? ==> Reading(now, before[..i]) <= before[i].cp < Reading(now, before[..i]) + 0x1_0000_0000
    {
      assert before[..i] == calls[..i];
    }
  }

  lemma Remainder(x: nat)
    ensures x < 0x1_0000_0000 ==> x % 0x1_0000_0000 == x
  {
  }

  /** A request is dispatched as many ticks later as its delay says. */
  lemma RequestOnTime(before: seq<Op>, r: Request, after: seq<Op>)
    requires IsRun(before) && IsRequest(r) && IsRun(after) && r.delay <= Ticks(after)
    ensures Dispatch(Ticks(before) + r.delay, r.event) in Run(EMPTY, before + [Add(r)] + after).log
  {
    hide Run, Ticks, Deadlines, IsRun;
    var ops, e := before + [Add(r)] + after, Entry(Ticks(before) + r.delay, r.event);
    AddRuns(r);
    RunsAppend(before, [Add(r)]);
    RunsAppend(before + [Add(r)], after);
    TicksAppend(before, [Add(r)]);
    TicksAppend(before + [Add(r)], after);
    Asked(before, r, after);
    DispatchedOnce(ops, e.due, r.event);
  }

  lemma AddRuns(r: Request)
    requires IsRequest(r)
    ensures IsRun([Add(r)]) && Ticks([Add(r)]) == 0
  {
    assert [Add(r)][..0] == [];
  }

  lemma {:induction false} Asked(before: seq<Op>, r: Request, after: seq<Op>)
    ensures Entry(Ticks(before) + r.delay, r.event) in Deadlines(before + [Add(r)] + after)
    decreases |after|
  {
    var ops := before + [Add(r)] + after;
    if after == [] {
      assert ops[..|ops| - 1] == before;
    } else {
      Asked(before, r, after[..|after| - 1]);
      assert ops[..|ops| - 1] == before + [Add(r)] + after[..|after| - 1];
    }
  }

  method Perform(timer: Timer, call: Call)
    requires timer.Valid() && IsCall(call, timer.currentPoint)
    modifies timer, timer.near, timer.t
    ensures timer.Valid() && timer.currentPoint == Reading(old(timer.currentPoint), [call])
    ensures timer.bag == Run(old(timer.bag), CallOps(call)) && timer.sent == Sent(timer.bag.log)
    ensures timer.current == (old(timer.current) + Ticks(CallOps(call))) % 0x1_0000_0000_0000_0000
  {
    hide Run, Step, Sent, Settled, InPlace, Wide, AreOthers, IsRequest, TicksOps, Ticks;
    NoTick(call, timer.current);
    match call {
      case Ask(r) =>
        OneAdd(timer.bag, r);
        timer.TimerAdd(r);
      case Read(cp, others) =>
        timer.UpdateTime(cp, others);
    }
  }

  lemma SumWraps(a: nat, b: nat)
    ensures (a % 0x1_0000_0000_0000_0000 + b) % 0x1_0000_0000_0000_0000 == (a + b) % 0x1_0000_0000_0000_0000
  {
  }

  /** Any history of requests and clock readings on the wheel, with requests of other threads
      around every tick: each event went out at the tick it was asked for, as often as it
      was asked for, and all the rest waits. */
  method RunCalls(start: nat, now: nat, calls: seq<Call>) returns (timer: Timer)
    requires start < CLOCK && AreCalls(now, calls)
    ensures timer.Valid() && timer.currentPoint == Reading(now, calls)
    ensures var ops := CallsOps(calls);
            && timer.bag == Exact(Deadlines(ops), Ticks(ops))
            && timer.sent == Sent(timer.bag.log)
            && timer.current == (start + Ticks(ops)) % 0x1_0000_0000_0000_0000
            && (Rises(now, calls) ==> Ticks(ops) == Reading(now, calls) - now)
            && forall t: nat, ev: Event :: multiset(timer.bag.log)[Dispatch(t, ev)] ==
                 if 1 <= t <= Ticks(ops) then multiset(Deadlines(ops))[Entry(t, ev)] else 0
  {
    hide Run, Step, Ticks, Deadlines, Exact, Sent, Settled, InPlace, IsRun, Wide, IsCall, CallOps, Rises;
    timer := new Timer(start, now);
    PassedNone(EMPTY);
    NoOps(start);
    for k := 0 to |calls|
      invariant fresh(timer) && fresh(timer.near) && fresh(timer.t) && timer.Valid() && timer.sent == Sent(timer.bag.log)
      invariant timer.currentPoint == Reading(now, calls[..k])
      invariant IsRun(CallsOps(calls[..k])) && timer.bag == Run(EMPTY, CallsOps(calls[..k]))
      invariant timer.current == (start + Ticks(CallsOps(calls[..k]))) % 0x1_0000_0000_0000_0000
    {
      assert calls[..k + 1][..k] == calls[..k] && IsCall(calls[k], timer.currentPoint);
      MoreCalls(EMPTY, calls, k, timer.currentPoint);
      TicksAppend(CallsOps(calls[..k]), CallOps(calls[k]));
      SumWraps(start + Ticks(CallsOps(calls[..k])), Ticks(CallOps(calls[k])));
      Perform(timer, calls[k]);
    }
    assert calls[..|calls|] == calls;
    if Rises(now, calls) { TicksAreTime(now, calls); }
    RunOnTime(CallsOps(calls));
    forall t: nat, ev: Event
      ensures multiset(timer.bag.log)[Dispatch(t, ev)] ==
              if 1 <= t <= Ticks(CallsOps(calls)) then multiset(Deadlines(CallsOps(calls)))[Entry(t, ev)] else 0
    {
      DispatchedOnce(CallsOps(calls), t, ev);
    }
  }
}
