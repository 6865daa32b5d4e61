/** What a run of the scheduler does to the messages, told from its actions alone: who was
    given what, in which order, and how many a worker takes at a time. */
module SkynetHistory {
  import opened SkynetQueue
  import opened SkynetScheduler

  /* ---------- runs ---------- */

  predicate IsRun(actions: seq<Action>)
    decreases |actions|, 0
  {
    actions == [] || (IsRun(actions[..|actions| - 1]) && Enabled(RunOf(actions[..|actions| - 1]), actions[|actions| - 1]))
  }

  function RunOf(actions: seq<Action>): State
    requires IsRun(actions)
    decreases |actions|, 1
  {
    if actions == [] then START else Do(RunOf(actions[..|actions| - 1]), actions[|actions| - 1])
  }

  lemma {:induction false} RunReaches(actions: seq<Action>)
    requires IsRun(actions)
    ensures Reachable(RunOf(actions), actions)
    decreases |actions|
  {
    hide Do, Enabled;
    if actions != [] { RunReaches(actions[..|actions| - 1]); }
  }

  /** And every reachable state is the end of its run. */
  lemma {:induction false} ReachedByRun(s: State, actions: seq<Action>)
    requires Reachable(s, actions)
    ensures IsRun(actions) && RunOf(actions) == s
    decreases |actions|
  {
    hide Do, Enabled;
    if actions != [] {
      var k := |actions| - 1;
      var before :| Reachable(before, actions[..k]) && Enabled(before, actions[k]) && s == Do(before, actions[k]);
      ReachedByRun(before, actions[..k]);
    }
  }

  /* ---------- the messages of one action ---------- */

  /** The message that an action puts into the queue of a service: the last step of a send,
      or the send of a holder. */
  function Puts(s: State, a: Action, id: nat): seq<Message>
    requires Enabled(s, a)
  {
    if id !in s.services || !s.services[id].made then []
    else
      match a
      case Go(t, _) => if s.tasks[t].Pushing? && s.tasks[t].id == id then [s.tasks[t].message] else []
      case SendHeld(t, m) => if s.tasks[t].id == id then [m] else []
      case _ => []
  }

  /** The message that a worker takes out for the service. */
  function Takes(s: State, a: Action, id: nat): seq<Message>
    requires Enabled(s, a)
  {
    if id in s.services && a.Go? && s.tasks[a.t].Worker? && s.tasks[a.t].at.Dispatch? && s.tasks[a.t].at.id == id &&
       s.tasks[a.t].at.i < s.tasks[a.t].at.n && s.services[id].queue.messages != []
    then [s.services[id].queue.messages[0]] else []
  }

  /** The message that is dropped from the queue of a service that is gone. */
  function Drops(s: State, a: Action, id: nat): seq<Message>
    requires Enabled(s, a)
  {
    if id in s.services && a.Go? && s.tasks[a.t].Dropping? && s.tasks[a.t].id == id && s.services[id].queue.messages != []
    then [s.services[id].queue.messages[0]] else []
  }

  /** What waits after an action is what waited, without what was taken or dropped, and then
      what was put in. */
  ghost predicate QueueMoves(s: State, a: Action, id: nat)
    requires Enabled(s, a) && id in s.services
  {
    var s' := Do(s, a);
    && id in s'.services
    && Takes(s, a, id) + Drops(s, a, id) + s'.services[id].queue.messages == s.services[id].queue.messages + Puts(s, a, id)
    && s'.services[id].pushed == s.services[id].pushed + Puts(s, a, id)
    && s'.services[id].delivered == s.services[id].delivered + Takes(s, a, id)
    && s'.services[id].dropped == s.services[id].dropped + Drops(s, a, id)
  }

  lemma MoveOutside(s: State, a: Action, id: nat)
    requires Enabled(s, a) && id in s.services && !a.Go?
    ensures QueueMoves(s, a, id)
  {
  }

  lemma MoveDispatch(s: State, t: nat, ok: bool, id: nat)
    requires Enabled(s, Go(t, ok)) && id in s.services && s.tasks[t].Worker? && s.tasks[t].at.Dispatch?
    ensures QueueMoves(s, Go(t, ok), id)
  {
    hide GrabNext, PushNext, RetireNext, ReleaseNext, DeleteNext, MqReleaseNext, DropNext;
  }

  lemma MoveWorker(s: State, t: nat, ok: bool, id: nat)
    requires Enabled(s, Go(t, ok)) && id in s.services && s.tasks[t].Worker? && !s.tasks[t].at.Dispatch?
    ensures QueueMoves(s, Go(t, ok), id)
  {
    hide DispatchNext, PushNext, RetireNext, ReleaseNext, DeleteNext, MqReleaseNext, DropNext;
  }

  predicate OfMessages(a: Activity) { a.Pushing? || a.Dropping? }

  predicate OfTheEnd(a: Activity) { a.Retiring? || a.Releasing? || a.Deleting? || a.MqRelease? }

  lemma MoveMessage(s: State, t: nat, ok: bool, id: nat)
    requires Enabled(s, Go(t, ok)) && id in s.services && OfMessages(s.tasks[t])
    ensures QueueMoves(s, Go(t, ok), id)
  {
    hide WorkerNext, GrabNext, RetireNext, ReleaseNext, DeleteNext, MqReleaseNext;
  }

  /** The messages of a service, and its histories, are as they were. */
  predicate SameMessages(s: State, s': State, id: nat)
    requires id in s.services
  {
    id in s'.services &&
    var sv, sv' := s.services[id], s'.services[id];
    && sv'.queue.messages == sv.queue.messages && sv'.pushed == sv.pushed
    && sv'.delivered == sv.delivered && sv'.dropped == sv.dropped
  }

  lemma GrabKeeps(s: State, t: nat, id: nat, found: Activity, missing: Option<Activity>, other: nat)
    requires id in s.services && other in s.services
    ensures SameMessages(s, GrabNext(s, t, id, found, missing), other)
  {
  }

  lemma RetireKeeps(s: State, t: nat, id: nat, then_: Then, other: nat)
    requires id in s.services && other in s.services
    ensures SameMessages(s, RetireNext(s, t, id, then_), other)
  {
  }

  lemma ReleaseKeeps(s: State, t: nat, id: nat, then_: Then, other: nat)
    requires id in s.services && other in s.services
    ensures SameMessages(s, ReleaseNext(s, t, id, then_), other)
  {
  }

  lemma DeleteKeeps(s: State, t: nat, id: nat, then_: Then, other: nat)
    requires id in s.services && other in s.services
    ensures SameMessages(s, DeleteNext(s, t, id, then_), other)
  {
  }

  lemma MqReleaseKeeps(s: State, t: nat, id: nat, then_: Then, other: nat)
    requires id in s.services && other in s.services
    ensures SameMessages(s, MqReleaseNext(s, t, id, then_), other)
  {
  }

  lemma SameMoves(s: State, a: Action, id: nat)
    requires Enabled(s, a) && id in s.services && SameMessages(s, Do(s, a), id)
    requires Puts(s, a, id) == Takes(s, a, id) == Drops(s, a, id) == []
    ensures QueueMoves(s, a, id)
  {
    hide Do, Puts, Takes, Drops;
  }

  lemma MoveEnd(s: State, t: nat, ok: bool, id: nat)
    requires Enabled(s, Go(t, ok)) && id in s.services && OfTheEnd(s.tasks[t])
    ensures QueueMoves(s, Go(t, ok), id)
  {
    hide WorkerNext, GrabNext, PushNext, DropNext, RetireNext, ReleaseNext, DeleteNext, MqReleaseNext, QueueMoves, SameMessages;
    match s.tasks[t] {
      case Retiring(at, then_) => RetireKeeps(s, t, at, then_, id);
      case Releasing(at, then_) => ReleaseKeeps(s, t, at, then_, id);
      case Deleting(at, then_) => DeleteKeeps(s, t, at, then_, id);
      case MqRelease(at, then_) => MqReleaseKeeps(s, t, at, then_, id);
    }
    SameMoves(s, Go(t, ok), id);
  }

  predicate OfLookup(a: Activity) { a.Lookup? || a.Grabbing? }

  lemma MoveLookup(s: State, t: nat, ok: bool, id: nat)
    requires Enabled(s, Go(t, ok)) && id in s.services && OfLookup(s.tasks[t])
    ensures QueueMoves(s, Go(t, ok), id)
  {
    hide WorkerNext, GrabNext, PushNext, DropNext, RetireNext, ReleaseNext, DeleteNext, MqReleaseNext, QueueMoves, SameMessages;
    match s.tasks[t] {
      case Lookup(at, m) => GrabKeeps(s, t, at, Pushing(at, m), None, id);
      case Grabbing(at) => GrabKeeps(s, t, at, Held(at), None, id);
    }
    SameMoves(s, Go(t, ok), id);
  }

  lemma MoveActivity(s: State, t: nat, ok: bool, id: nat)
    requires Enabled(s, Go(t, ok)) && id in s.services
    requires !s.tasks[t].Worker? && !OfMessages(s.tasks[t]) && !OfTheEnd(s.tasks[t]) && !OfLookup(s.tasks[t])
    ensures QueueMoves(s, Go(t, ok), id)
  {
    hide WorkerNext, GrabNext, PushNext, RetireNext, ReleaseNext, DeleteNext, MqReleaseNext, DropNext, QueueMoves;
    SameMoves(s, Go(t, ok), id);
  }

  /** One action, on any service. */
  lemma Moves(s: State, a: Action, id: nat)
    requires Enabled(s, a) && id in s.services
    ensures QueueMoves(s, a, id)
  {
    hide QueueMoves, Do;
    match a
    case Go(t, ok) =>
      var now := s.tasks[t];
      if now.Worker? && now.at.Dispatch? {
        MoveDispatch(s, t, ok, id);
      } else if now.Worker? {
        MoveWorker(s, t, ok, id);
      } else if OfMessages(now) {
        MoveMessage(s, t, ok, id);
      } else if OfTheEnd(now) {
        MoveEnd(s, t, ok, id);
      } else if OfLookup(now) {
        MoveLookup(s, t, ok, id);
      } else {
        MoveActivity(s, t, ok, id);
      }
    case _ => MoveOutside(s, a, id);
  }

  /* ---------- the messages of a run ---------- */

  /** The messages that the actions of a run put into the queue of a service, in order; those
      that they took out for the service, and those that were dropped. */
  function AllPut(actions: seq<Action>, id: nat): seq<Message>
    requires IsRun(actions)
  {
    if actions == [] then []
    else
      var k := |actions| - 1;
      AllPut(actions[..k], id) + Puts(RunOf(actions[..k]), actions[k], id)
  }

  function AllTaken(actions: seq<Action>, id: nat): seq<Message>
    requires IsRun(actions)
  {
    if actions == [] then []
    else
      var k := |actions| - 1;
      AllTaken(actions[..k], id) + Takes(RunOf(actions[..k]), actions[k], id)
  }

  function AllDropped(actions: seq<Action>, id: nat): seq<Message>
    requires IsRun(actions)
  {
    if actions == [] then []
    else
      var k := |actions| - 1;
      AllDropped(actions[..k], id) + Drops(RunOf(actions[..k]), actions[k], id)
  }

  lemma NotThere(s: State, a: Action, id: nat)
    requires Enabled(s, a) && id !in s.services
    ensures Puts(s, a, id) == Takes(s, a, id) == Drops(s, a, id) == []
    ensures id in Do(s, a).services ==>
              var sv := Do(s, a).services[id];
              sv.pushed == sv.delivered == sv.dropped == sv.queue.messages == []
  {
    if a.Go? { hide WorkerNext, GrabNext, PushNext, RetireNext, ReleaseNext, DeleteNext, MqReleaseNext, DropNext; }
  }

  /** The histories of a service are those of the run. */
  lemma {:induction false} Histories(actions: seq<Action>, id: nat)
    requires IsRun(actions)
    ensures id !in RunOf(actions).services ==> AllPut(actions, id) == AllTaken(actions, id) == AllDropped(actions, id) == []
    ensures id in RunOf(actions).services ==>
              var sv := RunOf(actions).services[id];
              sv.pushed == AllPut(actions, id) && sv.delivered == AllTaken(actions, id) && sv.dropped == AllDropped(actions, id)
  {
    if actions != [] {
      hide Do, Enabled, Puts, Takes, Drops;
      var k := |actions| - 1;
      Histories(actions[..k], id);
      var before := RunOf(actions[..k]);
      if id in before.services { Moves(before, actions[k], id); } else { NotThere(before, actions[k], id); }
    }
  }

  /** In every run: the messages that a service was handed, then those that were dropped when
      it was gone, then those that wait, are exactly the messages that were put in, in order. */
  lemma RunConserved(actions: seq<Action>, id: nat)
    requires IsRun(actions) && id in RunOf(actions).services
    ensures AllTaken(actions, id) + AllDropped(actions, id) + RunOf(actions).services[id].queue.messages == AllPut(actions, id)
    ensures AllDropped(actions, id) != [] ==> RunOf(actions).services[id].gone
  {
    hide IsRun, RunOf, AllPut, AllTaken, AllDropped, Reachable;
    Histories(actions, id);
    RunReaches(actions);
    Conserved(RunOf(actions), actions, id);
    InvReachable(RunOf(actions), actions);
    assert ServiceOk(RunOf(actions), id);
  }

  /* ---------- sending ---------- */

  lemma LookupStep(s: State, t: nat, id: nat, m: Message)
    requires t in s.tasks && s.tasks[t] == Lookup(id, m) && Present(s, s.tasks[t]) && s.services[id].registered
    ensures var sv := s.services[id];
            Do(s, Go(t, true)) == Set(s, t, Some(Pushing(id, m)), id, sv.(ref := sv.ref + 1, holders := sv.holders + {t}), s.list)
  {
    hide WorkerNext, PushNext, RetireNext, ReleaseNext, DeleteNext, MqReleaseNext, DropNext;
  }

  /** The message is at the end of the queue, and a queue that was idle is on the list. */
  lemma PushStep(s: State, t: nat, id: nat, m: Message)
    requires t in s.tasks && s.tasks[t] == Pushing(id, m) && Present(s, s.tasks[t]) && s.services[id].made
    ensures var sv, s' := s.services[id], Do(s, Go(t, true));
            && s'.tasks == s.tasks[t := Releasing(id, Done)] && s'.services == s.services[id := s'.services[id]]
            && s'.services[id].queue == Queue(sv.queue.messages + [m], true, sv.queue.release)
            && s'.services[id].ref == sv.ref && s'.services[id].registered == sv.registered && s'.services[id].holders == sv.holders
            && s'.list == (if sv.queue.inGlobal then s.list else s.list + [id])
  {
    hide WorkerNext, GrabNext, RetireNext, ReleaseNext, DeleteNext, MqReleaseNext, DropNext;
  }

  lemma ReleaseStep(s: State, t: nat, id: nat)
    requires t in s.tasks && s.tasks[t] == Releasing(id, Done) && Present(s, s.tasks[t]) && s.services[id].ref > 1
    ensures var sv := s.services[id];
            Do(s, Go(t, true)) == Set(s, t, None, id, sv.(ref := sv.ref - 1, holders := sv.holders - {t}), s.list)
  {
    hide WorkerNext, GrabNext, PushNext, RetireNext, DeleteNext, MqReleaseNext, DropNext;
  }

  /** The same for the other services. */
  predicate SameOthers(s: State, s': State, id: nat) {
    forall other :: other in s.services && other != id ==> other in s'.services && s'.services[other] == s.services[other]
  }

  lemma SendGrabs(s: State, t: nat, id: nat, m: Message) returns (s1: State, s2: State)
    requires t !in s.tasks && id in s.services && s.services[id].registered && (s.list != [] ==> s.list[0] in s.services)
    ensures s1 == Do(s, Send(t, id, m)) && Enabled(s1, Go(t, true)) && s2 == Do(s1, Go(t, true))
    ensures s2.tasks == s.tasks[t := Pushing(id, m)] && s2.list == s.list && SameOthers(s, s2, id)
    ensures var sv := s.services[id];
            id in s2.services && s2.services[id] == sv.(ref := sv.ref + 1, holders := sv.holders + {t})
  {
    s1 := Do(s, Send(t, id, m));
    hide Advance;
    LookupStep(s1, t, id, m);
    s2 := Do(s1, Go(t, true));
    assert s.tasks[t := Lookup(id, m)][t := Pushing(id, m)] == s.tasks[t := Pushing(id, m)];
  }

  lemma SendPuts(s: State, t: nat, id: nat, m: Message) returns (s1: State, s2: State)
    requires t in s.tasks && s.tasks[t] == Pushing(id, m) && Present(s, s.tasks[t])
    requires s.services[id].made && s.services[id].ref > 1
    ensures s1 == Do(s, Go(t, true)) && Enabled(s1, Go(t, true)) && s2 == Do(s1, Go(t, true))
    ensures s2.tasks == s.tasks - {t} && SameOthers(s, s2, id) && id in s2.services
    ensures var sv := s.services[id];
            && s2.services[id].queue.messages == sv.queue.messages + [m]
            && s2.services[id].ref == sv.ref - 1 && s2.services[id].registered == sv.registered
            && s2.list == (if sv.queue.inGlobal then s.list else s.list + [id])
  {
    hide Advance, PushTo;
    PushStep(s, t, id, m);
    s1 := Do(s, Go(t, true));
    ReleaseStep(s1, t, id);
    s2 := Do(s1, Go(t, true));
  }

  /** A send to a handle that is in the table, when nothing comes in between: a reference, the
      message at the end of the queue, and the reference back. */
  lemma SendArrives(s: State, t: nat, id: nat, m: Message) returns (s1: State, s2: State, s3: State, s': State)
    requires Inv(s) && t !in s.tasks && id in s.services && s.services[id].registered && s.services[id].made
    ensures s1 == Do(s, Send(t, id, m))
    ensures Enabled(s1, Go(t, true)) && s2 == Do(s1, Go(t, true))
    ensures Enabled(s2, Go(t, true)) && s3 == Do(s2, Go(t, true))
    ensures Enabled(s3, Go(t, true)) && s' == Do(s3, Go(t, true))
    ensures s'.tasks == s.tasks && SameOthers(s, s', id) && id in s'.services
    ensures var sv := s.services[id];
            && s'.services[id].queue.messages == sv.queue.messages + [m]
            && s'.services[id].ref == sv.ref && s'.services[id].registered
            && s'.list == (if sv.queue.inGlobal then s.list else s.list + [id])
  {
    hide Inv, Do, Has, Reference;
    CountedHere(s, id);
    s1, s2 := SendGrabs(s, t, id, m);
    s3, s' := SendPuts(s2, t, id, m);
    assert s.tasks[t := Pushing(id, m)] - {t} == s.tasks;
  }

  lemma CountedHere(s: State, id: nat)
    requires Inv(s) && id in s.services
    ensures s.services[id].registered ==> s.services[id].ref > 0
    ensures s.list != [] ==> s.list[0] in s.services
  {
    if s.list != [] { ListThere(s); }
    assert ServiceOk(s, id);
    hide Inv;
  }

  /* ---------- the batches of a worker ---------- */

  function PowerOfTwo(k: nat): (p: nat)
    ensures p > 0
  {
    if k == 0 then 1 else 2 * PowerOfTwo(k - 1)
  }

  /** What is left of `n` when a weight of `k` is taken into account. */
  function Share(n: nat, k: nat): nat { Parts(n, PowerOfTwo(k)) }

  function Parts(n: nat, p: nat): nat
    requires p > 0
  {
    n / p
  }

  lemma {:induction false} HalvedIs(n: nat, k: nat)
    ensures Halved(n, k) == Share(n, k)
    decreases k
  {
    if k == 0 {
      assert Parts(n, 1) == n;
    } else {
      hide Parts;
      HalvedIs(n / 2, k - 1);
      HalfFirst(n, PowerOfTwo(k - 1));
    }
  }

  lemma HalfFirst(n: nat, p: nat)
    requires p > 0
    ensures Parts(n / 2, p) == Parts(n, 2 * p)
  {
    hide Parts;
    var q, r := Division(n, 2 * p);
    Twice(p, q);
    HalfOf(n, p * q, r);
    Quotient(p, q, r / 2);
  }

  lemma Division(n: nat, m: nat) returns (q: nat, r: nat)
    requires m > 0
    ensures q == Parts(n, m) && n == m * q + r && r < m
  {
    q, r := n / m, n % m;
  }

  lemma Twice(p: nat, q: nat)
    ensures (2 * p) * q == 2 * (p * q)
  {
  }

  lemma HalfOf(n: nat, a: nat, r: nat)
    requires n == 2 * a + r
    ensures n / 2 == a + r / 2
  {
  }

  lemma AtLeastOnce(p: nat, a: nat, b: nat)
    requires a < b
    ensures p * a + p <= p * b
  {
    var more: nat := b - a - 1;
    assert p * b == p * a + p + p * more;
  }

  lemma Quotient(p: nat, q: nat, r: nat)
    requires r < p
    ensures Parts(p * q + r, p) == q
  {
    var n := p * q + r;
    var d, m := n / p, n % p;
    assert n == p * d + m && m < p;
    if d < q { AtLeastOnce(p, d, q); } else if q < d { AtLeastOnce(p, q, d); }
  }

  /** How many messages a worker takes from a queue of this length before it looks for
      another queue: one without a weight; else what is left behind the first one, divided by
      a power of two, and one at least. */
  function BatchSize(length: nat, weight: int): nat
    requires length > 0
  {
    if weight < 0 || Share(length - 1, weight) <= 1 then 1 else Share(length - 1, weight)
  }

  /** `k` steps of an activity, when nothing comes in between. */
  function Alone(s: State, t: nat, k: nat): State {
    if k == 0 then s
    else
      var before := Alone(s, t, k - 1);
      if Enabled(before, Go(t, true)) then Do(before, Go(t, true)) else before
  }

  lemma {:induction false} AloneAdd(s: State, t: nat, j: nat, k: nat)
    ensures Alone(Alone(s, t, j), t, k) == Alone(s, t, j + k)
    decreases k
  {
    hide Do, Enabled;
    if k > 0 { AloneAdd(s, t, j, k - 1); }
  }

  lemma AloneOne(s: State, t: nat)
    requires Enabled(s, Go(t, true))
    ensures Alone(s, t, 1) == Do(s, Go(t, true))
  {
    hide Do, Enabled;
    assert Alone(s, t, 0) == s;
  }

  /** The state in which a worker is at `at` and has taken the first `k` messages. */
  predicate HasTaken(s: State, s': State, t: nat, weight: int, at: At, id: nat, k: nat) {
    && id in s.services && id in s'.services && k <= |s.services[id].queue.messages|
    && s'.tasks == s.tasks[t := Worker(weight, at)] && s'.list == s.list && SameOthers(s, s', id)
    && s'.services[id].queue == s.services[id].queue.(messages := s.services[id].queue.messages[k..])
    && s'.services[id].delivered == s.services[id].delivered + s.services[id].queue.messages[..k]
  }

  lemma TakeStep(s: State, t: nat, weight: int, id: nat, i: nat, n: nat)
    requires t in s.tasks && s.tasks[t] == Worker(weight, Dispatch(id, i, n)) && Present(s, s.tasks[t])
    requires i < n && s.services[id].queue.messages != []
    ensures HasTaken(s, Do(s, Go(t, true)), t, weight, if i == 0 && weight >= 0 then Measure(id) else Running(id, i, n), id, 1)
  {
    hide GrabNext, PushNext, RetireNext, ReleaseNext, DeleteNext, MqReleaseNext, DropNext;
  }

  lemma MeasureStep(s: State, t: nat, weight: nat, id: nat)
    requires t in s.tasks && s.tasks[t] == Worker(weight, Measure(id)) && Present(s, s.tasks[t])
    ensures HasTaken(s, Do(s, Go(t, true)), t, weight,
                     Running(id, 0, Share(|s.services[id].queue.messages|, weight)), id, 0)
  {
    hide Halved, Share, GrabNext, PushNext, RetireNext, ReleaseNext, DeleteNext, MqReleaseNext, DropNext;
    HalvedIs(|s.services[id].queue.messages|, weight);
  }

  lemma RunningStep(s: State, t: nat, weight: int, id: nat, i: nat, n: nat)
    requires t in s.tasks && s.tasks[t] == Worker(weight, Running(id, i, n)) && Present(s, s.tasks[t])
    ensures HasTaken(s, Do(s, Go(t, true)), t, weight, Dispatch(id, i + 1, n), id, 0)
  {
    hide GrabNext, PushNext, RetireNext, ReleaseNext, DeleteNext, MqReleaseNext, DropNext;
  }

  lemma TakenBoth(s: State, s1: State, s2: State, t: nat, weight: int, at1: At, at2: At, id: nat, j: nat, k: nat)
    requires HasTaken(s, s1, t, weight, at1, id, j) && HasTaken(s1, s2, t, weight, at2, id, k)
    ensures HasTaken(s, s2, t, weight, at2, id, j + k)
  {
    var ms := s.services[id].queue.messages;
    Slices(ms, j, k);
    assert s.services[id].delivered + ms[..j] + ms[j..][..k] == s.services[id].delivered + ms[..j + k];
    SetTwice(s.tasks, t, Worker(weight, at1), Worker(weight, at2));
  }

  lemma Slices(ms: seq<Message>, j: nat, k: nat)
    requires j + k <= |ms|
    ensures ms[j..][k..] == ms[j + k..] && ms[..j + k] == ms[..j] + ms[j..][..k]
  {
  }

  lemma SetTwice(tasks: map<nat, Activity>, t: nat, a: Activity, b: Activity)
    ensures tasks[t := a][t := b] == tasks[t := b]
  {
  }

  lemma StillPresent(s: State, s': State, t: nat, weight: int, at: At, id: nat, k: nat)
    requires HasTaken(s, s', t, weight, at, id, k) && (s.list != [] ==> s.list[0] in s.services)
    requires !at.Idle? && at.id == id
    ensures t in s'.tasks && s'.tasks[t] == Worker(weight, at) && Present(s', s'.tasks[t]) && Enabled(s', Go(t, true))
    ensures s'.list != [] ==> s'.list[0] in s'.services
  {
  }

  /** The rest of a batch, when there are enough messages for it. */
  lemma {:induction false} BatchGoesOn(s: State, t: nat, weight: int, id: nat, i: nat, n: nat)
    requires t in s.tasks && s.tasks[t] == Worker(weight, Dispatch(id, i, n)) && Present(s, s.tasks[t])
    requires i <= n && (i > 0 || weight < 0) && n - i <= |s.services[id].queue.messages|
    ensures HasTaken(s, Alone(s, t, 2 * (n - i)), t, weight, Dispatch(id, n, n), id, n - i)
    decreases n - i
  {
    hide Do, HasTaken, Alone;
    if i == n {
      NothingTaken(s, t, weight, Dispatch(id, n, n), id);
    } else {
      BatchOne(s, t, weight, id, i, n);
      var s2 := Alone(s, t, 2);
      StillPresent(s, s2, t, weight, Dispatch(id, i + 1, n), id, 1);
      TakenLeaves(s, s2, t, weight, Dispatch(id, i + 1, n), id, 1);
      BatchGoesOn(s2, t, weight, id, i + 1, n);
      AloneAdd(s, t, 2, 2 * (n - i - 1));
      TakenBoth(s, s2, Alone(s, t, 2 * (n - i)), t, weight, Dispatch(id, i + 1, n), Dispatch(id, n, n), id, 1, n - i - 1);
    }
  }

  lemma NothingTaken(s: State, t: nat, weight: int, at: At, id: nat)
    requires t in s.tasks && s.tasks[t] == Worker(weight, at) && id in s.services
    ensures HasTaken(s, Alone(s, t, 0), t, weight, at, id, 0)
  {
    assert s.tasks[t := s.tasks[t]] == s.tasks;
    assert s.services[id].delivered + [] == s.services[id].delivered;
  }

  lemma TakenLeaves(s: State, s': State, t: nat, weight: int, at: At, id: nat, k: nat)
    requires HasTaken(s, s', t, weight, at, id, k)
    ensures id in s'.services && |s'.services[id].queue.messages| == |s.services[id].queue.messages| - k
  {
  }

  lemma BatchOne(s: State, t: nat, weight: int, id: nat, i: nat, n: nat)
    requires t in s.tasks && s.tasks[t] == Worker(weight, Dispatch(id, i, n)) && Present(s, s.tasks[t])
    requires i < n && (i > 0 || weight < 0) && s.services[id].queue.messages != []
    ensures HasTaken(s, Alone(s, t, 2), t, weight, Dispatch(id, i + 1, n), id, 1)
  {
    hide Do, HasTaken, Alone;
    TakeStep(s, t, weight, id, i, n);
    AloneOne(s, t);
    var s1 := Alone(s, t, 1);
    StillPresent(s, s1, t, weight, Running(id, i, n), id, 1);
    RunningStep(s1, t, weight, id, i, n);
    AloneOne(s1, t);
    AloneAdd(s, t, 1, 1);
    TakenBoth(s, s1, Alone(s, t, 2), t, weight, Running(id, i, n), Dispatch(id, i + 1, n), id, 1, 0);
  }

  /** The first message of a batch with a weight, and the look at what is left behind it. */
  lemma BatchBegins(s: State, t: nat, weight: nat, id: nat)
    requires t in s.tasks && s.tasks[t] == Worker(weight, Dispatch(id, 0, 1)) && Present(s, s.tasks[t])
    requires s.services[id].queue.messages != []
    ensures HasTaken(s, Alone(s, t, 3), t, weight, Dispatch(id, 1, Share(|s.services[id].queue.messages| - 1, weight)), id, 1)
  {
    hide Do, HasTaken, Alone, Share;
    var n := Share(|s.services[id].queue.messages| - 1, weight);
    TakeStep(s, t, weight, id, 0, 1);
    AloneOne(s, t);
    var s1 := Alone(s, t, 1);
    StillPresent(s, s1, t, weight, Measure(id), id, 1);
    TakenLeaves(s, s1, t, weight, Measure(id), id, 1);
    MeasureStep(s1, t, weight, id);
    AloneOne(s1, t);
    AloneAdd(s, t, 1, 1);
    var s2 := Alone(s, t, 2);
    TakenBoth(s, s1, s2, t, weight, Measure(id), Running(id, 0, n), id, 1, 0);
    StillPresent(s, s2, t, weight, Running(id, 0, n), id, 1);
    RunningStep(s2, t, weight, id, 0, n);
    AloneOne(s2, t);
    AloneAdd(s, t, 2, 1);
    TakenBoth(s, s2, Alone(s, t, 3), t, weight, Running(id, 0, n), Dispatch(id, 1, n), id, 1, 0);
  }

  lemma ShareAtMost(n: nat, k: nat)
    ensures Share(n, k) <= n
  {
    QuotientAtMost(n, PowerOfTwo(k));
  }

  lemma QuotientAtMost(n: nat, p: nat)
    requires p > 0
    ensures Parts(n, p) <= n
  {
    var q, more := n / p, p - 1;
    assert n == p * q + n % p;
    assert p * q == q + more * q;
    assert more * q >= 0;
  }

  /** A worker with a queue that is not empty, when nothing comes in between: it takes exactly
      the messages of its batch, in order, and is then at the end of the batch. */
  lemma Batch(s: State, t: nat, weight: int, id: nat) returns (k: nat, i: nat, n: nat)
    requires t in s.tasks && s.tasks[t] == Worker(weight, Dispatch(id, 0, 1)) && Present(s, s.tasks[t])
    requires s.services[id].queue.messages != []
    ensures i >= n
    ensures HasTaken(s, Alone(s, t, k), t, weight, Dispatch(id, i, n), id, BatchSize(|s.services[id].queue.messages|, weight))
  {
    hide Do, HasTaken, Alone, Share;
    if weight < 0 {
      BatchOne(s, t, weight, id, 0, 1);
      k, i, n := 2, 1, 1;
    } else {
      n := Share(|s.services[id].queue.messages| - 1, weight);
      ShareAtMost(|s.services[id].queue.messages| - 1, weight);
      BatchBegins(s, t, weight, id);
      k, i := 3, 1;
      if n > 1 {
        var s3 := Alone(s, t, 3);
        StillPresent(s, s3, t, weight, Dispatch(id, 1, n), id, 1);
        TakenLeaves(s, s3, t, weight, Dispatch(id, 1, n), id, 1);
        BatchGoesOn(s3, t, weight, id, 1, n);
        AloneAdd(s, t, 3, 2 * (n - 1));
        k, i := 3 + 2 * (n - 1), n;
        TakenBoth(s, s3, Alone(s, t, k), t, weight, Dispatch(id, 1, n), Dispatch(id, n, n), id, 1, n - 1);
      }
    }
  }

  /** At the end of a batch, without another queue on the list: the worker keeps its own. */
  lemma BatchKeeps(s: State, t: nat, weight: int, id: nat, i: nat, n: nat)
    requires t in s.tasks && s.tasks[t] == Worker(weight, Dispatch(id, i, n)) && i >= n
    requires Present(s, s.tasks[t]) && s.list == []
    ensures Do(s, Go(t, true)) == s.(tasks := s.tasks[t := Releasing(id, Resume(weight, Some(id)))])
  {
    hide GrabNext, PushNext, RetireNext, ReleaseNext, DeleteNext, MqReleaseNext, DropNext;
  }

  lemma HandOver(s: State, t: nat, weight: int, id: nat, i: nat, n: nat)
    requires t in s.tasks && s.tasks[t] == Worker(weight, Dispatch(id, i, n)) && i >= n
    requires Present(s, s.tasks[t]) && s.list != []
    ensures Do(s, Go(t, true)) ==
            Set(s, t, Some(Worker(weight, Swap(id, s.list[0]))), s.list[0], s.services[s.list[0]].(owner := Task(t)), s.list[1..])
  {
    hide GrabNext, PushNext, RetireNext, ReleaseNext, DeleteNext, MqReleaseNext, DropNext;
  }

  lemma PutBack(s: State, t: nat, weight: int, id: nat, next: nat)
    requires t in s.tasks && s.tasks[t] == Worker(weight, Swap(id, next)) && Present(s, s.tasks[t])
    ensures Do(s, Go(t, true)) ==
            Set(s, t, Some(Releasing(id, Resume(weight, Some(next)))), id, s.services[id].(owner := Listed), s.list + [id])
  {
    hide GrabNext, PushNext, RetireNext, ReleaseNext, DeleteNext, MqReleaseNext, DropNext;
  }

  /** With another queue on the list the worker goes on with that one, and its own goes to
      the end of the list. */
  lemma BatchEnds(s: State, t: nat, weight: int, id: nat, i: nat, n: nat) returns (s1: State, s2: State)
    requires Inv(s) && t in s.tasks && s.tasks[t] == Worker(weight, Dispatch(id, i, n)) && i >= n && s.list != []
    ensures Enabled(s, Go(t, true)) && s1 == Do(s, Go(t, true))
    ensures Enabled(s1, Go(t, true)) && s2 == Do(s1, Go(t, true))
    ensures s2.list == s.list[1..] + [id] && s2.tasks == s.tasks[t := Releasing(id, Resume(weight, Some(s.list[0])))]
    ensures s.list[0] in s2.services && s2.services[s.list[0]].owner == Task(t)
    ensures forall other :: other in s.services ==> other in s2.services && s2.services[other].queue == s.services[other].queue
  {
    hide Advance, Inv, Has, Reference;
    WorkerPresent(s, t);
    DispatchingReadyToo(s, t, id);
    HandOver(s, t, weight, id, i, n);
    s1 := Do(s, Go(t, true));
    ListAll(s);
    PutBack(s1, t, weight, id, s.list[0]);
    s2 := Do(s1, Go(t, true));
    SetTwice(s.tasks, t, Worker(weight, Swap(id, s.list[0])), Releasing(id, Resume(weight, Some(s.list[0]))));
  }

  lemma ListAll(s: State)
    requires Inv(s)
    ensures forall i :: 0 <= i < |s.list| ==> s.list[i] in s.services
  {
    hide TaskOk, ServiceOk;
  }

  lemma WorkerPresent(s: State, t: nat)
    requires Inv(s) && t in s.tasks
    ensures Present(s, s.tasks[t])
  {
    hide Has, Reference, Sound, ServiceOk;
    assert TaskOk(s, t);
    if s.list != [] { ListThere(s); }
  }

  /** The queue at the front of the list is another one. */
  lemma DispatchingReadyToo(s: State, t: nat, id: nat)
    requires Inv(s) && t in s.tasks && Dispatching(s.tasks[t], id) && s.list != []
    ensures s.list[0] != id && s.list[0] in s.services
  {
    assert TaskOk(s, t);
    ListThere(s);
    assert Has(s.tasks[t], id) && ServiceOk(s, id);
    hide TaskOk, Inv;
  }

  /* ---------- launches ---------- */

  predicate Owns(s: State, t: nat, id: nat, a: Activity) {
    t in s.tasks && s.tasks[t] == a && id in s.services && (s.list != [] ==> s.list[0] in s.services)
  }

  /** The state after a step that sets one activity and one service, and may list the service. */
  predicate Leads(s: State, r: State, t: nat, id: nat, a: Option<Activity>, sv: Service, listed: bool) {
    r == Set(s, t, a, id, sv, if listed then s.list + [id] else s.list)
  }

  /** One step after another. */
  lemma LeadsOn(s: State, s1: State, t: nat, id: nat, a: Activity, sv: Service)
    requires id in s.services && (s.list != [] ==> s.list[0] in s.services) && Leads(s, s1, t, id, Some(a), sv, false)
    ensures Owns(s1, t, id, a) && s1.services[id] == sv
    ensures forall r, b, sv', listed :: Leads(s1, r, t, id, b, sv', listed) ==> Leads(s, r, t, id, b, sv', listed)
  {
    forall r, b: Option<Activity>, sv', listed | Leads(s1, r, t, id, b, sv', listed) ensures Leads(s, r, t, id, b, sv', listed) {
      assert s.services[id := sv][id := sv'] == s.services[id := sv'];
      if b.Some? {
        assert s.tasks[t := a][t := b.value] == s.tasks[t := b.value];
      } else {
        assert s.tasks[t := a] - {t} == s.tasks - {t};
      }
    }
  }

  lemma MakeStep(s: State, t: nat, id: nat)
    requires Owns(s, t, id, Creating(id))
    ensures Enabled(s, Go(t, true)) && Leads(s, Do(s, Go(t, true)), t, id, Some(Init(id)), s.services[id].(made := true), false)
  {
    hide WorkerNext, GrabNext, PushNext, RetireNext, ReleaseNext, DeleteNext, MqReleaseNext, DropNext;
  }

  lemma InitStep(s: State, t: nat, id: nat, ok: bool)
    requires Owns(s, t, id, Init(id))
    ensures Enabled(s, Go(t, ok))
    ensures Leads(s, Do(s, Go(t, ok)), t, id, Some(Releasing(id, if ok then ToPublish else ToRetire)), s.services[id], false)
  {
    hide WorkerNext, GrabNext, PushNext, RetireNext, ReleaseNext, DeleteNext, MqReleaseNext, DropNext;
    assert s.services[id := s.services[id]] == s.services;
  }

  /** The creator gives its reference back and learns whether the service is still there. */
  lemma GiveBackStep(s: State, t: nat, id: nat)
    requires Owns(s, t, id, Releasing(id, ToPublish))
    ensures var sv := s.services[id];
            && Enabled(s, Go(t, true))
            && Leads(s, Do(s, Go(t, true)), t, id, Some(if sv.ref != 1 then Ready(id) else Deleting(id, ToPublish)),
                     sv.(ref := sv.ref - 1, holders := sv.holders - {t}, deleter := if sv.ref == 1 then Some(t) else sv.deleter), false)
  {
    hide WorkerNext, GrabNext, PushNext, RetireNext, DeleteNext, MqReleaseNext, DropNext;
  }

  lemma ReadyStep(s: State, t: nat, id: nat)
    requires Owns(s, t, id, Ready(id))
    ensures Enabled(s, Go(t, true)) && Leads(s, Do(s, Go(t, true)), t, id, Some(Publish(id, true)), s.services[id].(init := true), false)
  {
    hide WorkerNext, GrabNext, PushNext, RetireNext, ReleaseNext, DeleteNext, MqReleaseNext, DropNext;
  }

  lemma PublishStep(s: State, t: nat, id: nat, ret: bool)
    requires Owns(s, t, id, Publish(id, ret))
    ensures Enabled(s, Go(t, true))
    ensures Leads(s, Do(s, Go(t, true)), t, id, if ret then Some(Logging(id)) else None, s.services[id].(owner := Listed), true)
  {
    hide WorkerNext, GrabNext, PushNext, RetireNext, ReleaseNext, DeleteNext, MqReleaseNext, DropNext;
  }

  lemma LastSteps(s: State, t: nat, id: nat)
    requires Owns(s, t, id, Logging(id))
    ensures Enabled(s, Go(t, true)) && Enabled(Do(s, Go(t, true)), Go(t, true))
    ensures Leads(s, Do(Do(s, Go(t, true)), Go(t, true)), t, id, None, s.services[id], false)
  {
    hide WorkerNext, GrabNext, PushNext, RetireNext, ReleaseNext, DeleteNext, MqReleaseNext, DropNext;
    assert s.services[id := s.services[id]] == s.services;
    assert s.tasks[t := Returned(id)] - {t} == s.tasks - {t};
  }

  lemma ListedOn(s: State, s1: State, t: nat, id: nat, a: Activity, sv: Service)
    requires id in s.services && (s.list != [] ==> s.list[0] in s.services) && Leads(s, s1, t, id, Some(a), sv, true)
    ensures Owns(s1, t, id, a) && s1.services[id] == sv
    ensures forall r, sv' :: Leads(s1, r, t, id, None, sv', false) ==> Leads(s, r, t, id, None, sv', true)
  {
    forall r, sv' | Leads(s1, r, t, id, None, sv', false) ensures Leads(s, r, t, id, None, sv', true) {
      assert s.services[id := sv][id := sv'] == s.services[id := sv'];
      assert s.tasks[t := a] - {t} == s.tasks - {t};
    }
  }

  /** A creator alone, after a successful init: the service is in the table, which alone refers
      to it, it is marked as set up, and its queue is on the list. */
  lemma Launches(s: State, t: nat, id: nat)
    requires Owns(s, t, id, Creating(id)) && s.services[id].ref == 2
    ensures var sv := s.services[id];
            Leads(s, Alone(s, t, 7), t, id, None, sv.(made := true, ref := 1, holders := sv.holders - {t}, init := true, owner := Listed), true)
  {
    hide Do, Enabled, Leads;
    var sv := s.services[id];
    MakeStep(s, t, id);
    var s1, sv1 := Do(s, Go(t, true)), sv.(made := true);
    LeadsOn(s, s1, t, id, Init(id), sv1);
    InitStep(s1, t, id, true);
    var s2 := Do(s1, Go(t, true));
    LeadsOn(s, s2, t, id, Releasing(id, ToPublish), sv1);
    GiveBackStep(s2, t, id);
    var s3, sv3 := Do(s2, Go(t, true)), sv1.(ref := 1, holders := sv.holders - {t});
    LeadsOn(s, s3, t, id, Ready(id), sv3);
    ReadyStep(s3, t, id);
    var s4, sv4 := Do(s3, Go(t, true)), sv3.(init := true);
    LeadsOn(s, s4, t, id, Publish(id, true), sv4);
    PublishStep(s4, t, id, true);
    var s5 := Do(s4, Go(t, true));
    ListedOn(s, s5, t, id, Logging(id), sv4.(owner := Listed));
    LastSteps(s5, t, id);
    AloneSeven(s, t, s1, s2, s3, s4, s5);
  }

  lemma AloneSeven(s: State, t: nat, s1: State, s2: State, s3: State, s4: State, s5: State)
    requires Enabled(s, Go(t, true)) && s1 == Do(s, Go(t, true)) && Enabled(s1, Go(t, true)) && s2 == Do(s1, Go(t, true))
    requires Enabled(s2, Go(t, true)) && s3 == Do(s2, Go(t, true)) && Enabled(s3, Go(t, true)) && s4 == Do(s3, Go(t, true))
    requires Enabled(s4, Go(t, true)) && s5 == Do(s4, Go(t, true)) && Enabled(s5, Go(t, true)) && Enabled(Do(s5, Go(t, true)), Go(t, true))
    ensures Alone(s, t, 7) == Do(Do(s5, Go(t, true)), Go(t, true))
  {
    hide Do, Enabled;
    AloneFour(s, t, s1, s2, s3, s4);
    assert Alone(s, t, 5) == s5;
    assert Alone(s, t, 6) == Do(s5, Go(t, true));
  }

  /** When its reference was the last, the creator deletes the service, lists its queue, which is
      marked, and does not use the service any more. */
  lemma LaunchesGone(s: State, t: nat, id: nat)
    requires Owns(s, t, id, Releasing(id, ToPublish)) && s.services[id].ref == 1 && s.services[id].queue.inGlobal
    ensures var sv := s.services[id];
            Leads(s, Alone(s, t, 3), t, id, None,
                  sv.(ref := 0, holders := sv.holders - {t}, deleter := None, gone := true, queue := Mark(sv.queue), owner := Listed), true)
  {
    hide Do, Enabled, Leads;
    var sv := s.services[id];
    GiveBackStep(s, t, id);
    var s1, sv1 := Do(s, Go(t, true)), sv.(ref := 0, holders := sv.holders - {t}, deleter := Some(t));
    LeadsOn(s, s1, t, id, Deleting(id, ToPublish), sv1);
    DeleteStep(s1, t, id, ToPublish, Some(Publish(id, false)));
    var s2, sv2 := Do(s1, Go(t, true)), sv1.(queue := Mark(sv.queue), gone := true, deleter := None);
    LeadsOn(s, s2, t, id, Publish(id, false), sv2);
    PublishStep(s2, t, id, false);
    assert Alone(s, t, 0) == s && Alone(s, t, 1) == s1 && Alone(s, t, 2) == s2;
  }

  lemma DeleteStep(s: State, t: nat, id: nat, then_: Then, a: Option<Activity>)
    requires Owns(s, t, id, Deleting(id, then_)) && s.services[id].queue.inGlobal
    requires a == if then_ == ToPublish then Some(Publish(id, false)) else Some(MqRelease(id, Done))
    requires then_ == ToPublish || then_ == ToDrop
    ensures Enabled(s, Go(t, true))
    ensures var sv := s.services[id];
            Leads(s, Do(s, Go(t, true)), t, id, a, sv.(queue := Mark(sv.queue), gone := true, deleter := None), false)
  {
    hide WorkerNext, GrabNext, PushNext, RetireNext, ReleaseNext, MqReleaseNext, DropNext;
  }

  /** The service when the first `k` messages are dropped. */
  function DroppedTo(sv: Service, k: nat): Service
    requires k <= |sv.queue.messages|
  {
    sv.(queue := sv.queue.(messages := sv.queue.messages[k..]), dropped := sv.dropped + sv.queue.messages[..k])
  }

  lemma DroppedNext(sv: Service, k: nat)
    requires k < |sv.queue.messages|
    ensures var was := DroppedTo(sv, k);
            && was.queue.messages != []
            && was.(queue := was.queue.(messages := was.queue.messages[1..]), dropped := was.dropped + [was.queue.messages[0]]) == DroppedTo(sv, k + 1)
  {
    var ms := sv.queue.messages;
    assert ms[k..][1..] == ms[k + 1..] && sv.dropped + ms[..k] + [ms[k]] == sv.dropped + ms[..k + 1];
  }

  lemma {:induction false} DropsAll(s: State, t: nat, id: nat, k: nat)
    requires Owns(s, t, id, Dropping(id, Done)) && k <= |s.services[id].queue.messages|
    ensures Leads(s, Alone(s, t, k), t, id, Some(Dropping(id, Done)), DroppedTo(s.services[id], k), false)
    decreases k
  {
    hide Do, Enabled, Leads, DroppedTo;
    var sv := s.services[id];
    if k == 0 {
      DroppedNone(sv);
      Stays(s, t, id, Dropping(id, Done));
    } else {
      DropsAll(s, t, id, k - 1);
      var before := Alone(s, t, k - 1);
      LeadsOn(s, before, t, id, Dropping(id, Done), DroppedTo(sv, k - 1));
      DropStep(before, t, id);
      DroppedNext(sv, k - 1);
    }
  }

  lemma DroppedNone(sv: Service)
    ensures DroppedTo(sv, 0) == sv
  {
    assert sv.queue.messages[0..] == sv.queue.messages && sv.dropped + sv.queue.messages[..0] == sv.dropped;
  }

  lemma Stays(s: State, t: nat, id: nat, a: Activity)
    requires Owns(s, t, id, a)
    ensures Alone(s, t, 0) == s && Leads(s, s, t, id, Some(a), s.services[id], false)
  {
    assert s.tasks[t := a] == s.tasks && s.services[id := s.services[id]] == s.services;
  }

  lemma DropStep(s: State, t: nat, id: nat)
    requires Owns(s, t, id, Dropping(id, Done))
    ensures Enabled(s, Go(t, true))
    ensures var sv := s.services[id];
            if sv.queue.messages == [] then
              Leads(s, Do(s, Go(t, true)), t, id, None, sv.(queue := sv.queue.(inGlobal := false), freed := true, owner := NoOne), false)
            else
              Leads(s, Do(s, Go(t, true)), t, id, Some(Dropping(id, Done)),
                    sv.(queue := sv.queue.(messages := sv.queue.messages[1..]), dropped := sv.dropped + [sv.queue.messages[0]]), false)
  {
    hide WorkerNext, GrabNext, PushNext, RetireNext, ReleaseNext, DeleteNext, MqReleaseNext;
  }

  lemma BackToRetire(s: State, t: nat, id: nat)
    requires Owns(s, t, id, Releasing(id, ToRetire)) && s.services[id].ref > 1
    ensures Enabled(s, Go(t, true))
    ensures var sv := s.services[id];
            Leads(s, Do(s, Go(t, true)), t, id, Some(Retiring(id, ToDrop)), sv.(ref := sv.ref - 1, holders := sv.holders - {t}), false)
  {
    hide WorkerNext, GrabNext, PushNext, RetireNext, DeleteNext, MqReleaseNext, DropNext;
  }

  lemma RetireStep(s: State, t: nat, id: nat)
    requires Owns(s, t, id, Retiring(id, ToDrop)) && s.services[id].registered
    ensures Enabled(s, Go(t, true))
    ensures var sv := s.services[id];
            Leads(s, Do(s, Go(t, true)), t, id, Some(Releasing(id, ToDrop)), sv.(registered := false, holders := sv.holders + {t}), false)
  {
    hide WorkerNext, GrabNext, PushNext, ReleaseNext, DeleteNext, MqReleaseNext, DropNext;
  }

  lemma BackToDelete(s: State, t: nat, id: nat)
    requires Owns(s, t, id, Releasing(id, ToDrop)) && s.services[id].ref == 1
    ensures Enabled(s, Go(t, true))
    ensures var sv := s.services[id];
            Leads(s, Do(s, Go(t, true)), t, id, Some(Deleting(id, ToDrop)), sv.(ref := 0, holders := sv.holders - {t}, deleter := Some(t)), false)
  {
    hide WorkerNext, GrabNext, PushNext, RetireNext, DeleteNext, MqReleaseNext, DropNext;
  }

  lemma MqReleaseStep(s: State, t: nat, id: nat)
    requires Owns(s, t, id, MqRelease(id, Done)) && s.services[id].queue.release
    ensures Enabled(s, Go(t, true)) && Leads(s, Do(s, Go(t, true)), t, id, Some(Dropping(id, Done)), s.services[id], false)
  {
    hide WorkerNext, GrabNext, PushNext, RetireNext, ReleaseNext, DeleteNext, DropNext;
    assert s.services[id := s.services[id]] == s.services;
  }

  /** A creator alone, after an init that failed: the service is out of the table and deleted, what
      was sent to it is dropped, and its queue is freed and was never on the list. */
  lemma LaunchFails(s: State, t: nat, id: nat) returns (r: State, k: nat)
    requires Owns(s, t, id, Init(id)) && s.services[id].ref == 2 && s.services[id].registered && s.services[id].queue.inGlobal
    ensures Enabled(s, Go(t, false)) && r == Alone(Do(s, Go(t, false)), t, k)
    ensures t !in r.tasks && r.list == s.list && id in r.services && SameOthers(s, r, id)
    ensures var sv, end := s.services[id], r.services[id];
            && end.freed && end.gone && !end.registered && end.ref == 0 && end.queue.messages == []
            && end.dropped == sv.dropped + sv.queue.messages
  {
    hide Do, Enabled, Leads, Alone, SameOthers;
    var sv := s.services[id];
    InitStep(s, t, id, false);
    var s1 := Do(s, Go(t, false));
    LeadsOn(s, s1, t, id, Releasing(id, ToRetire), sv);
    BackToRetire(s1, t, id);
    var s2, sv2 := Do(s1, Go(t, true)), sv.(ref := 1, holders := sv.holders - {t});
    LeadsOn(s, s2, t, id, Retiring(id, ToDrop), sv2);
    var s6, sv6 := Deleted(s2, t, id);
    LeadsOn(s, s6, t, id, Dropping(id, Done), sv6);
    var n := |sv.queue.messages|;
    var end;
    r, end := DroppedAll(s6, t, id);
    k := 1 + (4 + (n + 1));
    AloneOne(s1, t);
    AloneAdd(s2, t, 4, n + 1);
    AloneAdd(s1, t, 1, 4 + (n + 1));
    Ended(s, r, t, id, end);
  }

  /** Out of the table, and deleted with the last reference. */
  lemma Deleted(s: State, t: nat, id: nat) returns (r: State, end: Service)
    requires Owns(s, t, id, Retiring(id, ToDrop)) && s.services[id].registered && s.services[id].ref == 1 && s.services[id].queue.inGlobal
    ensures var sv := s.services[id];
            end == sv.(registered := false, ref := 0, holders := sv.holders + {t} - {t}, deleter := None, gone := true, queue := Mark(sv.queue))
    ensures r == Alone(s, t, 4) && Leads(s, r, t, id, Some(Dropping(id, Done)), end, false)
  {
    hide Do, Enabled, Leads;
    var sv := s.services[id];
    RetireStep(s, t, id);
    var s1, sv1 := Do(s, Go(t, true)), sv.(registered := false, holders := sv.holders + {t});
    LeadsOn(s, s1, t, id, Releasing(id, ToDrop), sv1);
    BackToDelete(s1, t, id);
    var s2, sv2 := Do(s1, Go(t, true)), sv1.(ref := 0, holders := sv1.holders - {t}, deleter := Some(t));
    LeadsOn(s, s2, t, id, Deleting(id, ToDrop), sv2);
    DeleteStep(s2, t, id, ToDrop, Some(MqRelease(id, Done)));
    var s3 := Do(s2, Go(t, true));
    end := sv2.(queue := Mark(sv.queue), gone := true, deleter := None);
    LeadsOn(s, s3, t, id, MqRelease(id, Done), end);
    MqReleaseStep(s3, t, id);
    r := Do(s3, Go(t, true));
    AloneFour(s, t, s1, s2, s3, r);
  }

  /** The end of a service: every message goes to the drop function, in order, and the queue is
      freed. */
  lemma DroppedAll(s: State, t: nat, id: nat) returns (r: State, end: Service)
    requires Owns(s, t, id, Dropping(id, Done))
    ensures var sv := s.services[id];
            && r == Alone(s, t, |sv.queue.messages| + 1) && Leads(s, r, t, id, None, end, false)
            && end == sv.(queue := Queue([], false, sv.queue.release), freed := true, owner := NoOne, dropped := sv.dropped + sv.queue.messages)
  {
    hide Do, Enabled, Leads;
    var sv := s.services[id];
    var n := |sv.queue.messages|;
    DropsAll(s, t, id, n);
    var before := Alone(s, t, n);
    LeadsOn(s, before, t, id, Dropping(id, Done), DroppedTo(sv, n));
    DropStep(before, t, id);
    r := Do(before, Go(t, true));
    assert sv.queue.messages[..n] == sv.queue.messages;
    end := sv.(queue := Queue([], false, sv.queue.release), freed := true, owner := NoOne, dropped := sv.dropped + sv.queue.messages);
  }

  lemma Ended(s: State, r: State, t: nat, id: nat, sv: Service)
    requires id in s.services && Leads(s, r, t, id, None, sv, false)
    ensures t !in r.tasks && r.list == s.list && id in r.services && r.services[id] == sv && SameOthers(s, r, id)
  {
  }

  lemma AloneFour(s: State, t: nat, s1: State, s2: State, s3: State, s4: State)
    requires Enabled(s, Go(t, true)) && s1 == Do(s, Go(t, true)) && Enabled(s1, Go(t, true)) && s2 == Do(s1, Go(t, true))
    requires Enabled(s2, Go(t, true)) && s3 == Do(s2, Go(t, true)) && Enabled(s3, Go(t, true)) && s4 == Do(s3, Go(t, true))
    ensures Alone(s, t, 4) == s4
  {
    hide Do, Enabled;
    assert Alone(s, t, 0) == s && Alone(s, t, 1) == s1 && Alone(s, t, 2) == s2 && Alone(s, t, 3) == s3;
  }
}
