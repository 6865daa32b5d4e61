/** The scheduler: any number of workers and other threads over services, their message
    queues and the list of scheduled queues. A step is one locked or atomic section. */
module SkynetScheduler {
  import opened SkynetQueue

  datatype Option<T> = None | Some(value: T)

  /* ---------- the state ---------- */

  /** Who has the queue of a service. This and `holders`, `deleter`, `gone` and the
      histories are bookkeeping: no step looks at them. The memory of the context is `gone`
      when the service was deleted, that of the queue is `freed` later, when it is empty.
      The queue is `made` after the handle is in the table; before, its place in the context
      is not set up, and what is pushed there goes astray. */
  datatype Owner = NoOne | Listed | Task(task: nat)

  datatype Service = Service(
    ref: int,
    registered: bool,
    made: bool,
    init: bool,
    gone: bool,
    queue: Queue,
    freed: bool,
    holders: set<nat>,
    owner: Owner,
    deleter: Option<nat>,
    pushed: seq<Message>,
    delivered: seq<Message>,
    dropped: seq<Message>)

  /** Where a worker is in the dispatch of a queue. */
  datatype At =
    | Idle
    | Have(id: nat)
    | Dispatch(id: nat, i: nat, n: nat)
    | Measure(id: nat)
    | Running(id: nat, i: nat, n: nat)
    | Swap(id: nat, next: nat)

  /** What a thread does after it gave back a reference. */
  datatype Then = Done | Resume(weight: int, next: Option<nat>) | ToPublish | ToRetire | ToDrop

  /** The activities that are under way. A call made from within a service is an activity
      of its own. */
  datatype Activity =
    | Worker(weight: int, at: At)
    | Lookup(id: nat, message: Message)
    | Pushing(id: nat, message: Message)
    | Grabbing(id: nat)
    | Held(id: nat)
    | Creating(id: nat)
    | Init(id: nat)
    | Ready(id: nat)
    | Publish(id: nat, ret: bool)
    | Logging(id: nat)
    | Returned(id: nat)
    | Retiring(id: nat, then_: Then)
    | Releasing(id: nat, then_: Then)
    | Deleting(id: nat, then_: Then)
    | MqRelease(id: nat, then_: Then)
    | Dropping(id: nat, then_: Then)

  datatype State = State(services: map<nat, Service>, list: seq<nat>, tasks: map<nat, Activity>)

  /* ---------- the steps ---------- */

  function Halved(n: nat, times: nat): nat {
    if times == 0 then n else Halved(n / 2, times - 1)
  }

  function Continue(id: nat, then_: Then): Option<Activity> {
    match then_
    case Done => None
    case Resume(weight, None) => Some(Worker(weight, Idle))
    case Resume(weight, Some(q)) => Some(Worker(weight, Have(q)))
    case ToPublish => Some(Publish(id, false))
    case ToRetire => Some(Retiring(id, ToDrop))
    case ToDrop => Some(MqRelease(id, Done))
  }

  /** Every step sets at most one service and one activity. */
  function Set(s: State, t: nat, a: Option<Activity>, id: nat, sv: Service, list: seq<nat>): State {
    State(s.services[id := sv], list, if a.Some? then s.tasks[t := a.value] else s.tasks - {t})
  }

  function SetTask(s: State, t: nat, a: Option<Activity>): State {
    State(s.services, s.list, if a.Some? then s.tasks[t := a.value] else s.tasks - {t})
  }

  /** A lookup in the handle table takes a reference. */
  function GrabNext(s: State, t: nat, id: nat, found: Activity, missing: Option<Activity>): State
    requires id in s.services
  {
    var sv := s.services[id];
    if sv.registered then
      Set(s, t, Some(found), id, sv.(ref := sv.ref + 1, holders := sv.holders + {t}), s.list)
    else SetTask(s, t, missing)
  }

  function PushTo(sv: Service, m: Message): Service {
    if !sv.made then sv
    else sv.(queue := Push(sv.queue, m), pushed := sv.pushed + [m], owner := if sv.queue.inGlobal then sv.owner else Listed)
  }

  function ListAfterPush(s: State, id: nat): seq<nat>
    requires id in s.services
  {
    if s.services[id].queue.inGlobal then s.list else s.list + [id]
  }

  function PushNext(s: State, t: nat, id: nat, m: Message, next: Activity): State
    requires id in s.services
  {
    Set(s, t, Some(next), id, PushTo(s.services[id], m), ListAfterPush(s, id))
  }

  /** The first to bring the count to zero deletes the service. A creator whose reference
      was not the last goes on to use the service, without a reference. */
  function ReleaseNext(s: State, t: nat, id: nat, then_: Then): State
    requires id in s.services
  {
    var sv := s.services[id];
    var left := sv.(ref := sv.ref - 1, holders := sv.holders - {t});
    if sv.ref - 1 == 0 then Set(s, t, Some(Deleting(id, then_)), id, left.(deleter := Some(t)), s.list)
    else Set(s, t, if then_ == ToPublish then Some(Ready(id)) else Continue(id, then_), id, left, s.list)
  }

  function DeleteNext(s: State, t: nat, id: nat, then_: Then): State
    requires id in s.services
  {
    var sv := s.services[id];
    Set(s, t, Continue(id, then_), id,
        sv.(queue := Mark(sv.queue), gone := true, deleter := None, owner := if sv.queue.inGlobal then sv.owner else Listed),
        ListAfterPush(s, id))
  }

  /** Out of the table: the reference of the table goes to the thread. */
  function RetireNext(s: State, t: nat, id: nat, then_: Then): State
    requires id in s.services
  {
    var sv := s.services[id];
    if sv.registered then
      Set(s, t, Some(Releasing(id, then_)), id, sv.(registered := false, holders := sv.holders + {t}), s.list)
    else SetTask(s, t, Continue(id, then_))
  }

  function MqReleaseNext(s: State, t: nat, id: nat, then_: Then): State
    requires id in s.services
  {
    if s.services[id].queue.release then SetTask(s, t, Some(Dropping(id, then_)))
    else Set(s, t, Continue(id, then_), id, s.services[id].(owner := Listed), s.list + [id])
  }

  function DropNext(s: State, t: nat, id: nat, then_: Then): State
    requires id in s.services
  {
    var sv := s.services[id];
    if sv.queue.messages == [] then
      Set(s, t, Continue(id, then_), id, sv.(queue := Pop(sv.queue), freed := true, owner := NoOne), s.list)
    else
      Set(s, t, Some(Dropping(id, then_)), id,
          sv.(queue := Pop(sv.queue), dropped := sv.dropped + [sv.queue.messages[0]]), s.list)
  }

  function PopList(s: State, t: nat, a: Activity): State
    requires s.list != [] && s.list[0] in s.services
  {
    Set(s, t, Some(a), s.list[0], s.services[s.list[0]].(owner := Task(t)), s.list[1..])
  }

  function DispatchNext(s: State, t: nat, weight: int, id: nat, i: nat, n: nat): State
    requires id in s.services && (s.list != [] ==> s.list[0] in s.services)
  {
    var sv := s.services[id];
    if i < n then
      if sv.queue.messages == [] then
        Set(s, t, Some(Releasing(id, Resume(weight, None))), id, sv.(queue := Pop(sv.queue), owner := NoOne), s.list)
      else
        Set(s, t, Some(Worker(weight, if i == 0 && weight >= 0 then Measure(id) else Running(id, i, n))), id,
            sv.(queue := Pop(sv.queue), delivered := sv.delivered + [sv.queue.messages[0]]), s.list)
    else if s.list == [] then SetTask(s, t, Some(Releasing(id, Resume(weight, Some(id)))))
    else PopList(s, t, Worker(weight, Swap(id, s.list[0])))
  }

  function WorkerNext(s: State, t: nat, weight: int, at: At): State
    requires (at.Idle? || at.id in s.services) && (s.list != [] ==> s.list[0] in s.services)
  {
    match at
    case Idle => if s.list == [] then s else PopList(s, t, Worker(weight, Have(s.list[0])))
    case Have(id) =>
      GrabNext(s, t, id, Worker(weight, Dispatch(id, 0, 1)), Some(MqRelease(id, Resume(weight, None))))
    case Dispatch(id, i, n) => DispatchNext(s, t, weight, id, i, n)
    case Measure(id) =>
      var n := if weight >= 0 then Halved(|s.services[id].queue.messages|, weight) else 1;
      SetTask(s, t, Some(Worker(weight, Running(id, 0, n))))
    case Running(id, i, n) => SetTask(s, t, Some(Worker(weight, Dispatch(id, i + 1, n))))
    case Swap(id, next) =>
      Set(s, t, Some(Releasing(id, Resume(weight, Some(next)))), id, s.services[id].(owner := Listed), s.list + [id])
  }

  /** The next step of an activity; `ok` is what the init function of a module returns. */
  function Advance(s: State, t: nat, ok: bool): State
    requires t in s.tasks && Present(s, s.tasks[t])
  {
    match s.tasks[t]
    case Worker(weight, at) => WorkerNext(s, t, weight, at)
    case Lookup(id, m) => GrabNext(s, t, id, Pushing(id, m), None)
    case Pushing(id, m) => PushNext(s, t, id, m, Releasing(id, Done))
    case Grabbing(id) => GrabNext(s, t, id, Held(id), None)
    case Held(id) => SetTask(s, t, Some(Releasing(id, Done)))
    case Creating(id) => Set(s, t, Some(Init(id)), id, s.services[id].(made := true), s.list)
    case Init(id) => SetTask(s, t, Some(Releasing(id, if ok then ToPublish else ToRetire)))
    case Ready(id) => Set(s, t, Some(Publish(id, true)), id, s.services[id].(init := true), s.list)
    case Publish(id, ret) =>
      Set(s, t, if ret then Some(Logging(id)) else None, id, s.services[id].(owner := Listed), s.list + [id])
    case Logging(id) => SetTask(s, t, Some(Returned(id)))
    case Returned(_) => SetTask(s, t, None)
    case Retiring(id, then_) => RetireNext(s, t, id, then_)
    case Releasing(id, then_) => ReleaseNext(s, t, id, then_)
    case Deleting(id, then_) => DeleteNext(s, t, id, then_)
    case MqRelease(id, then_) => MqReleaseNext(s, t, id, then_)
    case Dropping(id, then_) => DropNext(s, t, id, then_)
  }

  predicate Named(services: map<nat, Service>, a: Activity) {
    match a
    case Worker(_, at) => at.Idle? || at.id in services
    case _ => a.id in services
  }

  /** The services that the next step touches are in memory. */
  predicate Present(s: State, a: Activity) {
    Named(s.services, a) && (s.list != [] ==> s.list[0] in s.services)
  }

  datatype Action =
    | Create(t: nat, id: nat)                    // a new service
    | Work(t: nat, weight: int)                  // a new worker
    | Send(t: nat, id: nat, message: Message)    // a message to a handle
    | Grab(t: nat, id: nat)                      // any other use of a handle
    | Kill(t: nat, id: nat)                      // a handle is retired
    | Reserve(t: nat, holder: nat)               // one more reference for a holder
    | SendHeld(t: nat, message: Message)         // a message by a holder of the service
    | Go(t: nat, ok: bool)                       // the next step of an activity

  predicate Enabled(s: State, a: Action) {
    match a
    case Create(t, id) => t !in s.tasks && id !in s.services
    case Work(t, _) => t !in s.tasks
    case Send(t, id, _) => t !in s.tasks && id in s.services
    case Grab(t, id) => t !in s.tasks && id in s.services
    case Kill(t, id) => t !in s.tasks && id in s.services
    case Reserve(t, holder) =>
      t !in s.tasks && holder in s.tasks && s.tasks[holder].Held? && s.tasks[holder].id in s.services
    case SendHeld(t, _) => t in s.tasks && s.tasks[t].Held? && s.tasks[t].id in s.services
    case Go(t, _) => t in s.tasks && Present(s, s.tasks[t])
  }

  function Do(s: State, a: Action): State
    requires Enabled(s, a)
  {
    match a
    case Create(t, id) =>
      Set(s, t, Some(Creating(id)), id,
          Service(2, true, false, false, false, Queue([], true, false), false, {t}, Task(t), None, [], [], []), s.list)
    case Work(t, weight) => SetTask(s, t, Some(Worker(weight, Idle)))
    case Send(t, id, m) => SetTask(s, t, Some(Lookup(id, m)))
    case Grab(t, id) => SetTask(s, t, Some(Grabbing(id)))
    case Kill(t, id) => SetTask(s, t, Some(Retiring(id, Done)))
    case Reserve(t, holder) =>
      var id := s.tasks[holder].id;
      var sv := s.services[id];
      Set(s, t, Some(Held(id)), id, sv.(ref := sv.ref + 1, holders := sv.holders + {t}), s.list)
    case SendHeld(t, m) => PushNext(s, t, s.tasks[t].id, m, s.tasks[t])
    case Go(t, ok) => Advance(s, t, ok)
  }

  const START: State := State(map[], [], map[])

  ghost predicate Reachable(s: State, actions: seq<Action>)
    decreases |actions|
  {
    if actions == [] then s == START
    else
      var k := |actions| - 1;
      exists before :: Reachable(before, actions[..k]) && Enabled(before, actions[k]) && s == Do(before, actions[k])
  }

  /* ---------- the invariant ---------- */

  /** The reference that an activity owns, the queues that it has, the service that it is
      about to delete. */
  function Reference(a: Activity): Option<nat> {
    match a
    case Worker(_, Dispatch(id, _, _)) => Some(id)
    case Worker(_, Measure(id)) => Some(id)
    case Worker(_, Running(id, _, _)) => Some(id)
    case Worker(_, Swap(id, _)) => Some(id)
    case Pushing(id, _) => Some(id)
    case Held(id) => Some(id)
    case Creating(id) => Some(id)
    case Init(id) => Some(id)
    case Releasing(id, _) => Some(id)
    case _ => None
  }

  predicate HasAfter(then_: Then, id: nat, q: nat) {
    match then_
    case Done => false
    case Resume(_, next) => next == Some(q)
    case _ => id == q
  }

  predicate Has(a: Activity, q: nat) {
    match a
    case Worker(_, Idle) => false
    case Worker(_, Swap(id, next)) => q == id || q == next
    case Worker(_, at) => q == at.id
    case Creating(id) => q == id
    case Init(id) => q == id
    case Ready(id) => q == id
    case Publish(id, _) => q == id
    case MqRelease(id, _) => q == id
    case Dropping(id, _) => q == id
    case Retiring(id, then_) => HasAfter(then_, id, q)
    case Releasing(id, then_) => HasAfter(then_, id, q)
    case Deleting(id, then_) => HasAfter(then_, id, q)
    case _ => false
  }

  predicate Deletes(a: Activity, id: nat) { a.Deleting? && a.id == id }

  predicate Dispatching(a: Activity, id: nat) {
    a.Worker? && (a.at.Dispatch? || a.at.Measure? || a.at.Running? || a.at.Swap?) && a.at.id == id
  }

  /** A service that is still being made. */
  predicate Making(a: Activity, id: nat) {
    || a == Creating(id)
    || a == Init(id)
    || a == Ready(id)
    || a == Retiring(id, ToDrop)
    || a == Releasing(id, ToPublish)
    || a == Releasing(id, ToRetire)
  }

  predicate Shaped(a: Activity) {
    match a
    case Worker(_, Swap(id, next)) => id != next
    case Worker(weight, Measure(_)) => weight >= 0
    case Retiring(_, then_) => then_.Done? || then_.ToDrop?
    case MqRelease(_, then_) => then_.Done? || (then_.Resume? && then_.next == None)
    case Dropping(_, then_) => then_.Done? || (then_.Resume? && then_.next == None)
    case _ => true
  }

  /** The count of a service is the references to it. */
  predicate Counted(sv: Service) { sv.ref == |sv.holders| + if sv.registered then 1 else 0 }

  /** What each service keeps. */
  predicate Sound(sv: Service) {
    && Counted(sv)
    && (!sv.queue.inGlobal ==> sv.queue.messages == [])
    && (sv.queue.release ==> sv.ref == 0)
    && (sv.gone <==> sv.queue.release)
    && (sv.deleter.Some? <==> sv.ref == 0 && !sv.queue.release)
    && (sv.freed ==> sv.queue.release && sv.queue.messages == [] && sv.owner == NoOne)
    && (!sv.freed ==> (sv.owner == NoOne <==> !sv.queue.inGlobal && !sv.queue.release))
    && sv.pushed == sv.delivered + sv.dropped + sv.queue.messages
    && (sv.dropped != [] ==> sv.queue.release)
    && (sv.registered && !sv.init ==> sv.owner.Task?)
    && (!sv.made ==> sv.owner.Task? && sv.owner.task in sv.holders && sv.queue == Queue([], true, false) && !sv.init)
  }

  /** What the owner of a service that is not ready does. */
  predicate Stage(sv: Service, a: Activity, id: nat) {
    && (sv.registered && !sv.init ==> Making(a, id))
    && (!sv.made ==> a == Creating(id))
  }

  /** What an activity owns, the services say. */
  ghost predicate TaskOk(s: State, t: nat)
    requires t in s.tasks
  {
    var a := s.tasks[t];
    && Shaped(a) && Named(s.services, a)
    && (Reference(a).Some? ==> Reference(a).value in s.services && t in s.services[Reference(a).value].holders)
    && (forall q :: Has(a, q) ==> q in s.services && s.services[q].owner == Task(t))
    && (a.Deleting? ==> s.services[a.id].deleter == Some(t))
    && (a.Dropping? ==> s.services[a.id].queue.release)
    && (a.Creating? ==> !s.services[a.id].made)
    && (a.Worker? && !a.at.Idle? && !a.at.Have? ==> s.services[a.at.id].init)
  }

  /** What the services say, the activities own. */
  ghost predicate ServiceOk(s: State, id: nat)
    requires id in s.services
  {
    var sv := s.services[id];
    && Sound(sv)
    && (forall u :: u in sv.holders ==> u in s.tasks && Reference(s.tasks[u]) == Some(id))
    && (sv.owner.Task? ==> sv.owner.task in s.tasks && Has(s.tasks[sv.owner.task], id))
    && (sv.deleter.Some? ==> sv.deleter.value in s.tasks && Deletes(s.tasks[sv.deleter.value], id))
    && (sv.owner == Listed <==> id in s.list)
    && (sv.owner.Task? ==> Stage(sv, s.tasks[sv.owner.task], id))
  }

  ghost predicate Inv(s: State) {
    && (forall t :: t in s.tasks ==> TaskOk(s, t))
    && (forall id :: id in s.services ==> ServiceOk(s, id))
    && (forall i :: 0 <= i < |s.list| ==> s.list[i] in s.services)
    && (forall i, j :: 0 <= i < j < |s.list| ==> s.list[i] != s.list[j])
  }

  /* ---------- one service and one activity change ---------- */

  ghost predicate Owns(a: Option<Activity>, q: nat) { a.Some? && Has(a.value, q) }
  ghost predicate Refers(a: Option<Activity>, q: nat) { a.Some? && Reference(a.value) == Some(q) }
  ghost predicate Deleter(a: Option<Activity>, q: nat) { a.Some? && Deletes(a.value, q) }

  /** The bookkeeping of a service about other activities is as it was. */
  ghost predicate Others(s: State, t: nat, id: nat, sv: Service) {
    && (forall u :: u != t ==> (u in sv.holders <==> id in s.services && u in s.services[id].holders))
    && (forall u :: u != t ==> (sv.owner == Task(u) <==> id in s.services && s.services[id].owner == Task(u)))
    && (forall u :: u != t ==> (sv.deleter == Some(u) <==> id in s.services && s.services[id].deleter == Some(u)))
    && (id in s.services ==>
          && (s.services[id].queue.release ==> sv.queue.release)
          && (s.services[id].init ==> sv.init)
          && (s.services[id].made ==> sv.made)
          && (sv.made != s.services[id].made ==> s.services[id].owner == Task(t))
          && (sv.registered ==> s.services[id].registered))
  }

  /** About the activity that moves, it is as it must be. */
  ghost predicate Mine(s: State, t: nat, a: Option<Activity>, id: nat, sv: Service) {
    && (t in sv.holders <==> Refers(a, id))
    && (sv.owner == Task(t) <==> Owns(a, id))
    && (sv.deleter == Some(t) <==> Deleter(a, id))
    && (sv.owner == Task(t) ==> Stage(sv, a.value, id))
    && (forall q :: q != id && Refers(a, q) ==> q in s.services)
    && (forall q :: q != id && Owns(a, q) ==> q in s.services)
    && (forall q :: q != id && Deleter(a, q) ==> q in s.services)
    && forall q :: q in s.services && q != id ==>
         && (t in s.services[q].holders <==> Refers(a, q))
         && (s.services[q].owner == Task(t) <==> Owns(a, q))
         && (s.services[q].deleter == Some(t) <==> Deleter(a, q))
         && (s.services[q].owner == Task(t) ==> Stage(s.services[q], a.value, q))
  }

  ghost predicate ListFits(s: State, id: nat, sv: Service, list: seq<nat>) {
    && (id in list <==> sv.owner == Listed)
    && (forall q :: q != id ==> (q in list <==> q in s.list))
    && (forall i, j :: 0 <= i < j < |list| ==> list[i] != list[j])
  }

  ghost predicate ActivityFits(s: State, a: Option<Activity>, id: nat, sv: Service) {
    a.Some? ==>
      && Shaped(a.value) && Named(s.services[id := sv], a.value)
      && (a.value.Dropping? ==> s.services[id := sv][a.value.id].queue.release)
      && (a.value.Creating? ==> !s.services[id := sv][a.value.id].made)
      && (a.value.Worker? && !a.value.at.Idle? && !a.value.at.Have? ==> s.services[id := sv][a.value.at.id].init)
  }

  lemma CreatorHas(a: Activity)
    requires a.Creating?
    ensures Has(a, a.id) && Reference(a) == Some(a.id)
  {
  }

  lemma PreserveTask(s: State, t: nat, a: Option<Activity>, id: nat, sv: Service, list: seq<nat>, u: nat)
    requires Inv(s) && Others(s, t, id, sv) && Mine(s, t, a, id, sv) && ActivityFits(s, a, id, sv)
    requires u in Set(s, t, a, id, sv, list).tasks
    ensures TaskOk(Set(s, t, a, id, sv, list), u)
  {
    hide Has, Reference, Shaped, Making, Sound, ServiceOk;
    if u != t {
      assert TaskOk(s, u);
      if s.tasks[u].Creating? { CreatorHas(s.tasks[u]); }
    }
  }

  lemma PreserveOther(s: State, t: nat, a: Option<Activity>, id: nat, sv: Service, list: seq<nat>, q: nat)
    requires Inv(s) && Mine(s, t, a, id, sv) && ListFits(s, id, sv, list)
    requires q in s.services && q != id
    ensures ServiceOk(Set(s, t, a, id, sv, list), q)
  {
    hide Has, Reference, Shaped, Making, Stage, Deletes, TaskOk, Counted;
    assert ServiceOk(s, q);
  }

  lemma PreserveHere(s: State, t: nat, a: Option<Activity>, id: nat, sv: Service, list: seq<nat>)
    requires Inv(s) && Others(s, t, id, sv) && Mine(s, t, a, id, sv) && ListFits(s, id, sv, list) && Sound(sv)
    requires id !in s.services ==> t !in s.tasks
    ensures ServiceOk(Set(s, t, a, id, sv, list), id)
  {
    hide Has, Reference, Shaped, Making, Deletes, TaskOk, Counted;
    if id in s.services { assert ServiceOk(s, id); }
  }

  lemma Preserve(s: State, t: nat, a: Option<Activity>, id: nat, sv: Service, list: seq<nat>)
    requires Inv(s) && Others(s, t, id, sv) && Mine(s, t, a, id, sv) && ActivityFits(s, a, id, sv)
    requires ListFits(s, id, sv, list) && Sound(sv)
    requires id !in s.services ==> t !in s.tasks
    ensures Inv(Set(s, t, a, id, sv, list))
  {
    var s' := Set(s, t, a, id, sv, list);
    forall u | u in s'.tasks ensures TaskOk(s', u) { PreserveTask(s, t, a, id, sv, list, u); }
    forall q | q in s'.services ensures ServiceOk(s', q) {
      if q == id { PreserveHere(s, t, a, id, sv, list); } else { PreserveOther(s, t, a, id, sv, list, q); }
    }
    hide TaskOk, ServiceOk, Sound, Others, Mine, ActivityFits;
    forall i | 0 <= i < |list| ensures list[i] in s'.services {
      assert list[i] in list;
    }
  }

  function Now(s: State, t: nat): Option<Activity> {
    if t in s.tasks then Some(s.tasks[t]) else None
  }

  /** The two halves of the invariant agree about an activity. */
  ghost predicate Agrees(s: State, t: nat) {
    && (forall q :: q in s.services ==>
          && (t in s.services[q].holders <==> Refers(Now(s, t), q))
          && (s.services[q].owner == Task(t) <==> Owns(Now(s, t), q))
          && (s.services[q].deleter == Some(t) <==> Deleter(Now(s, t), q))
          && (s.services[q].owner == Task(t) ==> Stage(s.services[q], s.tasks[t], q)))
    && (forall q :: Refers(Now(s, t), q) ==> q in s.services)
    && (forall q :: Owns(Now(s, t), q) ==> q in s.services)
    && (forall q :: Deleter(Now(s, t), q) ==> q in s.services)
  }

  lemma Agreement(s: State, t: nat)
    requires Inv(s)
    ensures Agrees(s, t)
  {
    hide Has, Reference, Making, Sound, Stage, Shaped;
    if t in s.tasks { assert TaskOk(s, t); }
    forall q | q in s.services
      ensures t in s.services[q].holders <==> Refers(Now(s, t), q)
      ensures s.services[q].owner == Task(t) <==> Owns(Now(s, t), q)
      ensures s.services[q].deleter == Some(t) <==> Deleter(Now(s, t), q)
      ensures s.services[q].owner == Task(t) ==> Stage(s.services[q], s.tasks[t], q)
    {
      assert ServiceOk(s, q);
    }
  }

  /** For the other services, an activity is what it was. */
  ghost predicate SameElsewhere(b: Option<Activity>, a: Option<Activity>, id: nat) {
    forall q :: q != id ==>
      && (Owns(a, q) <==> Owns(b, q))
      && (Refers(a, q) <==> Refers(b, q))
      && (Deleter(a, q) <==> Deleter(b, q))
      && !(b.Some? && Making(b.value, q))
  }

  ghost predicate Local(t: nat, a: Option<Activity>, id: nat, sv: Service) {
    && (t in sv.holders <==> Refers(a, id))
    && (sv.owner == Task(t) <==> Owns(a, id))
    && (sv.deleter == Some(t) <==> Deleter(a, id))
    && (sv.owner == Task(t) ==> Stage(sv, a.value, id))
  }

  lemma MineFrom(s: State, t: nat, a: Option<Activity>, id: nat, sv: Service)
    requires Agrees(s, t) && SameElsewhere(Now(s, t), a, id) && Local(t, a, id, sv)
    ensures Mine(s, t, a, id, sv)
  {
    hide Has, Reference, Deletes;
  }

  /** A step of an activity that changes one service. */
  lemma KeepSet(s: State, t: nat, a: Option<Activity>, id: nat, sv: Service, list: seq<nat>)
    requires Inv(s) && id in s.services
    requires SameElsewhere(Now(s, t), a, id) && Local(t, a, id, sv)
    requires Others(s, t, id, sv) && ActivityFits(s, a, id, sv) && ListFits(s, id, sv, list) && Sound(sv)
    ensures Inv(Set(s, t, a, id, sv, list))
  {
    hide *;
    Agreement(s, t);
    MineFrom(s, t, a, id, sv);
    assert t !in s.tasks || id in s.services;
    Preserve(s, t, a, id, sv, list);
  }

  lemma ListSame(s: State, id: nat)
    requires Inv(s) && id in s.services
    ensures ListFits(s, id, s.services[id], s.list)
  {
    assert ServiceOk(s, id);
  }

  lemma ListAppend(s: State, id: nat, sv: Service)
    requires Inv(s) && id in s.services && s.services[id].owner != Listed && sv.owner == Listed
    ensures ListFits(s, id, sv, s.list + [id])
  {
    assert ServiceOk(s, id);
  }

  lemma ListTake(s: State, sv: Service)
    requires Inv(s) && s.list != [] && sv.owner != Listed
    ensures ListFits(s, s.list[0], sv, s.list[1..])
  {
  }

  /** A step of an activity that changes no service. */
  lemma KeepTask(s: State, t: nat, a: Option<Activity>, id: nat)
    requires Inv(s) && id in s.services
    requires SameElsewhere(Now(s, t), a, id) && Local(t, a, id, s.services[id])
    requires ActivityFits(s, a, id, s.services[id])
    ensures Inv(SetTask(s, t, a))
  {
    assert s.services == s.services[id := s.services[id]];
    ListSame(s, id);
    assert ServiceOk(s, id);
    KeepSet(s, t, a, id, s.services[id], s.list);
  }

  /** What the invariant says about the service of an activity. */
  lemma Here(s: State, t: nat, id: nat)
    requires Inv(s) && id in s.services
    ensures Local(t, Now(s, t), id, s.services[id]) && Sound(s.services[id])
    ensures t in s.tasks ==> Shaped(s.tasks[t])
    ensures s.services[id].owner == Listed <==> id in s.list
  {
    Agreement(s, t);
    assert ServiceOk(s, id);
    if t in s.tasks { assert TaskOk(s, t); }
  }

  /** What follows a step names services that are there. */
  lemma ContinueFits(s: State, t: nat, id: nat, then_: Then, sv: Service)
    requires Inv(s) && id in s.services && t in s.tasks
    requires forall q :: HasAfter(then_, id, q) ==> Has(s.tasks[t], q)
    ensures ActivityFits(s, Continue(id, then_), id, sv)
  {
    Agreement(s, t);
    if then_.Resume? && then_.next.Some? {
      assert Owns(Now(s, t), then_.next.value) by { assert HasAfter(then_, id, then_.next.value); }
      assert then_.next.value in s.services;
    }
  }

  lemma ListThere(s: State)
    requires Inv(s) && s.list != []
    ensures s.list[0] in s.services
  {
    hide TaskOk, ServiceOk;
  }

  /** The count does not depend on the queue. */
  lemma SameCount(sv: Service, sv': Service)
    requires Counted(sv) && sv'.ref == sv.ref && sv'.holders == sv.holders && sv'.registered == sv.registered
    ensures Counted(sv')
  {
  }

  /** A reference more: for another holder, or from the table to a holder. */
  lemma HolderMore(sv: Service, t: nat)
    requires Counted(sv) && t !in sv.holders
    ensures Counted(sv.(ref := sv.ref + 1, holders := sv.holders + {t}))
    ensures sv.registered ==> Counted(sv.(registered := false, holders := sv.holders + {t}))
    ensures sv.holders != {} ==> sv.ref > 0
  {
  }

  /* ---------- every step keeps the invariant ---------- */

  lemma KeepGrab(s: State, t: nat, id: nat, found: Activity, missing: Option<Activity>)
    requires Inv(s) && id in s.services
    requires SameElsewhere(Now(s, t), Some(found), id) && SameElsewhere(Now(s, t), missing, id)
    requires !Refers(Now(s, t), id) && Refers(Some(found), id) && !Refers(missing, id)
    requires Owns(Some(found), id) <==> Owns(Now(s, t), id)
    requires Owns(missing, id) <==> Owns(Now(s, t), id)
    requires !Deleter(Now(s, t), id) && !Deleter(Some(found), id) && !Deleter(missing, id)
    requires t in s.tasks && !Making(s.tasks[t], id)
    requires Shaped(found) && Named(s.services, found) && !found.Dropping? && !found.Creating?
    requires found.Worker? ==> found.at == Dispatch(id, 0, 1) && Owns(Now(s, t), id)
    requires missing.Some? ==> Shaped(missing.value) && missing.value.MqRelease? && missing.value.id == id
    ensures Inv(GrabNext(s, t, id, found, missing))
  {
    hide Inv, TaskOk;
    Here(s, t, id);
    var sv := s.services[id];
    if sv.registered {
      var sv' := sv.(ref := sv.ref + 1, holders := sv.holders + {t});
      ListSame(s, id);
      KeepSet(s, t, Some(found), id, sv', s.list);
    } else {
      KeepTask(s, t, missing, id);
    }
  }

  lemma KeepPush(s: State, t: nat, id: nat, m: Message, next: Activity)
    requires Inv(s) && id in s.services && t in s.tasks
    requires if s.tasks[t] == Held(id) then next == Held(id) else s.tasks[t] == Pushing(id, m) && next == Releasing(id, Done)
    ensures Inv(PushNext(s, t, id, m, next))
  {
    hide Inv, TaskOk;
    Here(s, t, id);
    var sv := s.services[id];
    var sv' := PushTo(sv, m);
    assert sv.ref > 0 by { assert t in sv.holders; }
    if sv.queue.inGlobal { ListSame(s, id); } else { ListAppend(s, id, sv'); }
    KeepSet(s, t, Some(next), id, sv', ListAfterPush(s, id));
  }

  lemma KeepRelease(s: State, t: nat, id: nat, then_: Then)
    requires Inv(s) && id in s.services && t in s.tasks && s.tasks[t] == Releasing(id, then_)
    ensures Inv(ReleaseNext(s, t, id, then_))
  {
    hide Inv, TaskOk;
    Here(s, t, id);
    var sv := s.services[id];
    var left := sv.(ref := sv.ref - 1, holders := sv.holders - {t});
    ListSame(s, id);
    ContinueFits(s, t, id, then_, left);
    if sv.ref - 1 == 0 {
      KeepSet(s, t, Some(Deleting(id, then_)), id, left.(deleter := Some(t)), s.list);
    } else if then_ == ToPublish {
      KeepSet(s, t, Some(Ready(id)), id, left, s.list);
    } else {
      KeepSet(s, t, Continue(id, then_), id, left, s.list);
    }
  }

  lemma KeepDelete(s: State, t: nat, id: nat, then_: Then)
    requires Inv(s) && id in s.services && t in s.tasks && s.tasks[t] == Deleting(id, then_)
    ensures Inv(DeleteNext(s, t, id, then_))
  {
    hide Inv, TaskOk;
    Here(s, t, id);
    var sv := s.services[id];
    var sv' := sv.(queue := Mark(sv.queue), gone := true, deleter := None, owner := if sv.queue.inGlobal then sv.owner else Listed);
    if sv.queue.inGlobal { ListSame(s, id); } else { ListAppend(s, id, sv'); }
    ContinueFits(s, t, id, then_, sv');
    KeepSet(s, t, Continue(id, then_), id, sv', ListAfterPush(s, id));
  }

  lemma KeepRetire(s: State, t: nat, id: nat, then_: Then)
    requires Inv(s) && id in s.services && t in s.tasks && s.tasks[t] == Retiring(id, then_)
    ensures Inv(RetireNext(s, t, id, then_))
  {
    hide Inv, TaskOk, Counted;
    Here(s, t, id);
    var sv := s.services[id];
    ListSame(s, id);
    if sv.registered {
      var sv' := sv.(registered := false, holders := sv.holders + {t});
      assert !Refers(Now(s, t), id);
      HolderMore(sv, t);
      KeepSet(s, t, Some(Releasing(id, then_)), id, sv', s.list);
    } else {
      KeepTask(s, t, Continue(id, then_), id);
    }
  }

  lemma KeepMqRelease(s: State, t: nat, id: nat, then_: Then)
    requires Inv(s) && id in s.services && t in s.tasks && s.tasks[t] == MqRelease(id, then_)
    ensures Inv(MqReleaseNext(s, t, id, then_))
  {
    hide Inv, TaskOk;
    Here(s, t, id);
    var sv := s.services[id];
    if sv.queue.release {
      KeepTask(s, t, Some(Dropping(id, then_)), id);
    } else {
      ListAppend(s, id, sv.(owner := Listed));
      KeepSet(s, t, Continue(id, then_), id, sv.(owner := Listed), s.list + [id]);
    }
  }

  lemma DroppingReleased(s: State, t: nat, id: nat, then_: Then)
    requires Inv(s) && id in s.services && t in s.tasks && s.tasks[t] == Dropping(id, then_)
    ensures s.services[id].queue.release
  {
    hide Has, Reference;
    assert TaskOk(s, t);
  }

  lemma KeepDrop(s: State, t: nat, id: nat, then_: Then)
    requires Inv(s) && id in s.services && t in s.tasks && s.tasks[t] == Dropping(id, then_)
    ensures Inv(DropNext(s, t, id, then_))
  {
    hide Inv, TaskOk, Counted;
    Here(s, t, id);
    DroppingReleased(s, t, id, then_);
    var sv := s.services[id];
    ListSame(s, id);
    if sv.queue.messages == [] {
      var sv' := sv.(queue := Pop(sv.queue), freed := true, owner := NoOne);
      SameCount(sv, sv');
      KeepSet(s, t, Continue(id, then_), id, sv', s.list);
    } else {
      var sv' := sv.(queue := Pop(sv.queue), dropped := sv.dropped + [sv.queue.messages[0]]);
      SameCount(sv, sv');
      KeepSet(s, t, Some(Dropping(id, then_)), id, sv', s.list);
    }
  }

  lemma DispatchingReady(s: State, t: nat)
    requires Inv(s) && t in s.tasks && s.tasks[t].Worker? && !s.tasks[t].at.Idle? && !s.tasks[t].at.Have?
    ensures s.tasks[t].at.id in s.services && s.services[s.tasks[t].at.id].init
    ensures s.tasks[t].at.Swap? ==> s.tasks[t].at.id != s.tasks[t].at.next
  {
    hide Has, Reference;
    assert TaskOk(s, t);
  }

  /** A worker takes the queue at the front of the list. */
  lemma KeepPop(s: State, t: nat, a: Activity)
    requires Inv(s) && s.list != [] && t in s.tasks && a.Worker?
    requires var b := s.tasks[t];
             && b.Worker? && !(b.at.Have? || b.at.Measure? || b.at.Running? || b.at.Swap?)
             && (b.at.Idle? ==> a == Worker(a.weight, Have(s.list[0])))
             && (b.at.Dispatch? ==> a == Worker(a.weight, Swap(b.at.id, s.list[0])))
    ensures s.list[0] in s.services && Inv(PopList(s, t, a))
  {
    hide Inv, TaskOk, Counted;
    var id := s.list[0];
    ListThere(s);
    Here(s, t, id);
    var sv' := s.services[id].(owner := Task(t));
    SameCount(s.services[id], sv');
    ListTake(s, sv');
    if s.tasks[t].at.Dispatch? { DispatchingReady(s, t); }
    KeepSet(s, t, Some(a), id, sv', s.list[1..]);
  }

  lemma KeepDispatch(s: State, t: nat, weight: int, id: nat, i: nat, n: nat)
    requires Inv(s) && id in s.services && t in s.tasks && s.tasks[t] == Worker(weight, Dispatch(id, i, n))
    requires s.list != [] ==> s.list[0] in s.services
    ensures Inv(DispatchNext(s, t, weight, id, i, n))
  {
    hide Inv, TaskOk, Counted;
    Here(s, t, id);
    DispatchingReady(s, t);
    var sv := s.services[id];
    if i < n {
      ListSame(s, id);
      if sv.queue.messages == [] {
        var sv' := sv.(queue := Pop(sv.queue), owner := NoOne);
        SameCount(sv, sv');
        KeepSet(s, t, Some(Releasing(id, Resume(weight, None))), id, sv', s.list);
      } else {
        var sv' := sv.(queue := Pop(sv.queue), delivered := sv.delivered + [sv.queue.messages[0]]);
        SameCount(sv, sv');
        KeepSet(s, t, Some(Worker(weight, if i == 0 && weight >= 0 then Measure(id) else Running(id, i, n))), id, sv', s.list);
      }
    } else if s.list == [] {
      KeepTask(s, t, Some(Releasing(id, Resume(weight, Some(id)))), id);
    } else {
      KeepPop(s, t, Worker(weight, Swap(id, s.list[0])));
    }
  }

  lemma KeepSwap(s: State, t: nat, weight: int, id: nat, next: nat)
    requires Inv(s) && id in s.services && t in s.tasks && s.tasks[t] == Worker(weight, Swap(id, next))
    ensures Inv(Set(s, t, Some(Releasing(id, Resume(weight, Some(next)))), id, s.services[id].(owner := Listed), s.list + [id]))
  {
    hide Inv, TaskOk, Counted;
    Here(s, t, id);
    DispatchingReady(s, t);
    var sv := s.services[id];
    var sv' := sv.(owner := Listed);
    SameCount(sv, sv');
    ListAppend(s, id, sv');
    KeepSet(s, t, Some(Releasing(id, Resume(weight, Some(next)))), id, sv', s.list + [id]);
  }

  lemma KeepMade(s: State, t: nat, id: nat)
    requires Inv(s) && id in s.services && t in s.tasks && s.tasks[t] == Creating(id)
    ensures Inv(Set(s, t, Some(Init(id)), id, s.services[id].(made := true), s.list))
  {
    hide Inv, TaskOk, Counted;
    Here(s, t, id);
    var sv' := s.services[id].(made := true);
    SameCount(s.services[id], sv');
    ListSame(s, id);
    KeepSet(s, t, Some(Init(id)), id, sv', s.list);
  }

  lemma KeepReady(s: State, t: nat, id: nat)
    requires Inv(s) && id in s.services && t in s.tasks && s.tasks[t] == Ready(id)
    ensures Inv(Set(s, t, Some(Publish(id, true)), id, s.services[id].(init := true), s.list))
  {
    hide Inv, TaskOk, Counted;
    Here(s, t, id);
    var sv' := s.services[id].(init := true);
    SameCount(s.services[id], sv');
    ListSame(s, id);
    KeepSet(s, t, Some(Publish(id, true)), id, sv', s.list);
  }

  lemma KeepPublish(s: State, t: nat, id: nat, ret: bool)
    requires Inv(s) && id in s.services && t in s.tasks && s.tasks[t] == Publish(id, ret)
    ensures Inv(Set(s, t, if ret then Some(Logging(id)) else None, id, s.services[id].(owner := Listed), s.list + [id]))
  {
    hide Inv, TaskOk, Counted;
    Here(s, t, id);
    var sv' := s.services[id].(owner := Listed);
    SameCount(s.services[id], sv');
    ListAppend(s, id, sv');
    KeepSet(s, t, if ret then Some(Logging(id)) else None, id, sv', s.list + [id]);
  }

  lemma KeepWorker(s: State, t: nat, weight: int, at: At)
    requires Inv(s) && t in s.tasks && s.tasks[t] == Worker(weight, at)
    requires Present(s, s.tasks[t])
    ensures Inv(WorkerNext(s, t, weight, at))
  {
    hide Inv, TaskOk, Counted, GrabNext, DispatchNext, Sound;
    if !at.Idle? { Here(s, t, at.id); }
    match at
    case Idle => if s.list != [] { KeepPop(s, t, Worker(weight, Have(s.list[0]))); }
    case Have(id) => KeepGrab(s, t, id, Worker(weight, Dispatch(id, 0, 1)), Some(MqRelease(id, Resume(weight, None))));
    case Dispatch(id, i, n) => KeepDispatch(s, t, weight, id, i, n);
    case Measure(id) =>
      DispatchingReady(s, t);
      var n := if weight >= 0 then Halved(|s.services[id].queue.messages|, weight) else 1;
      KeepTask(s, t, Some(Worker(weight, Running(id, 0, n))), id);
    case Running(id, i, n) =>
      DispatchingReady(s, t);
      KeepTask(s, t, Some(Worker(weight, Dispatch(id, i + 1, n))), id);
    case Swap(id, next) => KeepSwap(s, t, weight, id, next);
  }

  lemma KeepAdvance(s: State, t: nat, ok: bool)
    requires Inv(s) && t in s.tasks && Present(s, s.tasks[t])
    ensures Inv(Advance(s, t, ok))
  {
    hide Inv, WorkerNext, GrabNext, PushNext, RetireNext, ReleaseNext, DeleteNext, MqReleaseNext, DropNext, Sound, Counted;
    if !s.tasks[t].Worker? { Here(s, t, s.tasks[t].id); }
    match s.tasks[t]
    case Worker(weight, at) => KeepWorker(s, t, weight, at);
    case Lookup(id, m) => KeepGrab(s, t, id, Pushing(id, m), None);
    case Pushing(id, m) => KeepPush(s, t, id, m, Releasing(id, Done));
    case Grabbing(id) => KeepGrab(s, t, id, Held(id), None);
    case Held(id) => KeepTask(s, t, Some(Releasing(id, Done)), id);
    case Init(id) => KeepTask(s, t, Some(Releasing(id, if ok then ToPublish else ToRetire)), id);
    case Creating(id) => KeepMade(s, t, id);
    case Ready(id) => KeepReady(s, t, id);
    case Publish(id, ret) => KeepPublish(s, t, id, ret);
    case Logging(id) => KeepTask(s, t, Some(Returned(id)), id);
    case Returned(id) => KeepTask(s, t, None, id);
    case Retiring(id, then_) => KeepRetire(s, t, id, then_);
    case Releasing(id, then_) => KeepRelease(s, t, id, then_);
    case Deleting(id, then_) => KeepDelete(s, t, id, then_);
    case MqRelease(id, then_) => KeepMqRelease(s, t, id, then_);
    case Dropping(id, then_) => KeepDrop(s, t, id, then_);
  }

  lemma KeepCreate(s: State, t: nat, id: nat)
    requires Inv(s) && t !in s.tasks && id !in s.services
    ensures Inv(Do(s, Create(t, id)))
  {
    var sv := Service(2, true, false, false, false, Queue([], true, false), false, {t}, Task(t), None, [], [], []);
    Agreement(s, t);
    assert ListFits(s, id, sv, s.list);
    assert Reference(Creating(id)) == Some(id) && (forall q :: Has(Creating(id), q) <==> q == id);
    Preserve(s, t, Some(Creating(id)), id, sv, s.list);
  }

  /** An activity that starts with nothing. */
  lemma KeepStart(s: State, t: nat, a: Activity)
    requires Inv(s) && t !in s.tasks && Shaped(a) && Named(s.services, a)
    requires a.Worker? ==> a.at.Idle?
    requires !a.Dropping? && !a.Deleting? && !a.Creating? && Reference(a) == None && forall q :: !Has(a, q)
    ensures Inv(SetTask(s, t, Some(a)))
  {
    var s' := SetTask(s, t, Some(a));
    hide Has, Reference, Counted, Making, Shaped;
    forall u | u in s'.tasks ensures TaskOk(s', u) {
      if u != t { assert TaskOk(s, u); }
    }
    forall q | q in s'.services ensures ServiceOk(s', q) {
      assert ServiceOk(s, q);
    }
  }

  lemma KeepReserve(s: State, t: nat, holder: nat)
    requires Inv(s) && Enabled(s, Reserve(t, holder))
    ensures Inv(Do(s, Reserve(t, holder)))
  {
    hide Inv, TaskOk, Counted;
    var id := s.tasks[holder].id;
    Here(s, holder, id);
    Here(s, t, id);
    var sv := s.services[id];
    var sv' := sv.(ref := sv.ref + 1, holders := sv.holders + {t});
    assert !Refers(Now(s, t), id) && holder in sv.holders;
    HolderMore(sv, t);
    ListSame(s, id);
    KeepSet(s, t, Some(Held(id)), id, sv', s.list);
  }

  /** Whatever happens next, the invariant holds. */
  lemma KeepDo(s: State, a: Action)
    requires Inv(s) && Enabled(s, a)
    ensures Inv(Do(s, a))
  {
    hide Inv, Advance, PushNext;
    match a
    case Create(t, id) => KeepCreate(s, t, id);
    case Work(t, weight) => KeepStart(s, t, Worker(weight, Idle));
    case Send(t, id, m) => KeepStart(s, t, Lookup(id, m));
    case Grab(t, id) => KeepStart(s, t, Grabbing(id));
    case Kill(t, id) => KeepStart(s, t, Retiring(id, Done));
    case Reserve(t, holder) => KeepReserve(s, t, holder);
    case SendHeld(t, m) => KeepPush(s, t, s.tasks[t].id, m, s.tasks[t]);
    case Go(t, ok) => KeepAdvance(s, t, ok);
  }

  lemma {:induction false} InvReachable(s: State, actions: seq<Action>)
    requires Reachable(s, actions)
    ensures Inv(s)
    decreases |actions|
  {
    if actions == [] {
      assert Inv(START);
    } else {
      var k := |actions| - 1;
      var before :| Reachable(before, actions[..k]) && Enabled(before, actions[k]) && s == Do(before, actions[k]);
      InvReachable(before, actions[..k]);
      KeepDo(before, actions[k]);
    }
  }

  /* ---------- what the invariant means ---------- */

  /** The context that the next step of an activity reads or writes. */
  function Uses(a: Activity): Option<nat> {
    match a
    case Ready(id) => Some(id)
    case Logging(id) => Some(id)
    case Returned(id) => Some(id)
    case _ => Reference(a)
  }

  /** The steps of a creator that gave its reference back, and got the context as an answer:
      it stores that the service is ready, logs the launch, and its caller reads the handle. */
  predicate WithoutReference(a: Activity) { a.Ready? || a.Logging? || a.Returned? }

  /** The context is in memory, and nobody is about to delete it. */
  predicate Whole(sv: Service) { !sv.gone && sv.deleter == None }

  /** The assertions of the program hold at the next step of an activity, and the queue that
      it touches is still there. So is the context, for an activity that refers to it. */
  ghost predicate SafeStep(s: State, t: nat)
    requires t in s.tasks
  {
    var a := s.tasks[t];
    && Present(s, a)
    && (Uses(a).Some? && !WithoutReference(a) ==> Uses(a).value in s.services && Whole(s.services[Uses(a).value]))
    && match a
       case Worker(_, Idle) => true
       case Worker(_, Have(id)) => !s.services[id].freed && id !in s.list
       case Worker(_, at) =>
         var sv := s.services[at.id];
         sv.made && !sv.freed && !sv.queue.release && sv.ref > 0 && sv.init && at.id !in s.list
       case Pushing(id, _) =>
         var sv := s.services[id];
         !sv.freed && !sv.queue.release && sv.ref > 0 && (!sv.queue.inGlobal ==> id !in s.list)
       case Held(id) => !s.services[id].queue.release && s.services[id].ref > 0
       case Creating(id) => !s.services[id].made && s.services[id].queue.messages == []
       case Init(id) => s.services[id].made && !s.services[id].queue.release && s.services[id].ref > 0 && id !in s.list
       case Publish(id, _) => !s.services[id].freed && id !in s.list
       case Releasing(id, _) => !s.services[id].queue.release && s.services[id].ref > 0
       case Deleting(id, _) =>
         var sv := s.services[id];
         sv.made && !sv.gone && !sv.freed && !sv.queue.release && sv.ref == 0 && (!sv.queue.inGlobal ==> id !in s.list)
       case MqRelease(id, _) => !s.services[id].freed && id !in s.list
       case Dropping(id, _) => !s.services[id].freed && s.services[id].queue.release && id !in s.list
       case _ => true
  }

  lemma Safe(s: State, t: nat)
    requires Inv(s) && t in s.tasks
    ensures SafeStep(s, t)
  {
    var a := s.tasks[t];
    assert TaskOk(s, t);
    assert s.list != [] ==> s.list[0] in s.services;
    if !(a.Worker? && a.at.Idle?) {
      var id := if a.Worker? then a.at.id else a.id;
      Here(s, t, id);
    }
    hide Inv, TaskOk;
  }

  /** In every run, no assertion fails, no queue is touched after it was freed, and no
      context after it was deleted by an activity that refers to it. What this leaves open
      are the uses by a creator without a reference (`LateUse`) and the pushes to a queue
      that is not made yet (`MadeByCreator`). */
  lemma SafeRun(s: State, actions: seq<Action>, t: nat)
    requires Reachable(s, actions) && t in s.tasks
    ensures SafeStep(s, t)
  {
    InvReachable(s, actions);
    Safe(s, t);
  }

  /** A context is whole exactly while its count is above zero: while its handle is in the
      table, or an activity refers to it. */
  lemma WholeWhileCounted(s: State, actions: seq<Action>, id: nat)
    requires Reachable(s, actions) && id in s.services
    ensures Whole(s.services[id]) <==> s.services[id].ref > 0
    ensures Whole(s.services[id]) <==>
            s.services[id].registered || exists t :: t in s.tasks && Reference(s.tasks[t]) == Some(id)
    ensures s.services[id].gone ==> !Whole(s.services[id])
  {
    hide Reachable, Reference;
    InvReachable(s, actions);
    assert ServiceOk(s, id);
    var sv := s.services[id];
    if sv.holders != {} {
      var t :| t in sv.holders;
      assert Reference(s.tasks[t]) == Some(id);
    }
    forall t | t in s.tasks && Reference(s.tasks[t]) == Some(id) ensures sv.holders != {} { assert TaskOk(s, t); }
  }

  /** So a creator that goes on to use the service after it gave its reference back finds
      the context whole exactly when the count is still above zero. */
  lemma LateUse(s: State, actions: seq<Action>, t: nat)
    requires Reachable(s, actions) && t in s.tasks && WithoutReference(s.tasks[t])
    ensures s.tasks[t].id in s.services && Enabled(s, Go(t, true))
    ensures Whole(s.services[s.tasks[t].id]) <==> s.services[s.tasks[t].id].ref > 0
  {
    hide Reachable, Inv;
    InvReachable(s, actions);
    LateThere(s, t);
    WholeWhileCounted(s, actions, s.tasks[t].id);
  }

  lemma LateThere(s: State, t: nat)
    requires Inv(s) && t in s.tasks && WithoutReference(s.tasks[t])
    ensures s.tasks[t].id in s.services && Present(s, s.tasks[t])
  {
    hide Has, Reference, Sound, ServiceOk;
    assert TaskOk(s, t);
    if s.list != [] { ListThere(s); }
  }

  lemma MoreSteps(s: State, actions: seq<Action>, a: Action)
    requires Reachable(s, actions) && Enabled(s, a)
    ensures Reachable(Do(s, a), actions + [a])
  {
    assert (actions + [a])[..|actions|] == actions;
  }

  /** And it need not be: while service 7 is made by activity 0, activity 1 kills it after
      the creator's reference is back. The context is gone when the creator stores into it,
      and still when its caller reads the handle. */
  lemma LaunchRace() returns (s: State, actions: seq<Action>, s': State, actions': seq<Action>)
    ensures Reachable(s, actions) && 0 in s.tasks && s.tasks[0] == Ready(7)
    ensures 7 in s.services && s.services[7].gone && Enabled(s, Go(0, true))
    ensures Reachable(s', actions') && 0 in s'.tasks && s'.tasks[0] == Returned(7)
    ensures 7 in s'.services && s'.services[7].gone && Enabled(s', Go(0, true))
  {
    var s0, a0 := RaceBegins();
    hide Reachable, WorkerNext, GrabNext, PushNext, RetireNext, ReleaseNext, DeleteNext, MqReleaseNext, DropNext;
    s, actions := s0, a0;
    var s1, a1 := Do(s, Go(0, true)), actions + [Go(0, true)];
    MoreSteps(s, actions, Go(0, true));
    var s2, a2 := Do(s1, Go(0, true)), a1 + [Go(0, true)];
    MoreSteps(s1, a1, Go(0, true));
    s', actions' := Do(s2, Go(0, true)), a2 + [Go(0, true)];
    MoreSteps(s2, a2, Go(0, true));
  }

  lemma RaceBegins() returns (s: State, actions: seq<Action>)
    ensures Reachable(s, actions) && s.list == [] && 0 in s.tasks && s.tasks[0] == Ready(7)
    ensures 7 in s.services && s.services[7].gone
  {
    hide Reachable;
    var s3, a3 := RaceMade();
    var s5, a5 := KillBegins(s3, a3);
    var s6, a6 := Do(s5, Go(1, true)), a5 + [Go(1, true)];
    MoreSteps(s5, a5, Go(1, true));
    s, actions := Do(s6, Go(1, true)), a6 + [Go(1, true)];
    MoreSteps(s6, a6, Go(1, true));
  }

  /** The handle is out of the table. */
  lemma KillBegins(s: State, actions: seq<Action>) returns (s': State, actions': seq<Action>)
    requires Reachable(s, actions) && s.list == [] && s.tasks == map[0 := Ready(7)]
    requires 7 in s.services && s.services[7].ref == 1 && s.services[7].registered
    ensures Reachable(s', actions') && s'.list == [] && s'.tasks == map[0 := Ready(7), 1 := Releasing(7, Done)]
    ensures 7 in s'.services && s'.services[7].ref == 1 && s'.services[7].queue == s.services[7].queue
  {
    hide Reachable;
    var s1, a1 := Do(s, Kill(1, 7)), actions + [Kill(1, 7)];
    MoreSteps(s, actions, Kill(1, 7));
    s', actions' := Do(s1, Go(1, true)), a1 + [Go(1, true)];
    MoreSteps(s1, a1, Go(1, true));
  }

  /** The queue of a service is there exactly when its creator is past the step that makes
      it: a push between the two steps, and no other, finds no queue. */
  lemma MadeByCreator(s: State, actions: seq<Action>, id: nat)
    requires Reachable(s, actions) && id in s.services
    ensures s.services[id].made <==> forall t :: t in s.tasks ==> s.tasks[t] != Creating(id)
  {
    hide Reachable, Has, Reference, Making;
    InvReachable(s, actions);
    assert ServiceOk(s, id);
    forall t | t in s.tasks && s.tasks[t] == Creating(id) ensures !s.services[id].made { assert TaskOk(s, t); }
  }

  /** And there is such a push: the handle is in the table before the queue is made. A
      thread that sends to it then writes to no queue, and the message is lost. */
  lemma EarlyPush(m: Message) returns (s: State, actions: seq<Action>)
    ensures Reachable(s, actions) && 1 in s.tasks && s.tasks[1] == Pushing(7, m)
    ensures 7 in s.services && !s.services[7].made && Enabled(s, Go(1, true))
    ensures 7 in Do(s, Go(1, true)).services && Do(s, Go(1, true)).services[7].queue.messages == []
  {
    hide Reachable;
    var s1, a1 := Created();
    var s2, a2 := Do(s1, Send(1, 7, m)), a1 + [Send(1, 7, m)];
    MoreSteps(s1, a1, Send(1, 7, m));
    s, actions := Do(s2, Go(1, true)), a2 + [Go(1, true)];
    MoreSteps(s2, a2, Go(1, true));
  }

  /** The creator gave its reference back; the reference of the table is the last one. */
  lemma RaceMade() returns (s: State, actions: seq<Action>)
    ensures Reachable(s, actions) && s.list == [] && s.tasks == map[0 := Ready(7)] && 7 in s.services
    ensures var sv := s.services[7]; sv.ref == 1 && sv.registered && sv.made && sv.queue == Queue([], true, false)
  {
    hide Reachable;
    var s1, a1 := Created();
    var s2, a2 := Do(s1, Go(0, true)), a1 + [Go(0, true)];
    MoreSteps(s1, a1, Go(0, true));
    var s3, a3 := Do(s2, Go(0, true)), a2 + [Go(0, true)];
    MoreSteps(s2, a2, Go(0, true));
    s, actions := Do(s3, Go(0, true)), a3 + [Go(0, true)];
    MoreSteps(s3, a3, Go(0, true));
  }

  /** The handle is in the table, the queue is not made yet. */
  lemma Created() returns (s: State, actions: seq<Action>)
    ensures Reachable(s, actions) && s.list == [] && s.tasks == map[0 := Creating(7)] && 7 in s.services
    ensures var sv := s.services[7];
            sv.ref == 2 && sv.holders == {0} && sv.registered && !sv.made && sv.queue == Queue([], true, false)
  {
    assert Reachable(START, []);
    hide Reachable;
    s, actions := Do(START, Create(0, 7)), [] + [Create(0, 7)];
    MoreSteps(START, [], Create(0, 7));
  }

  /** A live queue is in one place: once in the list, with one activity, or idle; idle is
      exactly not scheduled and not released, and then it is empty. */
  lemma OnePlace(s: State, actions: seq<Action>, id: nat)
    requires Reachable(s, actions) && id in s.services && !s.services[id].freed
    ensures forall t, u :: t in s.tasks && u in s.tasks && Has(s.tasks[t], id) && Has(s.tasks[u], id) ==> t == u
    ensures forall i, j :: 0 <= i < |s.list| && 0 <= j < |s.list| && s.list[i] == s.list[j] == id ==> i == j
    ensures id in s.list ==> forall t :: t in s.tasks ==> !Has(s.tasks[t], id)
    ensures var sv := s.services[id];
            (id !in s.list && forall t :: t in s.tasks ==> !Has(s.tasks[t], id)) <==> (!sv.queue.inGlobal && !sv.queue.release)
    ensures !s.services[id].queue.inGlobal ==> s.services[id].queue.messages == []
  {
    hide Has, Reachable;
    InvReachable(s, actions);
    assert ServiceOk(s, id);
    forall t | t in s.tasks && Has(s.tasks[t], id)
      ensures s.services[id].owner == Task(t)
    {
      assert TaskOk(s, t);
    }
  }

  /** So no queue with messages is forgotten, and a queue whose service is gone will be
      found and dropped. */
  lemma NotStranded(s: State, actions: seq<Action>, id: nat)
    requires Reachable(s, actions) && id in s.services && !s.services[id].freed
    requires s.services[id].queue.messages != [] || s.services[id].queue.release
    ensures id in s.list || exists t :: t in s.tasks && Has(s.tasks[t], id)
  {
    hide Has, Reachable;
    OnePlace(s, actions, id);
  }

  /** No two workers run the same service at once. */
  lemma OneWorker(s: State, actions: seq<Action>, id: nat, t: nat, u: nat)
    requires Reachable(s, actions) && t in s.tasks && u in s.tasks
    requires Dispatching(s.tasks[t], id) && Dispatching(s.tasks[u], id)
    ensures t == u
  {
    hide Reachable;
    InvReachable(s, actions);
    assert Has(s.tasks[t], id) && Has(s.tasks[u], id);
    assert TaskOk(s, t) && TaskOk(s, u);
  }

  /** The count of a service is the activities that refer to it, and one for the table. */
  lemma CountExact(s: State, actions: seq<Action>, id: nat)
    requires Reachable(s, actions) && id in s.services
    ensures s.services[id].ref ==
            |set t | t in s.tasks && Reference(s.tasks[t]) == Some(id)| + if s.services[id].registered then 1 else 0
  {
    hide Reachable;
    InvReachable(s, actions);
    assert ServiceOk(s, id);
    forall t | t in s.tasks && Reference(s.tasks[t]) == Some(id)
      ensures t in s.services[id].holders
    {
      assert TaskOk(s, t);
    }
    assert s.services[id].holders == set t | t in s.tasks && Reference(s.tasks[t]) == Some(id);
  }

  /** No message that was pushed to a queue is lost, doubled or moved: what was delivered,
      then what was dropped, then what waits is what was pushed; nothing is dropped before
      the service is gone, and nothing waits in a queue that is freed. */
  lemma Conserved(s: State, actions: seq<Action>, id: nat)
    requires Reachable(s, actions) && id in s.services
    ensures var sv := s.services[id];
            && sv.pushed == sv.delivered + sv.dropped + sv.queue.messages
            && (sv.dropped != [] ==> sv.queue.release)
            && (sv.queue.release ==> sv.ref == 0 && !sv.registered)
            && (sv.freed ==> sv.queue.release && sv.pushed == sv.delivered + sv.dropped)
  {
    hide Reachable;
    InvReachable(s, actions);
    assert ServiceOk(s, id);
  }

  lemma FreedAlone(s: State, t: nat, id: nat)
    requires Inv(s) && id in s.services && s.services[id].freed
    ensures !Refers(Now(s, t), id) && !Owns(Now(s, t), id) && !Deleter(Now(s, t), id)
    ensures !s.services[id].registered && id !in s.list
  {
    hide Inv, Has, Reference, Deletes;
    Here(s, t, id);
    assert s.services[id].holders == {};
  }

  /** A queue that is freed is never touched again, so it is freed once. */
  lemma FreedOnce(s: State, a: Action, id: nat)
    requires Inv(s) && Enabled(s, a) && id in s.services && s.services[id].freed
    ensures id in Do(s, a).services && Do(s, a).services[id] == s.services[id]
  {
    hide Inv;
    match a
    case Go(t, ok) => FreedAlone(s, t, id); Shapes(s, t);
    case SendHeld(t, _) => FreedAlone(s, t, id);
    case Reserve(t, holder) => FreedAlone(s, holder, id);
    case _ =>
  }

  lemma Shapes(s: State, t: nat)
    requires Inv(s) && t in s.tasks
    ensures Shaped(s.tasks[t])
  {
    assert TaskOk(s, t);
  }

  /** A context that is gone stays so: no count, no handle, no activity that refers to it.
      It is deleted once, and what still changes is its queue, which is drained. */
  lemma GoneOnce(s: State, a: Action, id: nat)
    requires Inv(s) && Enabled(s, a) && id in s.services && s.services[id].gone
    ensures id in Do(s, a).services
    ensures var sv, sv' := s.services[id], Do(s, a).services[id];
            sv'.gone && sv'.ref == sv.ref == 0 && sv'.holders == {} && !sv'.registered && sv'.deleter == None
    ensures forall t :: t in s.tasks ==> Reference(s.tasks[t]) != Some(id)
  {
    KeepDo(s, a);
    hide Reference, Has, Deletes;
    assert ServiceOk(s, id);
    forall t | t in s.tasks ensures Reference(s.tasks[t]) != Some(id) { assert TaskOk(s, t); }
    GoneStays(s, a, id);
    hide Do;
    assert ServiceOk(Do(s, a), id);
  }

  lemma GoneStays(s: State, a: Action, id: nat)
    requires Enabled(s, a) && id in s.services && s.services[id].gone
    ensures id in Do(s, a).services && Do(s, a).services[id].gone
  {
    hide Advance;
    if a.Go? { GoneAdvance(s, a.t, a.ok, id); }
  }

  lemma GoneAdvance(s: State, t: nat, ok: bool, id: nat)
    requires t in s.tasks && Present(s, s.tasks[t]) && id in s.services && s.services[id].gone
    ensures id in Advance(s, t, ok).services && Advance(s, t, ok).services[id].gone
  {
    hide WorkerNext;
    if s.tasks[t].Worker? { GoneWorker(s, t, s.tasks[t].weight, s.tasks[t].at, id); }
  }

  lemma GoneWorker(s: State, t: nat, weight: int, at: At, id: nat)
    requires (at.Idle? || at.id in s.services) && (s.list != [] ==> s.list[0] in s.services)
    requires id in s.services && s.services[id].gone
    ensures id in WorkerNext(s, t, weight, at).services && WorkerNext(s, t, weight, at).services[id].gone
  {
  }
}
