/** The life of a shared object: its writer, its readers, and the references that are under
    way between them, behind the reader/writer lock. One atomic access a step. */
module SkynetStmObject {
  import opened SkynetRwlock

  /* ---------- the state ---------- */

  /** What a thread does under the lock: look at the copy, take a reference for somebody
      else, or give its own back; put in a copy, or give the object up. */
  datatype Use = Look | Grab | Leave
  datatype Edit = Update | GiveUp

  datatype Pc =
    | Idle
    | RSpin(use: Use)
    | RAdd(use: Use)
    | RCheck(use: Use)
    | RSub(use: Use)
    | RIn(use: Use)
    | RUnlock(use: Use)
    | WSpin(edit: Edit)
    | WWait(edit: Edit)
    | WIn(edit: Edit)
    | WCount
    | WUnlock(edit: Edit)
    | Out

  /** `sent` are references that were taken for readers that are not there yet. Thread 0 is
      the writer. The memory of the object is `gone` when it was freed; what is done to it
      then is done to memory of somebody else. */
  datatype State = State(lock: Lock, reference: int, copy: bool, gone: bool, sent: nat, threads: map<nat, Pc>)

  /* ---------- the steps ---------- */

  function To(s: State, t: nat, pc: Pc): State { s.(threads := s.threads[t := pc]) }

  function Counting(s: State, more: int): State { s.(lock := s.lock.(read := s.lock.read + more)) }

  function Flagged(s: State, write: bool): State { s.(lock := s.lock.(write := write)) }

  /** A reference is given back; the last one frees the object, without an unlock. */
  function Drop(s: State, t: nat, unlock: Pc): State {
    if s.reference - 1 == 0 then To(s, t, Out).(reference := 0, gone := true)
    else To(s, t, unlock).(reference := s.reference - 1)
  }

  function Go(s: State, t: nat): State
    requires t in s.threads
  {
    match s.threads[t]
    case RSpin(use) => if s.lock.write then s else To(s, t, RAdd(use))
    case RAdd(use) => Counting(To(s, t, RCheck(use)), 1)
    case RCheck(use) => To(s, t, if s.lock.write then RSub(use) else RIn(use))
    case RSub(use) => Counting(To(s, t, RSpin(use)), -1)
    case RIn(Look) => To(s, t, RUnlock(Look))
    case RIn(Grab) => To(s, t, RUnlock(Grab)).(reference := s.reference + 1, sent := s.sent + 1)
    case RIn(Leave) => Drop(s, t, RUnlock(Leave))
    case RUnlock(use) => Counting(To(s, t, if use == Leave then Out else Idle), -1)
    case WSpin(edit) => if s.lock.write then s else Flagged(To(s, t, WWait(edit)), true)
    case WWait(edit) => if s.lock.read != 0 then s else To(s, t, WIn(edit))
    case WIn(Update) => To(s, t, WUnlock(Update))
    case WIn(GiveUp) => To(s, t, WCount).(copy := false)
    case WCount => Drop(s, t, WUnlock(GiveUp))
    case WUnlock(edit) => Flagged(To(s, t, if edit == GiveUp then Out else Idle), false)
    case _ => s
  }

  datatype Action =
    | Join(t: nat)              // a new reader, with a reference that was sent
    | Read(t: nat, use: Use)    // only readers look and leave, and only the writer grabs
    | Write(t: nat, edit: Edit)
    | Step(t: nat)

  predicate Enabled(s: State, a: Action) {
    match a
    case Join(t) => t !in s.threads && s.sent > 0
    case Read(t, use) => t in s.threads && s.threads[t] == Idle && (use == Grab <==> t == 0)
    case Write(t, _) => t in s.threads && s.threads[t] == Idle && t == 0
    case Step(t) => t in s.threads
  }

  function Do(s: State, a: Action): State
    requires Enabled(s, a)
  {
    match a
    case Join(t) => To(s, t, Idle).(sent := s.sent - 1)
    case Read(t, use) => To(s, t, RSpin(use))
    case Write(t, edit) => To(s, t, WSpin(edit))
    case Step(t) => Go(s, t)
  }

  const NEW: State := State(Lock(false, 0), 1, true, false, 0, map[0 := Idle])

  ghost predicate Reachable(s: State, actions: seq<Action>)
    decreases |actions|
  {
    if actions == [] then s == NEW
    else
      var k := |actions| - 1;
      exists before :: Reachable(before, actions[..k]) && Enabled(before, actions[k]) && s == Do(before, actions[k])
  }

  /* ---------- the invariant ---------- */

  function PhaseOf(pc: Pc): Phase {
    match pc
    case RCheck(_) => Counted
    case RSub(_) => Counted
    case RIn(_) => Reading
    case RUnlock(_) => Reading
    case WWait(_) => Waiting
    case WIn(_) => Writing
    case WCount => Writing
    case WUnlock(_) => Writing
    case _ => Outside
  }

  function Phases(threads: map<nat, Pc>): map<nat, Phase> { map t | t in threads :: PhaseOf(threads[t]) }

  /** A thread that gave its reference back has at most the unlock left to do. */
  predicate Holds(pc: Pc) { pc != RUnlock(Leave) && pc != WUnlock(GiveUp) && pc != Out }

  function Holders(threads: map<nat, Pc>): set<nat> { set t | t in threads && Holds(threads[t]) }

  /** What only the writer does, and what only readers do. */
  predicate InRole(t: nat, pc: Pc) {
    match pc
    case Idle => true
    case Out => true
    case WCount => t == 0
    case WSpin(_) => t == 0
    case WWait(_) => t == 0
    case WIn(_) => t == 0
    case WUnlock(_) => t == 0
    case _ => pc.use == Grab <==> t == 0
  }

  ghost predicate Inv(s: State) {
    && 0 in s.threads
    && (!s.gone ==> LockOk(s.lock, Phases(s.threads)))
    && s.reference == |Holders(s.threads)| + s.sent
    && (s.gone <==> s.reference == 0)
    && (s.copy <==> Holds(s.threads[0]) && s.threads[0] != WCount)
    && (s.threads[0] == WUnlock(GiveUp) ==> !s.gone)
    && forall t :: t in s.threads ==> InRole(t, s.threads[t])
  }

  function PcOf(s: State, t: nat): Pc { if t in s.threads then s.threads[t] else Out }

  lemma DoShape(s: State, a: Action)
    requires Enabled(s, a)
    ensures a.t in Do(s, a).threads && Do(s, a).threads == s.threads[a.t := Do(s, a).threads[a.t]]
  {
    hide Go;
    if a.Step? { GoShape(s, a.t); }
  }

  lemma GoShape(s: State, t: nat)
    requires t in s.threads
    ensures t in Go(s, t).threads && Go(s, t).threads == s.threads[t := Go(s, t).threads[t]]
  {
    assert s.threads[t := s.threads[t]] == s.threads;
    hide Counting, Flagged;
    OnlyLock(s, t);
  }

  lemma OnlyLock(s: State, t: nat)
    ensures forall r: State, n :: Counting(r, n).threads == r.threads
    ensures forall r: State, w :: Flagged(r, w).threads == r.threads
  {
  }

  lemma DoMove(s: State, a: Action)
    requires Enabled(s, a) && a.t in Do(s, a).threads && !Do(s, a).gone
    ensures Move(s.lock, PhaseOf(PcOf(s, a.t)), Do(s, a).lock, PhaseOf(Do(s, a).threads[a.t]))
  {
  }

  lemma DoRole(s: State, a: Action)
    requires Enabled(s, a) && a.t in Do(s, a).threads && (a.t in s.threads ==> InRole(a.t, s.threads[a.t]))
    ensures InRole(a.t, Do(s, a).threads[a.t])
  {
  }

  predicate Takes(s: State, a: Action) { a.Step? && PcOf(s, a.t) == RIn(Grab) }

  predicate GivesBack(s: State, a: Action) { a.Step? && (PcOf(s, a.t) == RIn(Leave) || PcOf(s, a.t) == WCount) }

  lemma DoCount(s: State, a: Action)
    requires Enabled(s, a) && a.t in Do(s, a).threads
    ensures var s' := Do(s, a);
            && s'.sent == s.sent + (if a.Join? then -1 else if Takes(s, a) then 1 else 0)
            && s'.reference == s.reference + (if Takes(s, a) then 1 else if GivesBack(s, a) then -1 else 0)
            && s'.gone == (s.gone || (GivesBack(s, a) && s.reference == 1))
            && Holds(s'.threads[a.t]) == (a.Join? || (Holds(PcOf(s, a.t)) && !GivesBack(s, a)))
  {
  }

  lemma DoCopy(s: State, a: Action)
    requires Enabled(s, a) && a.t in Do(s, a).threads && (a.t in s.threads ==> InRole(a.t, s.threads[a.t]))
    ensures a.t != 0 ==> Do(s, a).copy == s.copy
    ensures a.t == 0 && a.t in s.threads && (s.copy <==> Holds(s.threads[0]) && s.threads[0] != WCount) ==>
              (Do(s, a).copy <==> Holds(Do(s, a).threads[0]) && Do(s, a).threads[0] != WCount)
    ensures Do(s, a).threads[a.t] == WUnlock(GiveUp) ==> Do(s, a).reference != 0
  {
  }

  lemma HoldersSet(threads: map<nat, Pc>, t: nat, pc: Pc)
    ensures Holders(threads[t := pc]) == if Holds(pc) then Holders(threads) + {t} else Holders(threads) - {t}
  {
  }

  /* ---------- every step keeps the invariant ---------- */

  lemma CountKept(s: State, a: Action)
    requires Inv(s) && Enabled(s, a)
    ensures Do(s, a).reference == |Holders(Do(s, a).threads)| + Do(s, a).sent
    ensures Do(s, a).gone <==> Do(s, a).reference == 0
  {
    DoShape(s, a);
    DoCount(s, a);
    HoldersSet(s.threads, a.t, Do(s, a).threads[a.t]);
    assert a.t in Holders(s.threads) <==> a.t in s.threads && Holds(PcOf(s, a.t));
    if Takes(s, a) || GivesBack(s, a) { assert Holds(PcOf(s, a.t)); }
    hide Do, LockOk, InRole, Holders, Holds, Takes, GivesBack, PcOf, Phases;
    Sizes(Holders(s.threads), a.t);
  }

  lemma Sizes(threads: set<nat>, t: nat)
    ensures |threads + {t}| == |threads| + (if t in threads then 0 else 1)
    ensures |threads - {t}| == |threads| - (if t in threads then 1 else 0)
  {
    if t in threads {
      assert threads + {t} == threads;
    } else {
      assert threads - {t} == threads;
    }
  }

  /** While the writer has the lock, no reader gives its reference back. */
  lemma NobodyElse(s: State, a: Action)
    requires Inv(s) && Enabled(s, a) && s.threads[0] == WUnlock(GiveUp) && a.t != 0
    ensures !GivesBack(s, a)
  {
    hide Do;
    if a.t in s.threads {
      assert InRole(a.t, s.threads[a.t]);
      assert Phases(s.threads)[0] == Writing && Phases(s.threads)[a.t] == PhaseOf(s.threads[a.t]);
    }
  }

  lemma LateKept(s: State, a: Action)
    requires Inv(s) && Enabled(s, a)
    ensures 0 in Do(s, a).threads && (Do(s, a).threads[0] == WUnlock(GiveUp) ==> !Do(s, a).gone)
  {
    DoShape(s, a);
    DoCount(s, a);
    if a.t == 0 {
      DoCopy(s, a);
      CountKept(s, a);
    } else {
      hide Do;
      if s.threads[0] == WUnlock(GiveUp) { NobodyElse(s, a); }
    }
  }

  lemma ObjectLockKept(s: State, a: Action)
    requires Inv(s) && Enabled(s, a) && !Do(s, a).gone
    ensures LockOk(Do(s, a).lock, Phases(Do(s, a).threads))
  {
    DoShape(s, a);
    DoMove(s, a);
    DoCount(s, a);
    hide Do, Move, LockOk, InRole, Holders;
    var s', t := Do(s, a), a.t;
    LockKept(s.lock, Phases(s.threads), t, s'.lock, PhaseOf(s'.threads[t]));
    assert Phases(s'.threads) == Phases(s.threads)[t := PhaseOf(s'.threads[t])];
  }

  lemma InvKept(s: State, a: Action)
    requires Inv(s) && Enabled(s, a)
    ensures Inv(Do(s, a))
  {
    hide LockOk, Holds, Holders, Phases, InRole, Go;
    DoShape(s, a);
    if !Do(s, a).gone { ObjectLockKept(s, a); }
    CountKept(s, a);
    LateKept(s, a);
    DoCopy(s, a);
    DoRole(s, a);
    hide Do;
    assert a.t != 0 ==> Do(s, a).threads[0] == s.threads[0];
  }

  lemma {:induction false} InvReachable(s: State, actions: seq<Action>)
    requires Reachable(s, actions)
    ensures Inv(s)
    decreases |actions|
  {
    if actions == [] {
      NewInv();
    } else {
      hide Inv, Do, Enabled;
      var k := |actions| - 1;
      var before :| Reachable(before, actions[..k]) && Enabled(before, actions[k]) && s == Do(before, actions[k]);
      InvReachable(before, actions[..k]);
      InvKept(before, actions[k]);
    }
  }

  lemma NewInv()
    ensures Inv(NEW)
  {
    assert Holders(NEW.threads) == {0};
    assert Readers(Phases(NEW.threads)) == {} && Writers(Phases(NEW.threads)) == {};
  }

  /* ---------- what the invariant means ---------- */

  /** The next step of the thread reads or writes the object. */
  predicate Touches(pc: Pc) { pc != Idle && pc != Out }

  /** In every run, who has a reference, and the writer up to its last unlock, finds the
      object in memory; its count is the references, and the last one frees it. */
  lemma InMemory(s: State, actions: seq<Action>, t: nat)
    requires Reachable(s, actions) && t in s.threads && Touches(s.threads[t]) && s.threads[t] != RUnlock(Leave)
    ensures !s.gone && s.reference > 0
  {
    hide Reachable, LockOk;
    InvReachable(s, actions);
    assert InRole(t, s.threads[t]);
    if Holds(s.threads[t]) { assert t in Holders(s.threads); }
  }

  /** A reader that gave its reference back, and was not the last, still has to unlock. It
      finds the object in memory exactly when somebody has a reference, or is sent one. */
  lemma LateUnlock(s: State, actions: seq<Action>, t: nat)
    requires Reachable(s, actions) && t in s.threads && s.threads[t] == RUnlock(Leave)
    ensures !s.gone <==> s.sent > 0 || exists u :: u in s.threads && Holds(s.threads[u])
  {
    hide Reachable, LockOk, InRole;
    InvReachable(s, actions);
    if exists u :: u in s.threads && Holds(s.threads[u]) {
      var u :| u in s.threads && Holds(s.threads[u]);
      assert u in Holders(s.threads);
    } else {
      assert Holders(s.threads) == {};
    }
  }

  /** The assertions of the program hold: who takes a reference finds a count above zero, the
      last reader finds no copy, and the writer that gives up finds one. */
  lemma AssertionsHold(s: State, actions: seq<Action>, t: nat)
    requires Reachable(s, actions) && t in s.threads
    ensures s.threads[t] == RIn(Grab) ==> s.reference > 0
    ensures s.threads[t] == RIn(Leave) && s.reference == 1 ==> !s.copy
    ensures s.threads[t] == WSpin(GiveUp) ==> s.copy
  {
    hide Reachable, LockOk;
    InvReachable(s, actions);
    assert InRole(t, s.threads[t]);
    if Holds(s.threads[t]) { assert t in Holders(s.threads); }
    if s.threads[t] == RIn(Leave) && s.copy { assert Holders(s.threads) == {0, t} + (Holders(s.threads) - {0, t}); }
  }

  /** Only the step that gives the last reference back frees the object. */
  lemma FreedByLast(s: State, actions: seq<Action>, a: Action)
    requires Reachable(s, actions) && Enabled(s, a) && !s.gone
    ensures Do(s, a).gone <==> GivesBack(s, a) && Holders(s.threads) == {a.t} && s.sent == 0
  {
    hide Reachable, LockOk, InRole;
    InvReachable(s, actions);
    DoShape(s, a);
    DoCount(s, a);
    hide Do;
    if GivesBack(s, a) {
      assert a.t in Holders(s.threads);
      assert Holders(s.threads) == {a.t} + (Holders(s.threads) - {a.t});
    }
  }

  /* ---------- an unlock that comes too late ---------- */

  lemma MoreSteps(s: State, actions: seq<Action>, a: Action)
    requires Reachable(s, actions) && Enabled(s, a)
    ensures Reachable(Do(s, a), actions + [a])
  {
    assert (actions + [a])[..|actions|] == actions;
  }

  /** `n` steps of a thread. */
  function Steps(s: State, t: nat, n: nat): State
    requires t in s.threads
    decreases n
  {
    if n == 0 then s else Steps(Do(s, Step(t)), t, n - 1)
  }

  lemma {:induction false} MoreOfOne(s: State, actions: seq<Action>, t: nat, n: nat) returns (actions': seq<Action>)
    requires Reachable(s, actions) && t in s.threads
    ensures Reachable(Steps(s, t, n), actions')
    decreases n
  {
    hide Do, Reachable;
    actions' := actions;
    if n > 0 {
      MoreSteps(s, actions, Step(t));
      DoShape(s, Step(t));
      actions' := MoreOfOne(Do(s, Step(t)), actions + [Step(t)], t, n - 1);
    }
  }

  lemma StartAndRun(s: State, actions: seq<Action>, a: Action, n: nat) returns (s': State, actions': seq<Action>)
    requires Reachable(s, actions) && Enabled(s, a)
    ensures a.t in Do(s, a).threads && s' == Steps(Do(s, a), a.t, n) && Reachable(s', actions')
  {
    DoShape(s, a);
    MoreSteps(s, actions, a);
    hide Reachable, Do, Steps;
    s' := Steps(Do(s, a), a.t, n);
    actions' := MoreOfOne(Do(s, a), actions + [a], a.t, n);
  }

  /** A state in which nobody has the lock for writing. */
  function Free(read: int, reference: int, copy: bool, sent: nat, threads: map<nat, Pc>): State {
    State(Lock(false, read), reference, copy, false, sent, threads)
  }

  lemma GrabOnce(n: nat)
    ensures var s := Free(0, n + 1, true, n, map[0 := Idle]);
            Steps(Do(s, Read(0, Grab)), 0, 5) == Free(0, n + 2, true, n + 1, map[0 := Idle])
  {
  }

  lemma WriterComes()
    ensures var s := Free(0, 3, true, 0, map[0 := Idle, 1 := Idle, 2 := Idle]);
            Steps(Do(s, Write(0, GiveUp)), 0, 2) ==
            State(Lock(true, 0), 3, true, false, 0, map[0 := WIn(GiveUp), 1 := Idle, 2 := Idle])
  {
  }

  lemma WriterLeaves()
    ensures var s := State(Lock(true, 0), 3, true, false, 0, map[0 := WIn(GiveUp), 1 := Idle, 2 := Idle]);
            Steps(s, 0, 3) == Free(0, 2, false, 0, map[0 := Out, 1 := Idle, 2 := Idle])
  {
  }

  lemma ReaderLeaves()
    ensures var s := Free(0, 2, false, 0, map[0 := Out, 1 := Idle, 2 := Idle]);
            Steps(Do(s, Read(1, Leave)), 1, 4) == Free(1, 1, false, 0, map[0 := Out, 1 := RUnlock(Leave), 2 := Idle])
  {
  }

  lemma LastLeaves()
    ensures var s := Free(1, 1, false, 0, map[0 := Out, 1 := RUnlock(Leave), 2 := Idle]);
            Steps(Do(s, Read(2, Leave)), 2, 4) ==
            State(Lock(false, 2), 0, false, true, 0, map[0 := Out, 1 := RUnlock(Leave), 2 := Out])
  {
  }

  lemma BothJoin()
    ensures var s := Free(0, 3, true, 2, map[0 := Idle]);
            && Enabled(s, Join(1)) && Enabled(Do(s, Join(1)), Join(2))
            && Do(Do(s, Join(1)), Join(2)) == Free(0, 3, true, 0, map[0 := Idle, 1 := Idle, 2 := Idle])
  {
  }

  lemma Sends(s: State, actions: seq<Action>, n: nat) returns (s': State, actions': seq<Action>)
    requires Reachable(s, actions) && s == Free(0, n + 1, true, n, map[0 := Idle])
    ensures Reachable(s', actions') && s' == Free(0, n + 2, true, n + 1, map[0 := Idle])
  {
    GrabOnce(n);
    hide Reachable, Steps, Go;
    s', actions' := StartAndRun(s, actions, Read(0, Grab), 5);
  }

  /** The writer has sent two references. */
  lemma TwoSent() returns (s: State, actions: seq<Action>)
    ensures Reachable(s, actions) && s == Free(0, 3, true, 2, map[0 := Idle])
  {
    assert Reachable(NEW, []);
    hide Reachable;
    var s1, a1 := Sends(NEW, [], 0);
    s, actions := Sends(s1, a1, 1);
  }

  /** And they have come. */
  lemma TwoReaders() returns (s: State, actions: seq<Action>)
    ensures Reachable(s, actions) && s == Free(0, 3, true, 0, map[0 := Idle, 1 := Idle, 2 := Idle])
  {
    var s1, a1 := TwoSent();
    BothJoin();
    hide Reachable, Do, Enabled;
    MoreSteps(s1, a1, Join(1));
    var s2, a2 := Do(s1, Join(1)), a1 + [Join(1)];
    MoreSteps(s2, a2, Join(2));
    s, actions := Do(s2, Join(2)), a2 + [Join(2)];
  }

  /** Two readers leave, after the writer. The first one has given its reference back, and
      not unlocked, when the second one frees the object. */
  lemma LeaveRace() returns (s: State, actions: seq<Action>)
    ensures Reachable(s, actions) && s.gone && 1 in s.threads && s.threads[1] == RUnlock(Leave)
    ensures Enabled(s, Step(1)) && Do(s, Step(1)).lock != s.lock
  {
    var s1, a1 := TwoReaders();
    WriterComes();
    WriterLeaves();
    ReaderLeaves();
    LastLeaves();
    hide Reachable, Steps;
    var s2, a2 := StartAndRun(s1, a1, Write(0, GiveUp), 2);
    a2 := MoreOfOne(s2, a2, 0, 3);
    s2 := Steps(s2, 0, 3);
    var s3, a3 := StartAndRun(s2, a2, Read(1, Leave), 4);
    s, actions := StartAndRun(s3, a3, Read(2, Leave), 4);
  }
}
