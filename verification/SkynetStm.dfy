/** The copies of a shared object behind its lock: any number of threads, one atomic access
    a step. */
module SkynetStm {
  import opened SkynetRwlock

  datatype Option<T> = None | Some(value: T)

  /* ---------- the state ---------- */

  /** Why a thread wants to write: to put in a new copy, or to clear the object. */
  datatype Purpose = Install(copy: nat) | Clear

  /** Where a thread is. Addresses are numbers, and 0 is no address; `at` is the number of
      updates that there were when the copy was loaded, for the proof only. */
  datatype Pc =
    | Idle
    | RSpin
    | RAdd
    | RCheck
    | RSub
    | RLoad
    | RInc(ret: nat, at: nat)
    | RUnlock(ret: nat, at: nat)
    | RCompare(ret: nat, at: nat)
    | RMove(ret: nat, at: nat)
    | WSpin(purpose: Purpose)
    | WWait(purpose: Purpose)
    | WLocked(purpose: Purpose)
    | WStore(copy: nat, old_: nat)
    | WUnlock(old_: nat)
    | Drop(copy: nat)

  /** A thread, and the reader that it has: the copy that was read last, and the number of
      updates that there were then; none when the reader never read. */
  datatype Thread = Thread(pc: Pc, last: nat, seen: Option<nat>)

  /** A copy: its count, and the update that it was put in by, or 0. */
  datatype Copy = Copy(ref: int, version: nat)

  datatype State = State(
    lock: Lock,
    copy: nat,
    copies: map<nat, Copy>,
    threads: map<nat, Thread>,
    updates: nat,
    cleared: set<nat>)   // the updates that cleared the object; for the proof only

  /* ---------- the steps ---------- */

  function At(s: State, t: nat, pc: Pc): State
    requires t in s.threads
  {
    s.(threads := s.threads[t := s.threads[t].(pc := pc)])
  }

  function Counting(s: State, more: int): State { s.(lock := s.lock.(read := s.lock.read + more)) }

  function Flagged(s: State, write: bool): State { s.(lock := s.lock.(write := write)) }

  /** Gives a reference back: the last one frees the copy. */
  function Released(copies: map<nat, Copy>, a: nat): map<nat, Copy> {
    if a !in copies then copies
    else if copies[a].ref - 1 == 0 then copies - {a}
    else copies[a := copies[a].(ref := copies[a].ref - 1)]
  }

  function Go(s: State, t: nat): (r: State)
    requires t in s.threads
    ensures t in r.threads
  {
    var th := s.threads[t];
    match th.pc
    case Idle => s
    // the lock for reading
    case RSpin => if s.lock.write then s else At(s, t, RAdd)
    case RAdd => Counting(At(s, t, RCheck), 1)
    case RCheck => At(s, t, if s.lock.write then RSub else RLoad)
    case RSub => Counting(At(s, t, RSpin), -1)
    // the copy, and a reference to it
    case RLoad => At(s, t, if s.copy == 0 then RUnlock(0, s.updates) else RInc(s.copy, s.updates))
    case RInc(ret, at) =>
      At(s, t, RUnlock(ret, at)).(copies := if ret in s.copies then s.copies[ret := s.copies[ret].(ref := s.copies[ret].ref + 1)] else s.copies)
    case RUnlock(ret, at) => Counting(At(s, t, RCompare(ret, at)), -1)
    // the same copy as before is given back; another takes its place
    case RCompare(ret, at) =>
      if ret == th.last then s.(threads := s.threads[t := Thread(if ret == 0 then Idle else Drop(ret), th.last, Some(at))])
      else s.(copies := Released(s.copies, th.last), threads := s.threads[t := Thread(RMove(ret, at), 0, None)])
    case RMove(ret, at) =>
      s.(threads := s.threads[t := Thread(Idle, ret, Some(at))])
    case Drop(a) => At(s, t, Idle).(copies := Released(s.copies, a))
    // the lock for writing
    case WSpin(p) => if s.lock.write then s else Flagged(At(s, t, WWait(p)), true)
    case WWait(p) => if s.lock.read != 0 then s else At(s, t, WLocked(p))
    case WLocked(Install(new_)) => At(s, t, WStore(new_, s.copy))
    case WLocked(Clear) =>
      At(s, t, WUnlock(0)).(copies := Released(s.copies, s.copy), copy := 0, updates := s.updates + 1,
        cleared := s.cleared + {s.updates + 1})
    case WStore(new_, old_) =>
      At(s, t, WUnlock(old_)).(copy := new_, updates := s.updates + 1,
        copies := if new_ in s.copies then s.copies[new_ := s.copies[new_].(version := s.updates + 1)] else s.copies)
    case WUnlock(old_) => Flagged(At(s, t, if old_ == 0 then Idle else Drop(old_)), false)
  }

  datatype Action =
    | Spawn(t: nat)                // a thread with a new reader
    | StartRead(t: nat)
    | StartUpdate(t: nat, a: nat)  // the new copy is made, at any address that is free
    | StartClear(t: nat)           // the writer gives the object up
    | Delete(t: nat)               // the reader gives its copy up
    | Step(t: nat)

  predicate Enabled(s: State, a: Action) {
    match a
    case Spawn(t) => t !in s.threads
    case StartUpdate(t, addr) => t in s.threads && s.threads[t].pc == Idle && addr != 0 && addr !in s.copies
    case Step(t) => t in s.threads
    case _ => a.t in s.threads && s.threads[a.t].pc == Idle
  }

  function Do(s: State, a: Action): State
    requires Enabled(s, a)
  {
    match a
    case Spawn(t) => s.(threads := s.threads[t := Thread(Idle, 0, None)])
    case StartRead(t) => At(s, t, RSpin)
    case StartUpdate(t, addr) => At(s, t, WSpin(Install(addr))).(copies := s.copies[addr := Copy(1, 0)])
    case StartClear(t) => At(s, t, WSpin(Clear))
    case Delete(t) => s.(copies := Released(s.copies, s.threads[t].last), threads := s.threads[t := Thread(Idle, 0, None)])
    case Step(t) => Go(s, t)
  }

  /** A new object with its first copy. */
  function New(a: nat): State { State(Lock(false, 0), a, map[a := Copy(1, 1)], map[], 1, {}) }

  ghost predicate Reachable(s: State, actions: seq<Action>)
    decreases |actions|
  {
    if actions == [] then exists a: nat :: a != 0 && s == New(a)
    else
      var k := |actions| - 1;
      exists before :: Reachable(before, actions[..k]) && Enabled(before, actions[k]) && s == Do(before, actions[k])
  }

  /* ---------- the lock ---------- */

  function PhaseOf(pc: Pc): Phase {
    match pc
    case RCheck => Counted
    case RSub => Counted
    case RLoad => Reading
    case RInc(_, _) => Reading
    case RUnlock(_, _) => Reading
    case WWait(_) => Waiting
    case WLocked(_) => Writing
    case WStore(_, _) => Writing
    case WUnlock(_) => Writing
    case _ => Outside
  }

  function Phases(threads: map<nat, Thread>): map<nat, Phase> { map t | t in threads :: PhaseOf(threads[t].pc) }

  function PcOf(s: State, t: nat): Pc { if t in s.threads then s.threads[t].pc else Idle }

  /** Each step of a thread is one of the lock, or leaves it alone. */
  lemma DoMove(s: State, a: Action)
    requires Enabled(s, a)
    ensures a.t in Do(s, a).threads
    ensures Move(s.lock, PhaseOf(PcOf(s, a.t)), Do(s, a).lock, PhaseOf(Do(s, a).threads[a.t].pc))
  {
    hide Released, Go, Move, PhaseOf;
    if a.Step? {
      if OfReader(PcOf(s, a.t)) { ReaderMoves(s, a.t); } else { WriterMoves(s, a.t); }
    } else {
      StartMoves(s, a);
    }
  }

  predicate OfReader(pc: Pc) {
    pc.RSpin? || pc.RAdd? || pc.RCheck? || pc.RSub? || pc.RLoad? || pc.RInc? || pc.RUnlock? || pc.RCompare? || pc.RMove?
  }

  lemma ReaderMoves(s: State, t: nat)
    requires t in s.threads && OfReader(s.threads[t].pc)
    ensures Move(s.lock, PhaseOf(s.threads[t].pc), Go(s, t).lock, PhaseOf(Go(s, t).threads[t].pc))
  {
    hide Released;
  }

  lemma WriterMoves(s: State, t: nat)
    requires t in s.threads && !OfReader(s.threads[t].pc)
    ensures Move(s.lock, PhaseOf(s.threads[t].pc), Go(s, t).lock, PhaseOf(Go(s, t).threads[t].pc))
  {
    hide Released;
  }

  lemma StartMoves(s: State, a: Action)
    requires Enabled(s, a) && !a.Step?
    ensures a.t in Do(s, a).threads && Do(s, a).lock == s.lock
    ensures PhaseOf(PcOf(s, a.t)) == PhaseOf(Do(s, a).threads[a.t].pc) == Outside
    ensures Move(s.lock, PhaseOf(PcOf(s, a.t)), Do(s, a).lock, PhaseOf(Do(s, a).threads[a.t].pc))
  {
    hide Released;
  }

  lemma StmLockKept(s: State, a: Action)
    requires LockOk(s.lock, Phases(s.threads)) && Enabled(s, a)
    ensures LockOk(Do(s, a).lock, Phases(Do(s, a).threads))
  {
    hide Do, PhaseOf, Move, LockOk;
    var s', t := Do(s, a), a.t;
    DoMove(s, a);
    DoShape(s, a);
    assert PhaseOf(Idle) == Outside by { IdleOutside(); }
    LockKept(s.lock, Phases(s.threads), t, s'.lock, PhaseOf(s'.threads[t].pc));
    assert Phases(s'.threads) == Phases(s.threads)[t := PhaseOf(s'.threads[t].pc)];
  }

  lemma IdleOutside()
    ensures PhaseOf(Idle) == Outside
  {
  }

  /* ---------- the counts of the copies ---------- */

  function HandOf(pc: Pc): nat {
    match pc
    case RUnlock(ret, _) => ret
    case RCompare(ret, _) => ret
    case RMove(ret, _) => ret
    case Drop(a) => a
    case WSpin(Install(new_)) => new_
    case WWait(Install(new_)) => new_
    case WLocked(Install(new_)) => new_
    case WStore(new_, _) => new_
    case WUnlock(old_) => old_
    case _ => 0
  }

  function LastOf(s: State, t: nat): nat { if t in s.threads then s.threads[t].last else 0 }

  /** Who refers to a copy: the object, the threads that read it last, and the threads that
      have it in hand. */
  function LastSet(threads: map<nat, Thread>, a: nat): set<nat> { set t | t in threads && threads[t].last == a }

  function HandSet(threads: map<nat, Thread>, a: nat): set<nat> { set t | t in threads && HandOf(threads[t].pc) == a }

  function Holders(s: State, a: nat): int {
    (if s.copy == a then 1 else 0) + |LastSet(s.threads, a)| + |HandSet(s.threads, a)|
  }

  /** Of these, the object and one thread. */
  function Count(s: State, t: nat, a: nat): int {
    (if s.copy == a then 1 else 0) + (if LastOf(s, t) == a then 1 else 0) + (if HandOf(PcOf(s, t)) == a then 1 else 0)
  }

  lemma LastStep(threads: map<nat, Thread>, t: nat, th: Thread, a: nat)
    ensures LastSet(threads[t := th], a) == if th.last == a then LastSet(threads, a) + {t} else LastSet(threads, a) - {t}
    ensures HandSet(threads[t := th], a) == if HandOf(th.pc) == a then HandSet(threads, a) + {t} else HandSet(threads, a) - {t}
  {
    hide HandOf;
  }

  lemma HoldersStep(s: State, s': State, t: nat, a: nat)
    requires a != 0 && t in s'.threads && s'.threads == s.threads[t := s'.threads[t]]
    ensures Holders(s', a) == Holders(s, a) + Count(s', t, a) - Count(s, t, a)
  {
    LastStep(s.threads, t, s'.threads[t], a);
    assert HandOf(Idle) == 0;
    hide HandOf;
    assert t in LastSet(s.threads, a) <==> LastOf(s, t) == a;
    assert t in HandSet(s.threads, a) <==> HandOf(PcOf(s, t)) == a;
  }

  /** The count of a copy, or 0 when it is free. */
  function Ref(s: State, a: nat): int { if a in s.copies then s.copies[a].ref else 0 }

  ghost predicate RefsOk(s: State) {
    && 0 !in s.copies
    && (forall a :: a in s.copies ==> s.copies[a].ref > 0)
    && (forall a: nat :: a != 0 ==> Ref(s, a) == Holders(s, a))
  }

  /** A step of a thread changes the counts as it changes the references. */
  ghost predicate RefsStep(s: State, s': State, t: nat) {
    && t in s'.threads && s'.threads == s.threads[t := s'.threads[t]]
    && 0 !in s'.copies
    && (forall a :: a in s'.copies ==> s'.copies[a].ref > 0)
    && (forall a: nat :: a != 0 ==> Ref(s', a) == Ref(s, a) + Count(s', t, a) - Count(s, t, a))
  }

  lemma RefsKept(s: State, s': State, t: nat)
    requires RefsOk(s) && RefsStep(s, s', t)
    ensures RefsOk(s')
  {
    hide Ref, Count, Holders;
    forall a: nat | a != 0 ensures Ref(s', a) == Holders(s', a) {
      HoldersStep(s, s', t, a);
    }
  }

  /** What a thread knows about the copies. */
  ghost predicate ThreadOk(s: State, t: nat)
    requires t in s.threads
  {
    var th := s.threads[t];
    && (if th.last == 0 then th.seen.Some? ==> th.seen.value in s.cleared
        else th.last in s.copies && s.copies[th.last].version > 0 && th.seen == Some(s.copies[th.last].version))
    && (HandOf(th.pc) != 0 ==> HandOf(th.pc) in s.copies)
    && match th.pc
       case RInc(ret, at) => ret != 0 && ret == s.copy && at == s.updates
       case RUnlock(ret, at) => if ret == 0 then at in s.cleared else s.copies[ret].version == at > 0
       case RCompare(ret, at) => if ret == 0 then at in s.cleared else s.copies[ret].version == at > 0
       case RMove(ret, at) => th.last == 0 && if ret == 0 then at in s.cleared else s.copies[ret].version == at > 0
       case Drop(a) => a != 0 && s.copies[a].version > 0
       case WSpin(Install(new_)) => new_ != 0 && s.copies[new_].version == 0
       case WWait(Install(new_)) => new_ != 0 && s.copies[new_].version == 0
       case WLocked(Install(new_)) => new_ != 0 && s.copies[new_].version == 0
       case WStore(new_, old_) => new_ != 0 && s.copies[new_].version == 0 && old_ == s.copy
       case WUnlock(old_) => old_ != 0 ==> s.copies[old_].version > 0
       case _ => true
  }

  ghost predicate VersionsOk(s: State) {
    && (s.copy != 0 ==> s.copy in s.copies && s.copies[s.copy].version == s.updates > 0)
    && (forall a :: a in s.copies ==> s.copies[a].version <= s.updates && (s.copies[a].version == 0 ==> s.copies[a].ref == 1))
    && (forall a, b :: a in s.copies && b in s.copies && a != b && s.copies[a].version > 0 ==>
          s.copies[a].version != s.copies[b].version)
    && (s.copy == 0 ==> s.updates in s.cleared)
    && (forall k :: k in s.cleared ==> 0 < k <= s.updates)
    && (forall a :: a in s.copies ==> s.copies[a].version !in s.cleared)
  }

  ghost predicate Inv(s: State) {
    LockOk(s.lock, Phases(s.threads)) && RefsOk(s) && VersionsOk(s) && forall t :: t in s.threads ==> ThreadOk(s, t)
  }

  /** A holder is counted. */
  lemma HolderCounted(s: State, t: nat, a: nat)
    requires RefsOk(s) && a != 0
    ensures Ref(s, a) >= Count(s, t, a)
  {
    assert HandOf(Idle) == 0;
    hide HandOf, Ref;
    assert LastOf(s, t) == a ==> t in LastSet(s.threads, a);
    assert HandOf(PcOf(s, t)) == a ==> t in HandSet(s.threads, a);
    assert Ref(s, a) == Holders(s, a);
  }

  lemma CountedTwo(s: State, t: nat, u: nat, a: nat)
    requires RefsOk(s) && a != 0 && t != u && t in s.threads && u in s.threads
    requires HandOf(s.threads[t].pc) == a && HandOf(s.threads[u].pc) == a
    ensures Ref(s, a) >= 2
  {
    hide HandOf, Ref;
    var h := HandSet(s.threads, a);
    assert {t, u} <= h && |{t, u}| == 2;
    assert h == {t, u} + (h - {t, u});
    assert Ref(s, a) == Holders(s, a);
  }

  /** The copy that a step gives back, takes, or makes. */
  function Given(s: State, a: Action): nat {
    match a
    case Delete(t) => LastOf(s, t)
    case Step(t) =>
      (match PcOf(s, t)
       case RCompare(ret, _) => if ret != LastOf(s, t) then LastOf(s, t) else 0
       case Drop(c) => c
       case WLocked(Clear) => s.copy
       case _ => 0)
    case _ => 0
  }

  function Taken(s: State, a: Action): nat {
    match a
    case StartUpdate(_, addr) => addr
    case Step(t) => if PcOf(s, t).RInc? then PcOf(s, t).ret else 0
    case _ => 0
  }

  lemma DoRef(s: State, a: Action, c: nat)
    requires Enabled(s, a) && c != 0
    requires Given(s, a) != 0 ==> Given(s, a) in s.copies
    requires Taken(s, a) != 0 && !a.StartUpdate? ==> Taken(s, a) in s.copies
    ensures Ref(Do(s, a), c) == Ref(s, c) + (if Taken(s, a) == c then 1 else 0) - (if Given(s, a) == c then 1 else 0)
    ensures c in Do(s, a).copies && (c in s.copies ==> s.copies[c].ref > 0) ==> Do(s, a).copies[c].ref > 0
  {
  }

  ghost predicate CountStepOk(s: State, a: Action, c: nat)
    requires Enabled(s, a)
  {
    Count(Do(s, a), a.t, c) == Count(s, a.t, c) + (if Taken(s, a) == c then 1 else 0) - (if Given(s, a) == c then 1 else 0)
  }

  lemma StartCount(s: State, a: Action, c: nat)
    requires Enabled(s, a) && c != 0 && !a.Step?
    requires a.t in s.threads ==> ThreadOk(s, a.t)
    ensures CountStepOk(s, a, c)
  {
  }

  lemma ReaderCount(s: State, t: nat, c: nat)
    requires c != 0 && t in s.threads && ThreadOk(s, t)
    requires var pc := s.threads[t].pc; pc.RInc? || pc.RUnlock? || pc.RCompare? || pc.RMove? || pc.Drop?
    ensures CountStepOk(s, Step(t), c)
  {
  }

  lemma OtherCount(s: State, t: nat, c: nat)
    requires c != 0 && t in s.threads && ThreadOk(s, t)
    requires var pc := s.threads[t].pc; !(pc.RInc? || pc.RUnlock? || pc.RCompare? || pc.RMove? || pc.Drop?)
    ensures CountStepOk(s, Step(t), c)
  {
  }

  lemma DoCount(s: State, a: Action, c: nat)
    requires Enabled(s, a) && c != 0
    requires a.t in s.threads ==> ThreadOk(s, a.t)
    ensures CountStepOk(s, a, c)
  {
    if !a.Step? {
      StartCount(s, a, c);
    } else {
      var pc := s.threads[a.t].pc;
      if pc.RInc? || pc.RUnlock? || pc.RCompare? || pc.RMove? || pc.Drop? {
        ReaderCount(s, a.t, c);
      } else {
        OtherCount(s, a.t, c);
      }
    }
  }

  lemma DoShape(s: State, a: Action)
    requires Enabled(s, a)
    ensures var s' := Do(s, a); a.t in s'.threads && s'.threads == s.threads[a.t := s'.threads[a.t]]
  {
    var s' := Do(s, a);
    assert a.t in s'.threads && s'.threads.Keys == s.threads.Keys + {a.t};
    forall u | u in s'.threads && u != a.t ensures s'.threads[u] == s.threads[u] { }
  }

  lemma DoZero(s: State, a: Action)
    requires Enabled(s, a) && 0 !in s.copies
    ensures 0 !in Do(s, a).copies
  {
  }

  lemma GivenThere(s: State, a: Action)
    requires Enabled(s, a) && (a.t in s.threads ==> ThreadOk(s, a.t)) && (s.copy != 0 ==> s.copy in s.copies)
    ensures Given(s, a) != 0 ==> Given(s, a) in s.copies
    ensures Taken(s, a) != 0 && !a.StartUpdate? ==> Taken(s, a) in s.copies
  {
  }

  lemma DoRefs(s: State, a: Action)
    requires Enabled(s, a) && 0 !in s.copies && (forall c :: c in s.copies ==> s.copies[c].ref > 0)
    requires a.t in s.threads ==> ThreadOk(s, a.t)
    requires s.copy != 0 ==> s.copy in s.copies
    ensures RefsStep(s, Do(s, a), a.t)
  {
    var s' := Do(s, a);
    DoShape(s, a);
    DoZero(s, a);
    GivenThere(s, a);
    forall c: nat | c != 0 ensures Ref(s', c) == Ref(s, c) + Count(s', a.t, c) - Count(s, a.t, c) {
      DoRef(s, a, c);
      DoCount(s, a, c);
    }
    forall c | c in s'.copies ensures s'.copies[c].ref > 0 { DoRef(s, a, c); }
  }

  /** Only the thread that puts a copy in, or clears the object, changes what the object has. */
  lemma DoCopy(s: State, a: Action)
    requires Enabled(s, a)
    ensures var pc, s' := PcOf(s, a.t), Do(s, a);
            if a.Step? && pc.WStore? then s'.copy == pc.copy && s'.updates == s.updates + 1 && s'.cleared == s.cleared
            else if a.Step? && pc == WLocked(Clear) then
              s'.copy == 0 && s'.updates == s.updates + 1 && s'.cleared == s.cleared + {s.updates + 1}
            else s'.copy == s.copy && s'.updates == s.updates && s'.cleared == s.cleared
  {
  }

  /** Versions: a copy keeps its own, except the one that is put in; and a new one has none. */
  lemma DoVersion(s: State, a: Action, c: nat)
    requires Enabled(s, a) && c in Do(s, a).copies
    ensures if a.StartUpdate? && c == a.a then c !in s.copies && Do(s, a).copies[c] == Copy(1, 0)
            else c in s.copies && Do(s, a).copies[c].version ==
                 if a.Step? && PcOf(s, a.t).WStore? && PcOf(s, a.t).copy == c then s.updates + 1 else s.copies[c].version
  {
  }

  /** A copy that is being put in is in no other hand, and was never read. */
  lemma NewAlone(s: State, t: nat, u: nat, c: nat)
    requires Inv(s) && t in s.threads && s.threads[t].pc.WStore? && s.threads[t].pc.copy == c
    requires u in s.threads && u != t
    ensures HandOf(s.threads[u].pc) != c && s.threads[u].last != c && c in s.copies && s.copies[c].version == 0
  {
    hide LockOk, RefsOk;
    assert ThreadOk(s, t) && ThreadOk(s, u);
    if HandOf(s.threads[u].pc) == c { CountedTwo(s, t, u, c); }
  }

  lemma OtherKept(s: State, a: Action, u: nat)
    requires Inv(s) && Enabled(s, a) && RefsOk(Do(s, a)) && u in s.threads && u != a.t
    ensures u in Do(s, a).threads && ThreadOk(Do(s, a), u)
  {
    hide Do, Enabled, LockOk, RefsOk, VersionsOk, Count, Holders;
    var s', th := Do(s, a), s.threads[u];
    DoShape(s, a);
    DoCopy(s, a);
    assert ThreadOk(s, u);
    if a.Step? && PcOf(s, a.t).WStore? { NewAlone(s, a.t, u, PcOf(s, a.t).copy); }
    if th.last != 0 {
      CountedHere(s', u, th.last);
      DoVersion(s, a, th.last);
    }
    if HandOf(th.pc) != 0 {
      CountedHere(s', u, HandOf(th.pc));
      DoVersion(s, a, HandOf(th.pc));
    }
    if th.pc.RInc? || th.pc.WStore? { Undisturbed(s, a, u); }
  }

  /** What a thread refers to is there. */
  lemma CountedHere(s: State, t: nat, c: nat)
    requires RefsOk(s) && c != 0 && t in s.threads && (s.threads[t].last == c || HandOf(s.threads[t].pc) == c)
    ensures c in s.copies
  {
    HolderCounted(s, t, c);
  }

  /** Inside the lock nobody else changes what the object has. */
  lemma Undisturbed(s: State, a: Action, u: nat)
    requires LockOk(s.lock, Phases(s.threads)) && Enabled(s, a) && u in s.threads && u != a.t && (s.threads[u].pc.RInc? || s.threads[u].pc.WStore?)
    ensures !(a.Step? && (PcOf(s, a.t).WStore? || PcOf(s, a.t) == WLocked(Clear)))
  {
    if a.Step? { assert Phases(s.threads)[u] == PhaseOf(s.threads[u].pc) && Phases(s.threads)[a.t] == PhaseOf(s.threads[a.t].pc); }
    hide Do, Enabled;
  }

  /** The thread that moves: what it refers to after the step is there, and keeps its version. */
  ghost predicate OwnThere(s: State, a: Action)
    requires Enabled(s, a)
  {
    var s' := Do(s, a);
    a.t in s'.threads && (a.t in s.threads ==> ThreadOk(s, a.t)) &&
    forall c :: c != 0 && (s'.threads[a.t].last == c || HandOf(s'.threads[a.t].pc) == c) ==> c in s'.copies
  }

  lemma OwnRefers(s: State, a: Action)
    requires Inv(s) && Enabled(s, a) && RefsOk(Do(s, a))
    ensures OwnThere(s, a) && VersionsOk(s) && a.t in Do(s, a).threads
  {
    DoShape(s, a);
    var s' := Do(s, a);
    forall c | c != 0 && (s'.threads[a.t].last == c || HandOf(s'.threads[a.t].pc) == c) ensures c in s'.copies {
      CountedHere(s', a.t, c);
    }
  }

  lemma OwnStarts(s: State, a: Action)
    requires Enabled(s, a) && OwnThere(s, a) && !a.Step?
    ensures ThreadOk(Do(s, a), a.t)
  {
  }

  lemma OwnReads(s: State, t: nat)
    requires Enabled(s, Step(t)) && OwnThere(s, Step(t)) && VersionsOk(s)
    requires var pc := s.threads[t].pc; pc.Idle? || pc.RSpin? || pc.RAdd? || pc.RCheck? || pc.RSub? || pc.RLoad? || pc.RInc? || pc.RUnlock?
    ensures ThreadOk(Do(s, Step(t)), t)
  {
  }

  lemma OwnCompares(s: State, t: nat)
    requires Enabled(s, Step(t)) && OwnThere(s, Step(t)) && VersionsOk(s) && s.threads[t].pc.RCompare?
    ensures ThreadOk(Do(s, Step(t)), t)
  {
  }

  lemma OwnMoves(s: State, t: nat)
    requires Enabled(s, Step(t)) && OwnThere(s, Step(t)) && VersionsOk(s)
    requires s.threads[t].pc.RMove? || s.threads[t].pc.Drop?
    ensures ThreadOk(Do(s, Step(t)), t)
  {
  }

  lemma OwnWrites(s: State, t: nat)
    requires Enabled(s, Step(t)) && OwnThere(s, Step(t)) && VersionsOk(s)
    requires var pc := s.threads[t].pc; pc.WSpin? || pc.WWait? || pc.WUnlock?
    ensures ThreadOk(Do(s, Step(t)), t)
  {
  }

  /** A thread whose next step keeps the reader that it has, and the versions of the copies
      that the thread refers to. */
  lemma LastKept(s: State, t: nat)
    requires Enabled(s, Step(t)) && OwnThere(s, Step(t)) && (s.threads[t].pc.WLocked? || s.threads[t].pc.WStore?)
    ensures var th, s' := s.threads[t], Do(s, Step(t));
            && s'.threads[t] == th.(pc := s'.threads[t].pc)
            && (th.last != 0 ==>
                  s'.copies[th.last].version ==
                  if th.pc.WStore? && th.pc.copy == th.last then s.updates + 1 else s.copies[th.last].version)
            && s.cleared <= s'.cleared
  {
    hide Released;
    if s.threads[t].last != 0 { DoVersion(s, Step(t), s.threads[t].last); }
  }

  lemma OwnStores(s: State, t: nat)
    requires Enabled(s, Step(t)) && OwnThere(s, Step(t)) && VersionsOk(s) && s.threads[t].pc.WStore?
    ensures ThreadOk(Do(s, Step(t)), t)
  {
    var s', th := Do(s, Step(t)), s.threads[t];
    assert s'.threads[t].pc == WUnlock(th.pc.old_);
    LastKept(s, t);
    if th.pc.old_ != 0 { DoVersion(s, Step(t), th.pc.old_); }
    hide Do, Enabled;
  }

  lemma OwnInstalls(s: State, t: nat)
    requires Enabled(s, Step(t)) && OwnThere(s, Step(t)) && VersionsOk(s)
    requires s.threads[t].pc.WLocked? && s.threads[t].pc.purpose.Install?
    ensures ThreadOk(Do(s, Step(t)), t)
  {
    var s', th := Do(s, Step(t)), s.threads[t];
    assert s'.threads[t].pc == WStore(th.pc.purpose.copy, s.copy) && s'.copy == s.copy;
    LastKept(s, t);
    DoVersion(s, Step(t), th.pc.purpose.copy);
    hide Do, Enabled;
  }

  lemma OwnClears(s: State, t: nat)
    requires Enabled(s, Step(t)) && OwnThere(s, Step(t)) && VersionsOk(s) && s.threads[t].pc == WLocked(Clear)
    ensures ThreadOk(Do(s, Step(t)), t)
  {
    assert Do(s, Step(t)).threads[t].pc == WUnlock(0);
    LastKept(s, t);
    hide Do, Enabled;
  }

  lemma OwnKept(s: State, a: Action)
    requires Inv(s) && Enabled(s, a) && RefsOk(Do(s, a))
    ensures a.t in Do(s, a).threads && ThreadOk(Do(s, a), a.t)
  {
    hide Do, Inv, ThreadOk, VersionsOk, RefsOk, OwnThere;
    OwnRefers(s, a);
    if !a.Step? {
      OwnStarts(s, a);
    } else {
      var pc := s.threads[a.t].pc;
      if pc.RCompare? {
        OwnCompares(s, a.t);
      } else if pc.RMove? || pc.Drop? {
        OwnMoves(s, a.t);
      } else if pc.WSpin? || pc.WWait? || pc.WUnlock? {
        OwnWrites(s, a.t);
      } else if pc.WStore? {
        OwnStores(s, a.t);
      } else if pc == WLocked(Clear) {
        OwnClears(s, a.t);
      } else if pc.WLocked? {
        OwnInstalls(s, a.t);
      } else {
        OwnReads(s, a.t);
      }
    }
  }

  /** Copies keep different versions, and the copy of the object is the latest. */
  lemma VersionsKept(s: State, a: Action)
    requires Inv(s) && Enabled(s, a) && RefsOk(Do(s, a))
    ensures VersionsOk(Do(s, a))
  {
    var s', t := Do(s, a), a.t;
    DoCopy(s, a);
    assert t in s.threads ==> ThreadOk(s, t);
    forall c | c in s'.copies
      ensures s'.copies[c].version <= s'.updates && (s'.copies[c].version == 0 ==> s'.copies[c].ref == 1)
    {
      DoVersion(s, a, c);
      if s'.copies[c].version == 0 { OneHolder(s, a, c); }
    }
    ClearedKept(s, a);
    forall c, d | c in s'.copies && d in s'.copies && c != d && s'.copies[c].version > 0
      ensures s'.copies[c].version != s'.copies[d].version
    {
      DoVersion(s, a, c);
      DoVersion(s, a, d);
    }
    if s'.copy != 0 {
      ObjectThere(s', s'.copy);
      DoVersion(s, a, s'.copy);
      Latest(s, a);
    }
  }

  /** No copy has the number of an update that cleared the object. */
  lemma ClearedKept(s: State, a: Action)
    requires Enabled(s, a) && (a.t in s.threads ==> ThreadOk(s, a.t)) && VersionsOk(s)
    ensures var s' := Do(s, a);
            && (s'.copy == 0 ==> s'.updates in s'.cleared)
            && (forall k :: k in s'.cleared ==> 0 < k <= s'.updates)
            && (forall c :: c in s'.copies ==> s'.copies[c].version !in s'.cleared)
  {
    var s' := Do(s, a);
    DoCopy(s, a);
    StoredThere(s, a);
    forall c | c in s'.copies ensures s'.copies[c].version !in s'.cleared { DoVersion(s, a, c); }
  }

  lemma StoredThere(s: State, a: Action)
    requires Enabled(s, a) && (a.t in s.threads ==> ThreadOk(s, a.t))
    ensures a.Step? && PcOf(s, a.t).WStore? ==> PcOf(s, a.t).copy != 0
  {
  }

  lemma ObjectThere(s: State, c: nat)
    requires RefsOk(s) && s.copy == c != 0
    ensures c in s.copies
  {
    assert Ref(s, c) == Holders(s, c);
  }

  /** A copy that is not put in yet has the count that it was made with. */
  lemma OneHolder(s: State, a: Action, c: nat)
    requires Inv(s) && Enabled(s, a) && c in Do(s, a).copies && Do(s, a).copies[c].version == 0
    ensures Do(s, a).copies[c].ref == 1
  {
    DoZero(s, a);
    assert a.t in s.threads ==> ThreadOk(s, a.t);
    DoVersion(s, a, c);
    GivenThere(s, a);
    GivenRead(s, a);
    DoRef(s, a, c);
  }

  /** What is given back, or taken from the object, has been put in. */
  lemma GivenRead(s: State, a: Action)
    requires Enabled(s, a) && (a.t in s.threads ==> ThreadOk(s, a.t)) && VersionsOk(s)
    ensures Given(s, a) != 0 ==> Given(s, a) in s.copies && s.copies[Given(s, a)].version > 0
    ensures Taken(s, a) != 0 && !a.StartUpdate? ==> Taken(s, a) in s.copies && s.copies[Taken(s, a)].version > 0
  {
  }

  lemma Latest(s: State, a: Action)
    requires Inv(s) && Enabled(s, a) && Do(s, a).copy != 0
    ensures Do(s, a).updates > 0
    ensures a.Step? && PcOf(s, a.t).WStore? ==> Do(s, a).copy == PcOf(s, a.t).copy
    ensures !(a.Step? && PcOf(s, a.t).WStore?) ==> Do(s, a).copy == s.copy && Do(s, a).updates == s.updates
  {
    hide LockOk, RefsOk;
    DoCopy(s, a);
  }

  lemma InvKept(s: State, a: Action)
    requires Inv(s) && Enabled(s, a)
    ensures Inv(Do(s, a))
  {
    StmLockKept(s, a);
    assert RefsOk(Do(s, a)) by {
      DoRefs(s, a);
      RefsKept(s, Do(s, a), a.t);
    }
    VersionsKept(s, a);
    DoShape(s, a);
    forall u | u in Do(s, a).threads ensures ThreadOk(Do(s, a), u) {
      if u == a.t { OwnKept(s, a); } else { OtherKept(s, a, u); }
    }
  }

  lemma NewInv(a: nat)
    requires a != 0
    ensures Inv(New(a))
  {
    var s := New(a);
    forall c: nat | c != 0 ensures Ref(s, c) == Holders(s, c) {
      assert LastSet(s.threads, c) == {} && HandSet(s.threads, c) == {};
    }
  }

  lemma {:induction false} InvReachable(s: State, actions: seq<Action>)
    requires Reachable(s, actions)
    ensures Inv(s)
    decreases |actions|
  {
    hide Inv, Do, Enabled;
    if actions == [] {
      var a: nat :| a != 0 && s == New(a);
      NewInv(a);
    } else {
      var k := |actions| - 1;
      var before :| Reachable(before, actions[..k]) && Enabled(before, actions[k]) && s == Do(before, actions[k]);
      InvReachable(before, actions[..k]);
      InvKept(before, actions[k]);
    }
  }

  /* ---------- what the invariant means ---------- */

  /** A writer past its wait loop excludes every reader and every other writer. */
  lemma WriterAlone(s: State, actions: seq<Action>, t: nat, u: nat)
    requires Reachable(s, actions) && t in s.threads && u in s.threads && t != u && PhaseOf(s.threads[t].pc) == Writing
    ensures PhaseOf(s.threads[u].pc) != Reading && PhaseOf(s.threads[u].pc) != Writing
  {
    hide Reachable, RefsOk, VersionsOk, ThreadOk;
    InvReachable(s, actions);
    assert Phases(s.threads)[t] == Writing && Phases(s.threads)[u] == PhaseOf(s.threads[u].pc);
  }

  /** The count of a copy is its holders; what is free has none. */
  lemma CountIsHolders(s: State, actions: seq<Action>, a: nat)
    requires Reachable(s, actions) && a != 0
    ensures a in s.copies ==> s.copies[a].ref == Holders(s, a) > 0
    ensures a !in s.copies ==> Holders(s, a) == 0
  {
    hide Reachable, LockOk, VersionsOk, ThreadOk, Holders;
    InvReachable(s, actions);
    assert Ref(s, a) == Holders(s, a);
  }

  /** A copy is freed by the step that gives its last reference back, and by no other. */
  lemma FreedByLast(s: State, actions: seq<Action>, a: Action, c: nat)
    requires Reachable(s, actions) && Enabled(s, a) && c in s.copies
    ensures c !in Do(s, a).copies <==> Given(s, a) == c && Holders(s, c) == 1
  {
    InvReachable(s, actions);
    assert c != 0;
    CountIsHolders(s, actions, c);
    DoFree(s, a, c);
  }

  lemma DoFree(s: State, a: Action, c: nat)
    requires Enabled(s, a) && c in s.copies && s.copies[c].ref > 0 && c != 0
    ensures c !in Do(s, a).copies <==> Given(s, a) == c && s.copies[c].ref == 1
  {
  }

  /** Whoever takes a reference finds the copy there, with a count above zero. */
  lemma TakenIsThere(s: State, actions: seq<Action>, t: nat)
    requires Reachable(s, actions) && t in s.threads && s.threads[t].pc.RInc?
    ensures var ret := s.threads[t].pc.ret;
            ret == s.copy && ret in s.copies && s.copies[ret].ref > 0 && s.threads[t].pc.at == s.updates
  {
    hide Reachable, LockOk;
    InvReachable(s, actions);
    assert ThreadOk(s, t);
  }

  /** What a read says: `true` for a change, when it has a copy other than the last one. */
  predicate SaysChange(th: Thread)
    requires th.pc.RCompare?
  {
    th.pc.ret != th.last && th.pc.ret != 0
  }

  /** A read says that there is no change exactly when there was no update between the last
      load and this one, or when the object is cleared. Addresses are used again, but the
      copy that a reader holds keeps its address taken. */
  lemma NoChange(s: State, actions: seq<Action>, t: nat)
    requires Reachable(s, actions) && t in s.threads && s.threads[t].pc.RCompare?
    ensures var th := s.threads[t];
            && (!SaysChange(th) <==> th.seen == Some(th.pc.at) || th.pc.ret == 0)
            && (th.pc.ret == 0 <==> th.pc.at in s.cleared)
            && (th.pc.ret != 0 ==> th.pc.ret in s.copies && s.copies[th.pc.ret].version == th.pc.at)
  {
    hide Reachable, LockOk, RefsOk;
    InvReachable(s, actions);
    assert ThreadOk(s, t);
  }

  /* ---------- an update that is not noticed ---------- */

  lemma MoreSteps(s: State, actions: seq<Action>, a: Action)
    requires Reachable(s, actions) && Enabled(s, a)
    ensures Reachable(Do(s, a), actions + [a])
  {
    assert (actions + [a])[..|actions|] == actions;
  }

  /** `n` steps of a thread. */
  function Steps(s: State, t: nat, n: nat): State
    requires t in s.threads
    decreases n
  {
    if n == 0 then s else Steps(Go(s, t), t, n - 1)
  }

  lemma {:induction false} MoreOfOne(s: State, actions: seq<Action>, t: nat, n: nat) returns (actions': seq<Action>)
    requires Reachable(s, actions) && t in s.threads
    ensures Reachable(Steps(s, t, n), actions')
    decreases n
  {
    hide Go, Reachable;
    actions' := actions;
    if n > 0 {
      MoreSteps(s, actions, Step(t));
      actions' := MoreOfOne(Go(s, t), actions + [Step(t)], t, n - 1);
    }
  }

  /** A state in which no writer has the lock. */
  function Unlocked(read: int, copy: nat, copies: map<nat, Copy>, reader: Thread, writer: Thread, updates: nat,
                    cleared: set<nat>): State
  {
    State(Lock(false, read), copy, copies, map[0 := reader, 1 := writer], updates, cleared)
  }

  function Locked(copy: nat, copies: map<nat, Copy>, reader: Thread, writer: Thread, updates: nat): State {
    State(Lock(true, 0), copy, copies, map[0 := reader, 1 := writer], updates, {})
  }

  const NO_READER: Thread := Thread(Idle, 0, None)
  const HAS_READ: Thread := Thread(Idle, 1, Some(1))

  lemma TwoThreads()
    ensures Do(Do(New(1), Spawn(0)), Spawn(1)) == Unlocked(0, 1, map[1 := Copy(1, 1)], NO_READER, NO_READER, 1, {})
  {
  }

  lemma FirstReadBegins()
    ensures var s := Unlocked(0, 1, map[1 := Copy(1, 1)], NO_READER, NO_READER, 1, {});
            Steps(Do(s, StartRead(0)), 0, 4) ==
            Unlocked(1, 1, map[1 := Copy(1, 1)], Thread(RInc(1, 1), 0, None), NO_READER, 1, {})
  {
  }

  lemma FirstReadEnds()
    ensures var s := Unlocked(1, 1, map[1 := Copy(1, 1)], Thread(RInc(1, 1), 0, None), NO_READER, 1, {});
            Steps(s, 0, 4) == Unlocked(0, 1, map[1 := Copy(2, 1)], HAS_READ, NO_READER, 1, {})
  {
  }

  lemma UpdateBegins()
    ensures var s := Unlocked(0, 1, map[1 := Copy(2, 1)], HAS_READ, NO_READER, 1, {});
            Enabled(s, StartUpdate(1, 2)) && Steps(Do(s, StartUpdate(1, 2)), 1, 3) ==
            Locked(1, map[1 := Copy(2, 1), 2 := Copy(1, 0)], HAS_READ, Thread(WStore(2, 1), 0, None), 1)
  {
  }

  lemma UpdateEnds()
    ensures var s := Locked(1, map[1 := Copy(2, 1), 2 := Copy(1, 0)], HAS_READ, Thread(WStore(2, 1), 0, None), 1);
            Steps(s, 1, 3) == Unlocked(0, 2, map[1 := Copy(1, 1), 2 := Copy(1, 2)], HAS_READ, NO_READER, 2, {})
  {
  }

  lemma ClearBegins()
    ensures var s := Unlocked(0, 2, map[1 := Copy(1, 1), 2 := Copy(1, 2)], HAS_READ, NO_READER, 2, {});
            Steps(Do(s, StartClear(1)), 1, 2) ==
            Locked(2, map[1 := Copy(1, 1), 2 := Copy(1, 2)], HAS_READ, Thread(WLocked(Clear), 0, None), 2)
  {
  }

  lemma ClearEnds()
    ensures var s := Locked(2, map[1 := Copy(1, 1), 2 := Copy(1, 2)], HAS_READ, Thread(WLocked(Clear), 0, None), 2);
            Steps(s, 1, 2) == Unlocked(0, 0, map[1 := Copy(1, 1)], HAS_READ, NO_READER, 3, {3})
  {
    var copies := map[1 := Copy(1, 1), 2 := Copy(1, 2)];
    assert copies - {2} == map[1 := Copy(1, 1)];
  }

  lemma SecondRead()
    ensures var s := Unlocked(0, 0, map[1 := Copy(1, 1)], HAS_READ, NO_READER, 3, {3});
            Steps(Do(s, StartRead(0)), 0, 5) ==
            Unlocked(0, 0, map[1 := Copy(1, 1)], Thread(RCompare(0, 3), 1, Some(1)), NO_READER, 3, {3})
  {
  }

  /** A reader that has the first copy misses an update when the object is cleared before
      it reads again: it is told that there was no change. */
  lemma Unnoticed() returns (s: State, actions: seq<Action>)
    ensures Reachable(s, actions) && 0 in s.threads && s.threads[0].pc.RCompare?
    ensures s.threads[0].seen == Some(1) && s.updates == 3 && s.cleared == {3} && !SaysChange(s.threads[0])
  {
    assert Reachable(New(1), []);
    hide Reachable, Steps, Go;
    var s1 := Do(New(1), Spawn(0));
    MoreSteps(New(1), [], Spawn(0));
    var s2, a2 := Do(s1, Spawn(1)), [] + [Spawn(0)] + [Spawn(1)];
    MoreSteps(s1, [] + [Spawn(0)], Spawn(1));
    TwoThreads();
    FirstReadBegins();
    FirstReadEnds();
    var s3, a3 := StartAndRun(s2, a2, StartRead(0), 4);
    var a4 := MoreOfOne(s3, a3, 0, 4);
    var s4 := Steps(s3, 0, 4);
    UpdateBegins();
    UpdateEnds();
    var s5, a5 := StartAndRun(s4, a4, StartUpdate(1, 2), 3);
    var a6 := MoreOfOne(s5, a5, 1, 3);
    var s6 := Steps(s5, 1, 3);
    ClearBegins();
    ClearEnds();
    var s7, a7 := StartAndRun(s6, a6, StartClear(1), 2);
    var a8 := MoreOfOne(s7, a7, 1, 2);
    var s8 := Steps(s7, 1, 2);
    SecondRead();
    s, actions := StartAndRun(s8, a8, StartRead(0), 5);
  }

  lemma StartAndRun(s: State, actions: seq<Action>, a: Action, n: nat) returns (s': State, actions': seq<Action>)
    requires Reachable(s, actions) && Enabled(s, a)
    ensures a.t in Do(s, a).threads && s' == Steps(Do(s, a), a.t, n) && Reachable(s', actions')
  {
    DoShape(s, a);
    MoreSteps(s, actions, a);
    hide Reachable, Do, Steps;
    s' := Steps(Do(s, a), a.t, n);
    actions' := MoreOfOne(Do(s, a), actions + [a], a.t, n);
  }
}
