/** The reader/writer lock of two counters, for any number of threads, one atomic access
    a step. */
module SkynetRwlock {

  datatype Lock = Lock(write: bool, read: int)

  /** Where a thread is with the lock: not there; counted as a reader, and about to look for
      a writer; reading; waiting for the readers to leave; writing. */
  datatype Phase = Outside | Counted | Reading | Waiting | Writing

  /** The steps of one thread: of `rwlock_rlock`, `rwlock_runlock`, `rwlock_wlock` and
      `rwlock_wunlock`. A loop that waits stays where it is. */
  predicate Move(l: Lock, p: Phase, l': Lock, p': Phase) {
    || (p' == p && l' == l)
    || (p.Outside? && p'.Counted? && l' == l.(read := l.read + 1))
    || (p.Counted? && p'.Outside? && l' == l.(read := l.read - 1))
    || (p.Counted? && p'.Reading? && l' == l && !l.write)
    || (p.Reading? && p'.Outside? && l' == l.(read := l.read - 1))
    || (p.Outside? && p'.Waiting? && l' == l.(write := true) && !l.write)
    || (p.Waiting? && p'.Writing? && l' == l && l.read == 0)
    || (p.Writing? && p'.Outside? && l' == l.(write := false))
  }

  function PhaseAt(phases: map<nat, Phase>, t: nat): Phase { if t in phases then phases[t] else Outside }

  /** The readers that the counter counts, and the threads that have the writer's flag. */
  function Readers(phases: map<nat, Phase>): set<nat> { set t | t in phases && (phases[t].Counted? || phases[t].Reading?) }

  function Writers(phases: map<nat, Phase>): set<nat> { set t | t in phases && (phases[t].Waiting? || phases[t].Writing?) }

  /** The counters are the threads, and a thread that writes is alone. */
  ghost predicate LockOk(l: Lock, phases: map<nat, Phase>) {
    && l.read == |Readers(phases)|
    && |Writers(phases)| == (if l.write then 1 else 0)
    && forall t, u :: t in phases && u in phases && t != u && phases[t].Writing? ==> !phases[u].Reading? && !phases[u].Writing?
  }

  lemma MembersSet(phases: map<nat, Phase>, t: nat, p: Phase)
    ensures Readers(phases[t := p]) == if p.Counted? || p.Reading? then Readers(phases) + {t} else Readers(phases) - {t}
    ensures Writers(phases[t := p]) == if p.Waiting? || p.Writing? then Writers(phases) + {t} else Writers(phases) - {t}
    ensures t in Readers(phases) <==> PhaseAt(phases, t).Counted? || PhaseAt(phases, t).Reading?
    ensures t in Writers(phases) <==> PhaseAt(phases, t).Waiting? || PhaseAt(phases, t).Writing?
  {
  }

  /** Nobody has the flag when it is not set, and one thread when it is; nobody reads when
      nobody is counted. */
  lemma Alone(l: Lock, phases: map<nat, Phase>, u: nat)
    requires LockOk(l, phases) && u in phases
    ensures !l.write ==> !phases[u].Writing? && !phases[u].Waiting?
    ensures l.read == 0 ==> !phases[u].Reading?
  {
    if u in Writers(phases) { assert Writers(phases) != {}; }
    if u in Readers(phases) { assert Readers(phases) != {}; }
  }

  lemma OneFlag(l: Lock, phases: map<nat, Phase>, t: nat, u: nat)
    requires LockOk(l, phases) && t in Writers(phases) && u in Writers(phases)
    ensures t == u
  {
    hide Writers;
    var rest := Writers(phases) - {t};
    assert Writers(phases) == rest + {t};
    assert rest == {};
  }

  lemma CountsKept(l: Lock, phases: map<nat, Phase>, t: nat, l': Lock, p': Phase)
    requires LockOk(l, phases) && Move(l, PhaseAt(phases, t), l', p')
    ensures l'.read == |Readers(phases[t := p'])|
    ensures |Writers(phases[t := p'])| == if l'.write then 1 else 0
  {
    MembersSet(phases, t, p');
    if t in Writers(phases) { OneFlagIs(l, phases, t); }
    hide Readers, Writers, PhaseAt;
  }

  lemma OneFlagIs(l: Lock, phases: map<nat, Phase>, t: nat)
    requires LockOk(l, phases) && t in Writers(phases)
    ensures Writers(phases) == {t} && l.write
  {
    forall u | u in Writers(phases) ensures u == t { OneFlag(l, phases, t, u); }
    hide Writers;
  }

  /** A thread that comes to write, or to read, finds the others away. */
  lemma AloneKept(l: Lock, phases: map<nat, Phase>, t: nat, l': Lock, p': Phase, u: nat)
    requires LockOk(l, phases) && Move(l, PhaseAt(phases, t), l', p') && u in phases && u != t
    ensures p'.Writing? ==> !phases[u].Reading? && !phases[u].Writing?
    ensures phases[u].Writing? ==> !p'.Reading? && !p'.Writing?
  {
    Alone(l, phases, u);
    if PhaseAt(phases, t).Waiting? && phases[u].Writing? { OneFlag(l, phases, t, u); }
    hide Readers, Writers;
  }

  /** Whatever a thread does next, the counters are right and writers are alone. */
  lemma LockKept(l: Lock, phases: map<nat, Phase>, t: nat, l': Lock, p': Phase)
    requires LockOk(l, phases) && Move(l, PhaseAt(phases, t), l', p')
    ensures LockOk(l', phases[t := p'])
  {
    var phases' := phases[t := p'];
    CountsKept(l, phases, t, l', p');
    forall u | u in phases && u != t
      ensures p'.Writing? ==> !phases[u].Reading? && !phases[u].Writing?
      ensures phases[u].Writing? ==> !p'.Reading? && !p'.Writing?
    {
      AloneKept(l, phases, t, l', p', u);
    }
    hide Readers, Writers, Move;
  }
}
