/** The peephole pass: it rewrites labels and jumps in place, and keeps every outcome. */
module LpegPeephole {
  import opened LpegTree
  import opened LpegMachine
  import opened LpegAnalysis
  import opened LpegCode
  import opened LpegCompiler

  /** Does control never reach the address behind the instruction? */
  predicate NeverFalls(op: Opcode) {
    op.IJmp? || op.IRet? || op.IEnd? || op.ICommit? || op.IPartialCommit? || op.IBackCommit? ||
    op.IFail? || op.IFailTwice?
  }

  /** Instructions with an implicit unconditional jump. */
  predicate JumpsAway(op: Opcode) { op.IRet? || op.IFail? || op.IFailTwice? || op.IEnd? }

  /** Instructions with an explicit unconditional jump, besides IJmp. */
  predicate CommitLike(op: Opcode) { op.ICommit? || op.IPartialCommit? || op.IBackCommit? }

  /** `starts` are addresses of instructions, every label and every address that control
      falls to is among them, and no instruction reaches into another one. */
  ghost predicate Linked(code: Code, starts: set<int>) {
    && (forall j :: j in starts ==> 0 <= j < |code| && code[j].Inst?)
    && (forall j :: j in starts && HasOffset(code[j].op) ==> OffsetAt(code, j) && Target(code, j) in starts)
    && (forall j :: j in starts && !NeverFalls(code[j].op) ==> j + SizeI(code[j].op) in starts)
    && (forall j, k :: j in starts && j < k < j + SizeI(code[j].op) ==> k !in starts)
  }

  /** A rank that every jump decreases: chains of jumps end. */
  ghost predicate Ranked(code: Code, starts: set<int>, rank: seq<nat>) {
    && |rank| == |code| && Linked(code, starts)
    && forall j :: j in starts && code[j].op.IJmp? ==> rank[Target(code, j)] < rank[j]
  }

  /** `finaltarget`: the end of the chain of jumps that starts at `i`. */
  ghost function FinalTarget(code: Code, starts: set<int>, rank: seq<nat>, i: int): (j: int)
    requires Ranked(code, starts, rank) && i in starts
    ensures j in starts && !code[j].op.IJmp? && rank[j] <= rank[i]
    ensures code[i].op.IJmp? ==> rank[j] < rank[i]
    decreases rank[i]
  {
    if code[i].op.IJmp? then FinalTarget(code, starts, rank, Target(code, i)) else i
  }

  /** Two addresses between which there are only jumps. */
  ghost predicate SamePlace(code: Code, starts: set<int>, rank: seq<nat>, p: int, p': int)
    requires Ranked(code, starts, rank)
  {
    || (p == GIVE_UP && p' == GIVE_UP)
    || (p in starts && p' in starts && (p == p' || FinalTarget(code, starts, rank, p) == p'))
  }

  ghost predicate SameFrames(code: Code, starts: set<int>, rank: seq<nat>, stack: seq<Frame>, stack': seq<Frame>)
    requires Ranked(code, starts, rank)
  {
    |stack| == |stack'| &&
    forall k :: 0 <= k < |stack| ==>
      SamePlace(code, starts, rank, stack[k].p, stack'[k].p) &&
      stack[k].s == stack'[k].s && stack[k].caplevel == stack'[k].caplevel
  }

  /** States that differ only by jumps that one of them still has to make. */
  ghost predicate SameState(code: Code, starts: set<int>, rank: seq<nat>, st: State, st': State)
    requires Ranked(code, starts, rank)
  {
    if st.Running? then
      st'.Running? && st.s == st'.s && st.caps == st'.caps &&
      SamePlace(code, starts, rank, st.p, st'.p) && SameFrames(code, starts, rank, st.stack, st'.stack)
    else st == st'
  }

  lemma {:induction false} FailToSame(code: Code, starts: set<int>, rank: seq<nat>,
                                      stack: seq<Frame>, stack': seq<Frame>, caps: seq<Capture>)
    requires Ranked(code, starts, rank) && SameFrames(code, starts, rank, stack, stack')
    ensures SameState(code, starts, rank, FailTo(stack, caps), FailTo(stack', caps))
    decreases |stack|
  {
    if stack != [] {
      hide SamePlace, Ranked;
      assert SameFrames(code, starts, rank, stack[..|stack| - 1], stack'[..|stack| - 1]);
      FailToSame(code, starts, rank, stack[..|stack| - 1], stack'[..|stack| - 1], caps);
    }
  }

  /** An instruction has the same effect on states, labels and next addresses that are
      the same up to jumps. */
  lemma ActSame(code: Code, starts: set<int>, rank: seq<nat>, op: Opcode, next: int, next': int, target: int, target': int,
                cs: Charset, s: Subject, i: nat, stack: seq<Frame>, stack': seq<Frame>, caps: seq<Capture>)
    requires Ranked(code, starts, rank) && SameFrames(code, starts, rank, stack, stack') && i <= |s|
    requires !NeverFalls(op) ==> SamePlace(code, starts, rank, next, next')
    requires HasOffset(op) ==> SamePlace(code, starts, rank, target, target')
    ensures SameState(code, starts, rank, Act(op, next, target, cs, s, i, stack, caps),
                      Act(op, next', target', cs, s, i, stack', caps))
  {
    hide SamePlace, FailTo, SpanEnd, Ranked, Linked, CloseCapture;
    FailToSame(code, starts, rank, stack, stack', caps);
    if stack != [] {
      FailToSame(code, starts, rank, stack[..|stack| - 1], stack'[..|stack| - 1], caps);
    }
  }

  /** A step of the pass at address `i`: a new label, or a jump that becomes the
      instruction that it leads to. */
  ghost predicate Rewritten(code: Code, starts: set<int>, rank: seq<nat>, code': Code, i: int)
    requires Ranked(code, starts, rank)
  {
    && i in starts && HasOffset(code[i].op) && |code'| == |code|
    && (forall k :: 0 <= k < |code| && k != i && k != i + 1 ==> code'[k] == code[k])
    && (|| Relabelled(code, starts, rank, code', i)
        || (code[i].op.IJmp? && Replaced(code, starts, rank, code', i)))
  }

  ghost predicate Relabelled(code: Code, starts: set<int>, rank: seq<nat>, code': Code, i: int)
    requires Ranked(code, starts, rank) && i in starts && HasOffset(code[i].op) && |code'| == |code|
  {
    code'[i] == code[i] &&
    code'[i + 1] == Offset(FinalTarget(code, starts, rank, Target(code, i)) - i)
  }

  ghost predicate Replaced(code: Code, starts: set<int>, rank: seq<nat>, code': Code, i: int)
    requires Ranked(code, starts, rank) && i in starts && code[i].op.IJmp? && |code'| == |code|
  {
    var ft := FinalTarget(code, starts, rank, i);
    code'[i] == code[ft] &&
    if CommitLike(code[ft].op) then
      code'[i + 1] == Offset(FinalTarget(code, starts, rank, Target(code, ft)) - i)
    else
      JumpsAway(code[ft].op) && code'[i + 1] == Inst(IAny)
  }

  /** What being linked says about one instruction. */
  ghost predicate LinkedAt(code: Code, starts: set<int>, rank: seq<nat>, j: int)
    requires |rank| == |code|
  {
    && 0 <= j < |code| && code[j].Inst?
    && (HasOffset(code[j].op) ==> OffsetAt(code, j) && Target(code, j) in starts)
    && (!NeverFalls(code[j].op) ==> j + SizeI(code[j].op) in starts)
    && (forall k :: j < k < j + SizeI(code[j].op) ==> k !in starts)
    && (code[j].op.IJmp? ==> 0 <= Target(code, j) < |code| && rank[Target(code, j)] < rank[j])
  }

  lemma RankedFrom(code: Code, starts: set<int>, rank: seq<nat>)
    requires |rank| == |code| && forall j :: j in starts ==> LinkedAt(code, starts, rank, j)
    ensures Ranked(code, starts, rank)
  {
    hide SizeI, HasOffset, OffsetAt, NeverFalls, Target;
    assert Linked(code, starts);
  }

  lemma RankedTo(code: Code, starts: set<int>, rank: seq<nat>, j: int)
    requires Ranked(code, starts, rank) && j in starts
    ensures LinkedAt(code, starts, rank, j)
  {
  }

  /** The rewritten slots belong to no other instruction. */
  lemma OtherSlots(code: Code, starts: set<int>, rank: seq<nat>, code': Code, i: int, p: int)
    requires Ranked(code, starts, rank) && Rewritten(code, starts, rank, code', i)
    requires p in starts && p != i
    ensures |code'| == |code|
    ensures forall k :: p <= k < p + SizeI(code[p].op) && k < |code| ==> code'[k] == code[k]
  {
    hide FinalTarget;
    if p < i { assert i >= p + SizeI(code[p].op); }
    if i < p { assert p >= i + SizeI(code[i].op); }
  }

  lemma RewrittenOther(code: Code, starts: set<int>, rank: seq<nat>, code': Code, i: int, j: int)
    requires Ranked(code, starts, rank) && Rewritten(code, starts, rank, code', i)
    requires j in starts && j != i
    ensures |code'| == |code| && LinkedAt(code', starts, rank, j)
  {
    hide Ranked, Linked, Rewritten, FinalTarget;
    RankedTo(code, starts, rank, j);
    OtherSlots(code, starts, rank, code', i, j);
  }

  lemma RewrittenHere(code: Code, starts: set<int>, rank: seq<nat>, code': Code, i: int)
    requires Ranked(code, starts, rank) && Rewritten(code, starts, rank, code', i)
    ensures |code'| == |code| && LinkedAt(code', starts, rank, i)
  {
    hide Ranked, Linked, FinalTarget;
    RankedTo(code, starts, rank, i);
    assert i + 1 !in starts;
    RankedTo(code, starts, rank, Target(code, i));
    if !Relabelled(code, starts, rank, code', i) {
      var ft := FinalTarget(code, starts, rank, i);
      RankedTo(code, starts, rank, ft);
      if CommitLike(code[ft].op) { RankedTo(code, starts, rank, FinalTarget(code, starts, rank, Target(code, ft))); }
    } else {
      RankedTo(code, starts, rank, FinalTarget(code, starts, rank, Target(code, i)));
    }
  }

  /** The pass keeps the code linked; jumps still get closer to the end of their chain,
      and no label leads to a slot that only fills a gap. */
  lemma RewrittenLinked(code: Code, starts: set<int>, rank: seq<nat>, code': Code, i: int)
    requires Ranked(code, starts, rank) && Rewritten(code, starts, rank, code', i)
    ensures Ranked(code', starts, rank)
  {
    hide Ranked, Linked, Rewritten, LinkedAt;
    RewrittenHere(code, starts, rank, code', i);
    assert |rank| == |code| by { RankedLength(code, starts, rank); }
    forall j | j in starts
      ensures LinkedAt(code', starts, rank, j)
    {
      if j != i { RewrittenOther(code, starts, rank, code', i, j); }
    }
    RankedFrom(code', starts, rank);
  }

  lemma RankedLength(code: Code, starts: set<int>, rank: seq<nat>)
    requires Ranked(code, starts, rank)
    ensures |rank| == |code|
  {
  }

  lemma OtherStep(code: Code, starts: set<int>, rank: seq<nat>, code': Code, i: int, s: Subject, st: State)
    requires Ranked(code, starts, rank) && Rewritten(code, starts, rank, code', i)
    requires st.Running? && (st.p in starts || st.p == GIVE_UP) && st.p != i && Step(code, s, st) != Stuck
    ensures Step(code', s, st) == Step(code, s, st)
  {
    hide Act, FinalTarget, Rewritten;
    RewrittenCases(code, starts, rank, code', i);
    if st.p != GIVE_UP { OtherSlots(code, starts, rank, code', i, st.p); }
  }

  /** Related states at the same address take related steps. */
  lemma SameSteps(code: Code, starts: set<int>, rank: seq<nat>, s: Subject, st: State, st': State)
    requires Ranked(code, starts, rank)
    requires st.Running? && SameState(code, starts, rank, st, st') && st.p == st'.p
    requires Step(code, s, st) != Stuck
    ensures SameState(code, starts, rank, Step(code, s, st), Step(code, s, st'))
    ensures Step(code, s, st') != Stuck
  {
    hide Act, FinalTarget;
    var p := st.p;
    if p != GIVE_UP {
      var op := code[p].op;
      var target := if HasOffset(op) then Target(code, p) else 0;
      var cs := if HasBits(op) then code[BitsPos(op, p)].cs else {};
      ActSame(code, starts, rank, op, p + SizeI(op), p + SizeI(op), target, target, cs, s, st.s, st.stack, st'.stack, st.caps);
    }
  }

  lemma OtherSteps(code: Code, starts: set<int>, rank: seq<nat>, code': Code, i: int, s: Subject, st: State, st': State)
    requires Ranked(code, starts, rank) && Rewritten(code, starts, rank, code', i)
    requires st.Running? && SameState(code, starts, rank, st, st') && st.p == st'.p && st.p != i
    requires Step(code, s, st) != Stuck
    ensures SameState(code, starts, rank, Step(code, s, st), Step(code', s, st'))
  {
    hide Step, Rewritten, Ranked, SameFrames;
    SameSteps(code, starts, rank, s, st, st');
    OtherStep(code, starts, rank, code', i, s, st');
  }

  /** A chain of jumps, run to its end. */
  lemma {:induction false} RunJumps(code: Code, starts: set<int>, rank: seq<nat>, s: Subject, st: State, n: nat) returns (m: nat)
    requires Ranked(code, starts, rank) && st.Running? && st.p in starts && Halted(Run(code, s, st, n))
    ensures m <= n && Run(code, s, st.(p := FinalTarget(code, starts, rank, st.p)), m) == Run(code, s, st, n)
    ensures code[st.p].op.IJmp? ==> m < n
    decreases rank[st.p]
  {
    if code[st.p].op.IJmp? {
      StuckStays(code, s, st, n);
      m := RunJumps(code, starts, rank, s, st.(p := Target(code, st.p)), n - 1);
    } else {
      m := n;
    }
  }

  lemma StuckStays(code: Code, s: Subject, st: State, n: nat)
    requires st.Running? && Halted(Run(code, s, st, n))
    ensures n > 0 && Step(code, s, st) != Stuck
  {
    if n > 0 && Step(code, s, st) == Stuck { HaltedStays(code, s, Stuck, n - 1); }
  }

  /** At a new label, the rewritten code goes where the old code gets after some jumps. */
  lemma RelabelledStep(code: Code, starts: set<int>, rank: seq<nat>, code': Code, i: int, s: Subject, st: State, st': State)
    requires Ranked(code, starts, rank) && Rewritten(code, starts, rank, code', i) && Relabelled(code, starts, rank, code', i)
    requires st.Running? && SameState(code, starts, rank, st, st') && st.p == st'.p == i
    requires Step(code, s, st) != Stuck
    ensures SameState(code, starts, rank, Step(code, s, st), Step(code', s, st'))
  {
    hide Act;
    var op := code[i].op;
    var cs := if HasBits(op) then code[BitsPos(op, i)].cs else {};
    if HasBits(op) { assert BitsPos(op, i) == i + 2; }
    ActSame(code, starts, rank, op, i + SizeI(op), i + SizeI(op), Target(code, i), Target(code', i), cs, s, st.s,
            st.stack, st'.stack, st.caps);
  }

  /** An instruction that replaced a jump does what it did at the end of the jumps. */
  lemma ReplacedStep(code: Code, starts: set<int>, rank: seq<nat>, code': Code, i: int, s: Subject, st: State, st': State)
    requires Ranked(code, starts, rank) && Rewritten(code, starts, rank, code', i)
    requires code[i].op.IJmp? && Replaced(code, starts, rank, code', i)
    requires st.Running? && st'.Running? && SameState(code, starts, rank, st, st'.(p := FinalTarget(code, starts, rank, i))) && st'.p == i
    requires st.p == FinalTarget(code, starts, rank, i) && Step(code, s, st) != Stuck
    ensures SameState(code, starts, rank, Step(code, s, st), Step(code', s, st'))
  {
    hide Act;
    var ft := st.p;
    var op := code[ft].op;
    assert InstAt(code', i);
    var t, t' := if HasOffset(op) then Target(code, ft) else 0, if HasOffset(op) then Target(code', i) else 0;
    ActSame(code, starts, rank, op, ft + SizeI(op), i + SizeI(op), t, t', {}, s, st.s, st.stack, st'.stack, st.caps);
  }

  /** Every halting run of the old code has a run of the rewritten code with the same
      outcome. */
  lemma {:induction false} RewriteKeeps(code: Code, starts: set<int>, rank: seq<nat>, code': Code, i: int,
                                        s: Subject, st: State, st': State, n: nat)
    requires Ranked(code, starts, rank) && Rewritten(code, starts, rank, code', i)
    requires SameState(code, starts, rank, st, st') && Halted(Run(code, s, st, n))
    ensures Reaches(code', s, st', Run(code, s, st, n))
    decreases n
  {
    hide Step, Rewritten, Ranked, Reaches, SameFrames, Replaced, Relabelled;
    if !st.Running? {
      HaltedStays(code, s, st, n);
      ReachesSelf(code', s, st');
    } else {
      StuckStays(code, s, st, n);
      if st.p != st'.p {
        JumpAhead(code, starts, rank, s, st, st');
        RewriteKeeps(code, starts, rank, code', i, s, Step(code, s, st), st', n - 1);
      } else {
        var n1, st1 := n, st;
        if st.p == i && !RelabelledAt(code, starts, rank, code', i) {
          RewrittenCases(code, starts, rank, code', i);
          assert code[i].op.IJmp? && Replaced(code, starts, rank, code', i);
          n1 := RunJumps(code, starts, rank, s, st, n);
          st1 := st.(p := FinalTarget(code, starts, rank, i));
          StuckStays(code, s, st1, n1);
          SameAtTarget(code, starts, rank, st, st');
          ReplacedStep(code, starts, rank, code', i, s, st1, st');
        } else if st.p == i {
          RelabelledStep(code, starts, rank, code', i, s, st, st');
        } else {
          OtherSteps(code, starts, rank, code', i, s, st, st');
        }
        RewriteKeeps(code, starts, rank, code', i, s, Step(code, s, st1), Step(code', s, st'), n1 - 1);
        ReachesStep(code', s, st');
        ReachesTrans(code', s, st', Step(code', s, st'), Run(code, s, st, n));
      }
    }
  }

  ghost predicate RelabelledAt(code: Code, starts: set<int>, rank: seq<nat>, code': Code, i: int)
    requires Ranked(code, starts, rank) && Rewritten(code, starts, rank, code', i)
  {
    Relabelled(code, starts, rank, code', i)
  }

  lemma RewrittenCases(code: Code, starts: set<int>, rank: seq<nat>, code': Code, i: int)
    requires Ranked(code, starts, rank) && Rewritten(code, starts, rank, code', i)
    ensures i in starts && |code'| == |code| && 0 <= i < |code| && code[i].Inst? && HasOffset(code[i].op)
    ensures Relabelled(code, starts, rank, code', i) || (code[i].op.IJmp? && Replaced(code, starts, rank, code', i))
  {
  }

  lemma JumpAhead(code: Code, starts: set<int>, rank: seq<nat>, s: Subject, st: State, st': State)
    requires Ranked(code, starts, rank) && st.Running? && SameState(code, starts, rank, st, st') && st.p != st'.p
    requires Step(code, s, st) != Stuck
    ensures SameState(code, starts, rank, Step(code, s, st), st')
  {
    assert code[st.p].op.IJmp?;
  }

  lemma SameAtTarget(code: Code, starts: set<int>, rank: seq<nat>, st: State, st': State)
    requires Ranked(code, starts, rank) && st.Running? && SameState(code, starts, rank, st, st') && st.p in starts
    ensures var ft := FinalTarget(code, starts, rank, st.p);
            SameState(code, starts, rank, st.(p := ft), st'.(p := ft))
  {
  }

  /** Every outcome of `code`, on any subject, is the outcome of `code'`. */
  ghost predicate Keeps(code: Code, code': Code) {
    forall s: Subject, i: nat, out: State ::
      i <= |s| && Halted(out) && Reaches(code, s, Start(i), out) ==> Reaches(code', s, Start(i), out)
  }

  lemma KeepsRewrite(first: Code, code: Code, starts: set<int>, rank: seq<nat>, code': Code, i: int)
    requires Ranked(code, starts, rank) && 0 in starts && Rewritten(code, starts, rank, code', i)
    requires Keeps(first, code)
    ensures Keeps(first, code')
  {
    forall s: Subject, k: nat, out: State | k <= |s| && Halted(out) && Reaches(first, s, Start(k), out)
      ensures Reaches(code', s, Start(k), out)
    {
      assert Reaches(code, s, Start(k), out);
      var n: nat :| Run(code, s, Start(k), n) == out;
      RewriteKeeps(code, starts, rank, code', i, s, Start(k), Start(k), n);
    }
  }

  /** From `i` on, an instruction starts behind every instruction. */
  ghost predicate ParsedFrom(code: Code, starts: set<int>, i: int) {
    forall j :: j in starts && i <= j ==>
      0 <= j < |code| && code[j].Inst? && (j + SizeI(code[j].op) in starts || j + SizeI(code[j].op) == |code|)
  }

  /** Is `i` where the pass goes on: at an instruction, at a filler, or at the end? */
  ghost predicate VisitPoint(code: Code, starts: set<int>, i: int) {
    || i == |code|
    || i in starts
    || (0 <= i < |code| && code[i] == Inst(IAny) && (i + 1 in starts || i + 1 == |code|))
  }

  /** `finaltarget`, as a loop. */
  method FollowJumps(code: Code, i: int, ghost starts: set<int>, ghost rank: seq<nat>) returns (j: int)
    requires Ranked(code, starts, rank) && i in starts
    ensures j == FinalTarget(code, starts, rank, i)
  {
    j := i;
    while code[j].op.IJmp?
      invariant j in starts && FinalTarget(code, starts, rank, j) == FinalTarget(code, starts, rank, i)
      decreases rank[j]
    {
      j := Target(code, j);
    }
  }

  lemma RankedAt(code: Code, starts: set<int>, rank: seq<nat>, i: int)
    requires Ranked(code, starts, rank) && i in starts
    ensures 0 <= i < |code| && code[i].Inst?
    ensures HasOffset(code[i].op) ==> OffsetAt(code, i) && Target(code, i) in starts && i + 1 !in starts
  {
  }

  predicate SameOthers(code: Code, code': Code, i: int) {
    |code'| == |code| && forall k :: 0 <= k < |code| && k != i && k != i + 1 ==> code'[k] == code[k]
  }

  /** The three rewritings of the pass. */
  lemma NewLabel(first: Code, code: Code, starts: set<int>, rank: seq<nat>, i: int)
    requires Ranked(code, starts, rank) && 0 in starts && i in starts && HasOffset(code[i].op) && Keeps(first, code)
    ensures var ft := FinalTarget(code, starts, rank, Target(code, i));
            var code' := Patched(code, i, ft);
            Ranked(code', starts, rank) && Keeps(first, code') && SameOthers(code, code', i) && code'[i] == code[i] &&
            Target(code', i) == ft && ft in starts && code'[ft] == code[ft] && !code[ft].op.IJmp?
  {
    var ft := FinalTarget(code, starts, rank, Target(code, i));
    var code' := Patched(code, i, ft);
    assert i + 1 !in starts;
    assert Rewritten(code, starts, rank, code', i);
    RewrittenLinked(code, starts, rank, code', i);
    KeepsRewrite(first, code, starts, rank, code', i);
  }

  lemma JumpGone(first: Code, code: Code, starts: set<int>, rank: seq<nat>, i: int)
    requires Ranked(code, starts, rank) && 0 in starts && i in starts && code[i].op.IJmp? && Keeps(first, code)
    requires JumpsAway(code[FinalTarget(code, starts, rank, i)].op)
    ensures var code' := code[i := code[FinalTarget(code, starts, rank, i)]][i + 1 := Inst(IAny)];
            Ranked(code', starts, rank) && Keeps(first, code') && SameOthers(code, code', i) &&
            JumpsAway(code'[i].op) && code'[i + 1] == Inst(IAny)
  {
    var code' := code[i := code[FinalTarget(code, starts, rank, i)]][i + 1 := Inst(IAny)];
    assert Rewritten(code, starts, rank, code', i);
    RewrittenLinked(code, starts, rank, code', i);
    KeepsRewrite(first, code, starts, rank, code', i);
  }

  lemma JumpToCommit(first: Code, code: Code, starts: set<int>, rank: seq<nat>, i: int)
    requires Ranked(code, starts, rank) && 0 in starts && i in starts && code[i].op.IJmp? && Keeps(first, code)
    requires CommitLike(code[FinalTarget(code, starts, rank, i)].op)
    ensures var ft := FinalTarget(code, starts, rank, i);
            var fft := FinalTarget(code, starts, rank, Target(code, ft));
            var code' := Patched(code[i := code[ft]], i, fft);
            Ranked(code', starts, rank) && Keeps(first, code') && SameOthers(code, code', i) && code'[i] == code[ft]
  {
    var ft := FinalTarget(code, starts, rank, i);
    var fft := FinalTarget(code, starts, rank, Target(code, ft));
    var code' := Patched(code[i := code[ft]], i, fft);
    assert Rewritten(code, starts, rank, code', i);
    RewrittenLinked(code, starts, rank, code', i);
    KeepsRewrite(first, code, starts, rank, code', i);
  }

  /** One visit of the pass, to the instruction at `i`. */
  method Optimize(compst: CompileState, i: int, ghost first: Code, ghost starts: set<int>, ghost rank: seq<nat>)
    requires Ranked(compst.code, starts, rank) && 0 in starts && Keeps(first, compst.code)
    requires i in starts || (0 <= i < |compst.code| && compst.code[i] == Inst(IAny))
    modifies compst
    ensures Ranked(compst.code, starts, rank) && Keeps(first, compst.code)
    ensures Visited(old(compst.code), compst.code, i)
    ensures i in starts ==> Settled(compst.code, starts, i)
  {
    hide Ranked, Keeps, FinalTarget, Patched, SameOthers;
    var code := compst.code;
    if i in starts { RankedAt(code, starts, rank, i); }
    if code[i].op.IJmp? {
      var ft := FollowJumps(code, i, starts, rank);
      RankedAt(code, starts, rank, ft);
      if JumpsAway(code[ft].op) {
        JumpGone(first, code, starts, rank, i);
        compst.code := code[i := code[ft]][i + 1 := Inst(IAny)];
      } else if CommitLike(code[ft].op) {
        var fft := FollowJumps(code, Target(code, ft), starts, rank);
        JumpToCommit(first, code, starts, rank, i);
        compst.code := code[i := code[ft]];
        compst.JumpToThere(i, fft);
        code := compst.code;
        RankedAt(code, starts, rank, i);
        var again := FollowJumps(code, Target(code, i), starts, rank);
        NewLabel(first, code, starts, rank, i);
        compst.JumpToThere(i, again);
        SameOthersTrans(old(compst.code), code, compst.code, i);
      } else {
        NewLabel(first, code, starts, rank, i);
        JumpFinal(code, starts, rank, i);
        compst.JumpToThere(i, ft);
      }
      TargetThere(compst.code, starts, rank, i);
    } else if HasOffset(code[i].op) {
      var ft := FollowJumps(code, Target(code, i), starts, rank);
      NewLabel(first, code, starts, rank, i);
      compst.JumpToThere(i, ft);
      TargetThere(compst.code, starts, rank, i);
    } else {
      SameOthersSelf(code, i);
    }
  }

  lemma TargetThere(code: Code, starts: set<int>, rank: seq<nat>, i: int)
    requires Ranked(code, starts, rank) && i in starts
    ensures 0 <= i < |code| && code[i].Inst?
    ensures HasOffset(code[i].op) ==>
              OffsetAt(code, i) && Target(code, i) in starts && 0 <= Target(code, i) < |code| && code[Target(code, i)].Inst?
  {
    hide Ranked;
    RankedAt(code, starts, rank, i);
    if HasOffset(code[i].op) { RankedAt(code, starts, rank, Target(code, i)); }
  }

  lemma SameOthersSelf(code: Code, i: int)
    ensures SameOthers(code, code, i)
  {
  }

  lemma SameOthersTrans(a: Code, b: Code, c: Code, i: int)
    requires SameOthers(a, b, i) && SameOthers(b, c, i)
    ensures SameOthers(a, c, i)
  {
  }

  lemma JumpFinal(code: Code, starts: set<int>, rank: seq<nat>, i: int)
    requires Ranked(code, starts, rank) && i in starts && code[i].op.IJmp?
    ensures FinalTarget(code, starts, rank, Target(code, i)) == FinalTarget(code, starts, rank, i)
  {
  }

  /** What a visit to address `i` leaves behind: only the instruction at `i` changed; when
      it shrank, the slot behind it is a filler; and when it is still a jump, it does not
      lead to a jump or to an instruction that could stand in its place. */
  ghost predicate Visited(code: Code, code': Code, i: int)
    requires 0 <= i < |code| && code[i].Inst?
  {
    && SameOthers(code, code', i)
    && (!HasOffset(code[i].op) ==> code' == code)
    && code'[i].Inst? && (!code[i].op.IJmp? ==> code'[i] == code[i])
    && (|| SizeI(code'[i].op) == SizeI(code[i].op)
        || (code[i].op.IJmp? && SizeI(code'[i].op) == 1 && i + 1 < |code| && code'[i + 1] == Inst(IAny)))
  }

  /** The label of the instruction at `j` leads to the end of its chain: to an instruction
      that is not a jump; and when the instruction itself is still a jump, to one that could
      not stand in its place. */
  ghost predicate Settled(code: Code, starts: set<int>, j: int) {
    && 0 <= j < |code| && code[j].Inst?
    && (HasOffset(code[j].op) ==> OffsetAt(code, j) && Lands(code, starts, Target(code, j), code[j].op.IJmp?))
  }

  ghost predicate Lands(code: Code, starts: set<int>, t: int, jump: bool) {
    && t in starts && 0 <= t < |code| && code[t].Inst? && !code[t].op.IJmp?
    && (jump ==> !JumpsAway(code[t].op) && !CommitLike(code[t].op))
  }

  /** A label that is settled stays so: what is not a jump does not become one. */
  lemma SettledStays(code: Code, code': Code, starts: set<int>, rank: seq<nat>, i: int, j: int)
    requires Ranked(code, starts, rank) && Ranked(code', starts, rank) && j in starts && j < i && Settled(code, starts, j)
    requires 0 <= i < |code| && code[i].Inst? && Visited(code, code', i)
    requires i in starts && HasOffset(code[i].op) ==> i + 1 !in starts
    requires i in starts || code[i] == Inst(IAny)
    ensures Settled(code', starts, j)
  {
    hide Ranked, FinalTarget;
    RankedAt(code, starts, rank, j);
  }

  /** Behind the visit, everything in front of the next one is settled. */
  lemma SettledNext(code: Code, starts: set<int>, rank: seq<nat>, i: int, j: int)
    requires Ranked(code, starts, rank) && 0 <= i < |code| && code[i].Inst? && (i in starts || SizeI(code[i].op) == 1)
    requires j in starts && i <= j < i + SizeI(code[i].op)
    ensures j == i
  {
  }

  /** `peephole`: one pass over the instructions. A jump that became an instruction of
      one slot leaves a filler behind, which the pass steps over. */
  method Peephole(compst: CompileState, ghost starts: set<int>, ghost rank: seq<nat>)
    requires Ranked(compst.code, starts, rank) && 0 in starts && ParsedFrom(compst.code, starts, 0)
    modifies compst
    ensures Ranked(compst.code, starts, rank) && |compst.code| == |old(compst.code)|
    ensures Keeps(old(compst.code), compst.code)
    ensures forall j :: j in starts ==> Settled(compst.code, starts, j)
  {
    hide Ranked, Keeps, Linked, ParsedFrom, VisitPoint, Visited, Settled;
    ghost var c0 := compst.code;
    var i := 0;
    KeepsSelf(c0);
    VisitStart(c0, starts);
    while i < |compst.code|
      invariant 0 <= i && |compst.code| == |c0| && Ranked(compst.code, starts, rank)
      invariant Keeps(c0, compst.code)
      invariant ParsedFrom(compst.code, starts, i) && VisitPoint(compst.code, starts, i)
      invariant forall j :: j in starts && 0 <= j < i ==> Settled(compst.code, starts, j)
    {
      ghost var before := compst.code;
      VisitAt(before, starts, rank, i);
      Optimize(compst, i, c0, starts, rank);
      VisitNext(before, compst.code, starts, i);
      VisitSize(before, compst.code, starts, i);
      forall j | j in starts && 0 <= j < i + SizeI(compst.code[i].op)
        ensures Settled(compst.code, starts, j)
      {
        if j < i {
          SettledStays(before, compst.code, starts, rank, i, j);
        } else {
          SettledNext(compst.code, starts, rank, i, j);
        }
      }
      i := i + SizeI(compst.code[i].op);
    }
    forall j | j in starts ensures Settled(compst.code, starts, j) { RankedAt(compst.code, starts, rank, j); }
  }

  lemma VisitStart(code: Code, starts: set<int>)
    requires 0 in starts
    ensures VisitPoint(code, starts, 0)
  {
  }

  lemma VisitAt(code: Code, starts: set<int>, rank: seq<nat>, i: int)
    requires Ranked(code, starts, rank) && VisitPoint(code, starts, i) && 0 <= i < |code|
    ensures code[i].Inst? && (i in starts || code[i] == Inst(IAny))
    ensures i in starts && HasOffset(code[i].op) ==> i + 1 !in starts
  {
    if i in starts { RankedAt(code, starts, rank, i); }
  }

  lemma VisitNext(code: Code, code': Code, starts: set<int>, i: int)
    requires ParsedFrom(code, starts, i) && VisitPoint(code, starts, i) && 0 <= i < |code|
    requires code[i].Inst? && Visited(code, code', i)
    requires i in starts && HasOffset(code[i].op) ==> i + 1 !in starts
    ensures |code'| == |code| && code'[i].Inst?
    ensures ParsedFrom(code', starts, i + SizeI(code'[i].op))
    ensures VisitPoint(code', starts, i + SizeI(code'[i].op))
  {
    var i' := i + SizeI(code'[i].op);
    forall j | j in starts && i' <= j
      ensures 0 <= j < |code'| && code'[j] == code[j]
    {
      assert 0 <= j < |code|;
      if j == i + 1 { assert !HasOffset(code[i].op); }
    }
  }

  lemma VisitSize(code: Code, code': Code, starts: set<int>, i: int)
    requires 0 <= i < |code| && code[i].Inst? && Visited(code, code', i) && (i in starts || code[i] == Inst(IAny))
    ensures |code'| == |code| && code'[i].Inst? && (i in starts || SizeI(code'[i].op) == 1)
  {
  }

  lemma KeepsSelf(code: Code)
    ensures Keeps(code, code)
  {
  }
}
