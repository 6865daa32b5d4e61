/** The code of a tree does what the tree means: a simulation proof over all trees,
    subjects, positions, stacks and capture lists. */
module LpegCorrect {
  import opened LpegTree
  import opened LpegAnalysis
  import opened LpegMachine
  import opened LpegCode
  import opened LpegExec

  /** The capture list that the machine builds during a successful match. */
  function Emit(t: Tree, s: Subject, i: nat): seq<Capture>
    requires i <= |s|
    decreases t, |s| - i
  {
    var r := Peg(t, s, i);
    if r.Fail? then []
    else
      match t
      case TRep(p) =>
        (match Peg(p, s, i)
         case Fail => []
         case Succ(j, _) => Emit(p, s, i) + if j == i then [] else Emit(t, s, j))
      case TSeq(p1, p2) => Emit(p1, s, i) + Emit(p2, s, Peg(p1, s, i).pos)
      case TChoice(p1, p2) => if Peg(p1, s, i).Succ? then Emit(p1, s, i) else Emit(p2, s, i)
      case TCapture(cap, key, p) =>
        if IsFullCapture(p) then [Item(cap, key, i, r.pos - i + 1)]
        else CloseCapture([Item(cap, key, i, 0)] + Emit(p, s, i), r.pos)
      case _ => []
  }

  lemma {:induction false} EventsConcat(a: seq<Capture>, b: seq<Capture>)
    ensures Events(a + b) == Events(a) + Events(b)
    decreases |b|
  {
    if b == [] {
      assert a + b == a;
    } else {
      var b' := b[..|b| - 1];
      assert (a + b)[..|a + b| - 1] == a + b';
      EventsConcat(a, b');
    }
  }

  lemma EventsOne(c: Capture)
    ensures Events([c]) ==
            match c
            case CloseItem(s) => [Close(s)]
            case Item(kind, idx, s, siz) =>
              if siz == 0 then [Open(kind, idx, s)] else [Open(kind, idx, s), Close(s + siz - 1)]
  {
    assert [c][..0] == [];
  }

  predicate IsNearOpen(c: Capture, at: nat) {
    c.Item? && c.siz == 0 && at - c.s < 255 && c.s <= at
  }

  lemma CloseShape(init: seq<Capture>, last: Capture, at: nat)
    ensures CloseCapture(init + [last], at) ==
            if IsNearOpen(last, at) then init + [last.(siz := at - last.s + 1)]
            else init + [last] + [CloseItem(at)]
  {
  }

  lemma EventsClose(caps: seq<Capture>, at: nat)
    requires |caps| > 0
    ensures Events(CloseCapture(caps, at)) == Events(caps) + [Close(at)]
  {
    hide Events, CloseCapture;
    var init, last := caps[..|caps| - 1], caps[|caps| - 1];
    assert caps == init + [last];
    CloseShape(init, last, at);
    EventsConcat(init, [last]);
    EventsOne(last);
    if IsNearOpen(last, at) {
      var full := last.(siz := at - last.s + 1);
      EventsConcat(init, [full]);
      EventsOne(full);
      assert Events(init) + [Open(last.kind, last.idx, last.s)] + [Close(at)] ==
             Events(init) + [Open(last.kind, last.idx, last.s), Close(at)];
    } else {
      EventsConcat(caps, [CloseItem(at)]);
      EventsOne(CloseItem(at));
    }
  }

  lemma {:induction false} EmitNone(t: Tree, s: Subject, i: nat)
    requires i <= |s| && !HasCaptures(t)
    ensures Emit(t, s, i) == []
    decreases t, |s| - i
  {
    match t
    case TSeq(p1, p2) =>
      EmitNone(p1, s, i);
      if Peg(p1, s, i).Succ? { EmitNone(p2, s, Peg(p1, s, i).pos); }
    case TChoice(p1, p2) =>
      EmitNone(p1, s, i);
      EmitNone(p2, s, i);
    case TRep(p) =>
      EmitNone(p, s, i);
      if Peg(p, s, i).Succ? && Peg(p, s, i).pos > i { EmitNone(t, s, Peg(p, s, i).pos); }
    case _ =>
  }

  /** The capture list that the machine builds stands for the captures of the tree. */
  lemma {:induction false} EmitEvents(t: Tree, s: Subject, i: nat)
    requires i <= |s| && Peg(t, s, i).Succ? && WellFormed(t)
    ensures Events(Emit(t, s, i)) == Peg(t, s, i).events
    decreases t, |s| - i
  {
    match t
    case TSeq(p1, p2) =>
      EmitEvents(p1, s, i);
      EmitEvents(p2, s, Peg(p1, s, i).pos);
      EventsConcat(Emit(p1, s, i), Emit(p2, s, Peg(p1, s, i).pos));
    case TChoice(p1, p2) =>
      if Peg(p1, s, i).Succ? { EmitEvents(p1, s, i); } else { EmitEvents(p2, s, i); }
    case TRep(p) =>
      if Peg(p, s, i).Succ? {
        var j := Peg(p, s, i).pos;
        NullableSound(p, s, i);
        EmitEvents(p, s, i);
        EmitEvents(t, s, j);
        EventsConcat(Emit(p, s, i), Emit(t, s, j));
      }
    case TCapture(cap, key, p) =>
      var r := Peg(p, s, i);
      var open := [Item(cap, key, i, 0)];
      if IsFullCapture(p) {
        NoCapturesSound(p, s, i);
        var full := [Item(cap, key, i, r.pos - i + 1)];
        EventsOne(full[0]);
      } else {
        EmitEvents(p, s, i);
        EventsConcat(open, Emit(p, s, i));
        EventsClose(open + Emit(p, s, i), r.pos);
        EventsOne(open[0]);
      }
    case _ =>
  }

  /** The two ways in which code generated inside an optional pattern (`opt`) can
      succeed: at its end, having possibly updated the choice of the optional pattern,
      or by failing into that choice. */
  ghost predicate OptExit(code: Code, s: Subject, st: State, b: int, j: nat, stack: seq<Frame>, caps: seq<Capture>)
    requires |stack| > 0
  {
    var top := |stack| - 1;
    || Reaches(code, s, st, Running(stack[top].p, j, stack[..top], caps))
    || exists f: Frame ::
         f.p == stack[top].p && f.s.At? && Reaches(code, s, st, Running(b, j, stack[..top] + [f], caps))
  }

  /** What the code between a start state `st` and address `b` promises, when the tree
      has result `r` and `emitted` captures. Where the match ends in front of a
      character outside the follow set, the code may fail instead. */
  ghost predicate Outcome(code: Code, s: Subject, st: State, b: int, opt: bool, fl: Charset, r: Result,
                          stack: seq<Frame>, caps: seq<Capture>, emitted: seq<Capture>)
    requires opt ==> |stack| > 0
  {
    match r
    case Fail => Reaches(code, s, st, FailTo(stack, caps))
    case Succ(j, _) =>
      || Reaches(code, s, st, Running(b, j, stack, caps + emitted))
      || (opt && OptExit(code, s, st, b, j, stack, caps + emitted))
      || (j < |s| && s[j] !in fl && Reaches(code, s, st, FailTo(stack, caps)))
  }

  /** Running a prefix before the code does not change what it promises. */
  lemma OutcomeAfter(code: Code, s: Subject, st: State, st1: State, b: int, opt: bool, fl: Charset, r: Result,
                     stack: seq<Frame>, caps: seq<Capture>, emitted: seq<Capture>)
    requires opt ==> |stack| > 0
    requires Reaches(code, s, st, st1) && Outcome(code, s, st1, b, opt, fl, r, stack, caps, emitted)
    ensures Outcome(code, s, st, b, opt, fl, r, stack, caps, emitted)
  {
    match r
    case Fail => ReachesTrans(code, s, st, st1, FailTo(stack, caps));
    case Succ(j, _) =>
      if Reaches(code, s, st1, Running(b, j, stack, caps + emitted)) {
        ReachesTrans(code, s, st, st1, Running(b, j, stack, caps + emitted));
      } else if opt && OptExit(code, s, st1, b, j, stack, caps + emitted) {
        OptExitAfter(code, s, st, st1, b, j, stack, caps + emitted);
      } else {
        ReachesTrans(code, s, st, st1, FailTo(stack, caps));
      }
  }

  lemma OptExitAfter(code: Code, s: Subject, st: State, st1: State, b: int, j: nat,
                     stack: seq<Frame>, caps: seq<Capture>)
    requires |stack| > 0
    requires Reaches(code, s, st, st1) && OptExit(code, s, st1, b, j, stack, caps)
    ensures OptExit(code, s, st, b, j, stack, caps)
  {
    var top := |stack| - 1;
    if Reaches(code, s, st1, Running(stack[top].p, j, stack[..top], caps)) {
      ReachesTrans(code, s, st, st1, Running(stack[top].p, j, stack[..top], caps));
    } else {
      var f: Frame :| f.p == stack[top].p && f.s.At? &&
                      Reaches(code, s, st1, Running(b, j, stack[..top] + [f], caps));
      ReachesTrans(code, s, st, st1, Running(b, j, stack[..top] + [f], caps));
    }
  }

  /** Where a test says no, the pattern fails. */
  lemma TestMeansFail(p: Tree, s: Subject, i: nat)
    requires i <= |s| && !AcceptsEmpty(p)
    requires !(i < |s| && s[i] in First(p, FULL_SET))
    ensures Peg(p, s, i).Fail?
  {
    if i < |s| { FirstSound(p, FULL_SET, s, i); } else { EmptySound(p, FULL_SET, s); }
  }

  /** Where a test says yes and no choice was made, a failure of the pattern leaves
      nothing else to try: what follows would fail too. */
  lemma CanTestSound(p: Tree, after: Charset, s: Subject, i: nat)
    requires i <= |s| && CanTest(p, after)
    ensures !AcceptsEmpty(p)
    ensures i < |s| && s[i] in First(p, FULL_SET) && Peg(p, s, i).Fail? ==> s[i] !in after
  {
    if HeadFail(p) { HeadFailSound(p, s, i); }
  }

  lemma PlainOutcome(code: Code, s: Subject, st: State, b: int, opt: bool, fl: Charset, r: Result,
                     stack: seq<Frame>, caps: seq<Capture>)
    requires opt ==> |stack| > 0
    requires Reaches(code, s, st, if r.Fail? then FailTo(stack, caps) else Running(b, r.pos, stack, caps))
    ensures Outcome(code, s, st, b, opt, fl, r, stack, caps, [])
  {
    assert caps + [] == caps;
  }

  lemma OutcomeOpt(code: Code, s: Subject, st: State, b: int, opt: bool, fl: Charset, r: Result,
                   stack: seq<Frame>, caps: seq<Capture>, emitted: seq<Capture>)
    requires opt ==> |stack| > 0
    requires Outcome(code, s, st, b, false, fl, r, stack, caps, emitted)
    ensures Outcome(code, s, st, b, opt, fl, r, stack, caps, emitted)
  {
  }

  /** Two pieces of code, one behind the other. */
  lemma OutcomeJoin(code: Code, s: Subject, st: State, j: nat, a1: int, b: int, opt: bool, fl: Charset,
                    r2: Result, r: Result, stack: seq<Frame>, caps: seq<Capture>, e1: seq<Capture>, e2: seq<Capture>)
    requires opt ==> |stack| > 0
    requires LevelsOk(stack, |caps|)
    requires Reaches(code, s, st, Running(a1, j, stack, caps + e1))
    requires Outcome(code, s, Running(a1, j, stack, caps + e1), b, opt, fl, r2, stack, caps + e1, e2)
    requires r.Succ? <==> r2.Succ?
    requires r.Succ? ==> r.pos == r2.pos
    ensures Outcome(code, s, st, b, opt, fl, r, stack, caps, e1 + e2)
  {
    OutcomeAfter(code, s, st, Running(a1, j, stack, caps + e1), b, opt, fl, r2, stack, caps + e1, e2);
    FailToPrefix(stack, caps, e1);
    assert caps + (e1 + e2) == (caps + e1) + e2;
  }

  lemma ZeroWidth(t: Tree, s: Subject, i: nat)
    requires i <= |s| && (t.TNot? || t.TAnd? || t.TBehind?)
    ensures Emit(t, s, i) == [] && (Peg(t, s, i).Succ? ==> Peg(t, s, i).pos == i)
  {
  }

  /** The code of a tree, started at any address that it was placed at, has the result
      of the tree. */
  lemma {:induction false} Correct(t: Tree, opt: bool, tt: Guard, fl: Charset, code: Code, s: Subject, a: nat, i: nat,
                                   stack: seq<Frame>, caps: seq<Capture>)
    requires WellFormed(t) && i <= |s| && CodeAt(code, a, Gen(t, opt, tt, fl))
    requires GuardHolds(tt, s, i) && LevelsOk(stack, |caps|)
    requires opt ==> fl == FULL_SET && |stack| > 0 && stack[|stack| - 1].s.At?
    ensures Outcome(code, s, Running(a, i, stack, caps), a + |Gen(t, opt, tt, fl)|, opt, fl, Peg(t, s, i),
                    stack, caps, Emit(t, s, i))
    decreases t, |s| - i, 2
  {
    hide Run, Reaches, FailTo, Step, CodeAt, LevelsOk, Outcome, Gen, GenChoice, GenRep, GenNot, GenAnd, GenCapture, SpanEnd,
         Peg, Emit, WellFormed, CanTest, First, IsCharset;
    var st := Running(a, i, stack, caps);
    var b := a + |Gen(t, opt, tt, fl)|;
    GenParts(t, opt, tt, fl);
    if t.TNot? || t.TAnd? || t.TBehind? { ZeroWidth(t, s, i); }
    match t
    case TSeq(_, _) => CorrectSeq(t, opt, tt, fl, code, s, a, i, stack, caps);
    case TChoice(p1, p2) =>
      if CanTest(p1, First(p2, fl)) {
        CorrectTestedChoice(t, opt, fl, code, s, a, i, stack, caps);
      } else if opt && p2.TTrue? {
        CorrectOptionalChoice(t, fl, code, s, a, i, stack, caps);
      } else {
        CorrectChoice(t, opt, fl, code, s, a, i, stack, caps);
      }
    case TRep(p) =>
      if IsCharset(p) {
        CorrectSpan(t, opt, fl, code, s, a, i, stack, caps);
      } else if CanTest(p, fl) {
        CorrectTestedRep(t, opt, fl, code, s, a, i, stack, caps);
      } else {
        CorrectChoiceRep(t, opt, fl, code, s, a, i, stack, caps);
      }
    case TNot(_) =>
      CorrectNot(t, code, s, a, i, stack, caps);
      PlainOutcome(code, s, st, b, opt, fl, Peg(t, s, i), stack, caps);
    case TAnd(_) =>
      CorrectAnd(t, tt, code, s, a, i, stack, caps);
      PlainOutcome(code, s, st, b, opt, fl, Peg(t, s, i), stack, caps);
    case TBehind(_, _) =>
      CorrectBehind(t, code, s, a, i, stack, caps);
      PlainOutcome(code, s, st, b, opt, fl, Peg(t, s, i), stack, caps);
    case TCapture(_, _, _) =>
      CorrectCapture(t, tt, fl, code, s, a, i, stack, caps);
      OutcomeOpt(code, s, st, b, opt, fl, Peg(t, s, i), stack, caps, Emit(t, s, i));
    case _ =>
      CorrectLeaf(t, opt, tt, fl, code, s, a, i, stack, caps);
      PlainOutcome(code, s, st, b, opt, fl, Peg(t, s, i), stack, caps);
  }

  lemma CorrectLeaf(t: Tree, opt: bool, tt: Guard, fl: Charset, code: Code, s: Subject, a: nat, i: nat,
                    stack: seq<Frame>, caps: seq<Capture>)
    requires t.TChar? || t.TSet? || t.TAny? || t.TTrue? || t.TFalse?
    requires i <= |s| && CodeAt(code, a, Gen(t, opt, tt, fl)) && GuardHolds(tt, s, i)
    ensures Emit(t, s, i) == []
    ensures Reaches(code, s, Running(a, i, stack, caps),
                    if Peg(t, s, i).Fail? then FailTo(stack, caps)
                    else Running(a + |Gen(t, opt, tt, fl)|, Peg(t, s, i).pos, stack, caps))
  {
    hide Run, Reaches, FailTo, Step, CodeAt;
    match t
    case TChar(c) => ExecCharset({c}, GenChar(c, tt), code, s, a, i, stack, caps, tt);
    case TSet(cs) => ExecCharset(cs, GenCharset(cs, tt), code, s, a, i, stack, caps, tt);
    case TAny => ExecCharset(FULL_SET, [Inst(IAny)], code, s, a, i, stack, caps, tt);
    case TTrue => ReachesSelf(code, s, Running(a, i, stack, caps));
    case TFalse => ExecPlain(IFail, code, s, a, i, stack, Frame(0, At(0), 0), caps);
  }

  lemma CorrectSpan(t: Tree, opt: bool, fl: Charset, code: Code, s: Subject, a: nat, i: nat,
                    stack: seq<Frame>, caps: seq<Capture>)
    requires t.TRep? && IsCharset(t.body) && WellFormed(t) && i <= |s| && CodeAt(code, a, GenRep(t, opt, fl))
    requires opt ==> |stack| > 0
    ensures Outcome(code, s, Running(a, i, stack, caps), a + |GenRep(t, opt, fl)|, opt, fl, Peg(t, s, i),
                    stack, caps, Emit(t, s, i))
  {
    hide Run, Reaches, FailTo, Step, CodeAt, OptExit;
    SpanPeg(t, s, i);
    assert caps + [] == caps;
    ExecSpan(ToCharset(t.body), code, s, a, i, stack, caps);
  }

  lemma FixedLenZero(p: Tree, s: Subject, i: nat)
    requires i <= |s| && WellFormed(p) && FixedLen(p) == 0 && Peg(p, s, i).Succ?
    ensures Peg(p, s, i).pos == i
  {
    FixedLenXSound(p, 0, s, i);
  }

  lemma SeqPeg(t: Tree, s: Subject, i: nat)
    requires t.TSeq? && i <= |s|
    ensures Peg(t.first, s, i).Fail? ==> Peg(t, s, i).Fail?
    ensures Peg(t.first, s, i).Succ? ==>
              var r2 := Peg(t.second, s, Peg(t.first, s, i).pos);
              && (Peg(t, s, i).Succ? <==> r2.Succ?)
              && (r2.Succ? ==> Peg(t, s, i).pos == r2.pos &&
                               Emit(t, s, i) == Emit(t.first, s, i) + Emit(t.second, s, Peg(t.first, s, i).pos))
  {
  }

  lemma {:induction false} CorrectSeq(t: Tree, opt: bool, tt: Guard, fl: Charset, code: Code, s: Subject, a: nat, i: nat,
                                      stack: seq<Frame>, caps: seq<Capture>)
    requires t.TSeq? && WellFormed(t) && i <= |s| && CodeAt(code, a, Gen(t, opt, tt, fl))
    requires GuardHolds(tt, s, i) && LevelsOk(stack, |caps|)
    requires opt ==> fl == FULL_SET && |stack| > 0 && stack[|stack| - 1].s.At?
    ensures Outcome(code, s, Running(a, i, stack, caps), a + |Gen(t, opt, tt, fl)|, opt, fl, Peg(t, s, i),
                    stack, caps, Emit(t, s, i))
    decreases t, |s| - i, 1
  {
    hide Run, Reaches, FailTo, Step, CodeAt, LevelsOk, Gen, WellFormed, Peg, Emit, FixedLen, First, NeedFollow, OptExit;
    var TSeq(p1, p2) := t;
    SeqCode(t, opt, tt, fl);
    SeqPeg(t, s, i);
    var st := Running(a, i, stack, caps);
    var fl1 := if NeedFollow(p1) then First(p2, fl) else FULL_SET;
    var tt2 := if FixedLen(p1) != 0 then NoGuard else tt;
    var g1, g2 := Gen(p1, false, tt, fl1), Gen(p2, opt, tt2, fl);
    CodeAtSplit(code, a, g1, g2);
    Correct(p1, false, tt, fl1, code, s, a, i, stack, caps);
    var r1 := Peg(p1, s, i);
    if r1.Succ? {
      var j, e1 := r1.pos, Emit(p1, s, i);
      var st1 := Running(a + |g1|, j, stack, caps + e1);
      if Reaches(code, s, st, st1) {
        if FixedLen(p1) == 0 { FixedLenZero(p1, s, i); }
        LevelsPush(stack, |caps|, |caps + e1|, Frame(0, NoPosition, 0));
        Correct(p2, opt, tt2, fl, code, s, a + |g1|, j, stack, caps + e1);
        OutcomeJoin(code, s, st, j, a + |g1|, a + |g1| + |g2|, opt, fl, Peg(p2, s, j), Peg(t, s, i),
                    stack, caps, e1, Emit(p2, s, j));
      } else {
        assert s[j] in FULL_SET;
        FirstSound(p2, fl, s, j);
      }
    }
  }

  lemma {:induction false} CorrectTestedChoice(t: Tree, opt: bool, fl: Charset, code: Code, s: Subject, a: nat, i: nat,
                                               stack: seq<Frame>, caps: seq<Capture>)
    requires t.TChoice? && WellFormed(t) && i <= |s| && CodeAt(code, a, GenChoice(t, opt, fl))
    requires CanTest(t.first, First(t.second, fl)) && LevelsOk(stack, |caps|)
    requires opt ==> fl == FULL_SET && |stack| > 0 && stack[|stack| - 1].s.At?
    ensures Outcome(code, s, Running(a, i, stack, caps), a + |GenChoice(t, opt, fl)|, opt, fl, Peg(t, s, i),
                    stack, caps, Emit(t, s, i))
    decreases t, |s| - i, 1
  {
    hide Run, Reaches, FailTo, Step, CodeAt, LevelsOk, OptExit, Gen, GenChoice, GenTest, First, AcceptsEmpty, WellFormed, CanTest, Peg, Emit;
    var TChoice(p1, p2) := t;
    TestedChoiceCode(t, opt, fl);
    ChoicePeg(t, s, i);
    var st := Running(a, i, stack, caps);
    var cs1 := First(p1, FULL_SET);
    var g1 := Gen(p1, false, GuardOf(cs1, false), fl);
    var g2 := Gen(p2, opt, NoGuard, fl);
    var jmp := if p2.TTrue? then [] else [Inst(IJmp), Offset(2 + |g2|)];
    var test := GenTest(cs1, false, |g1| + |jmp|);
    var a1 := a + |test|;
    var a2 := a1 + |g1|;
    var a3 := a2 + |jmp|;
    var b := a3 + |g2|;
    CodeAtSplit(code, a, test + g1 + jmp, g2);
    CodeAtSplit3(code, a, test, g1, jmp);
    ExecTest(code, s, a, cs1, |g1| + |jmp|, i, stack, caps);
    CanTestSound(p1, First(p2, fl), s, i);
    if i < |s| && s[i] in cs1 {
      Correct(p1, false, GuardOf(cs1, false), fl, code, s, a1, i, stack, caps);
      OutcomeAfter(code, s, st, Running(a1, i, stack, caps), a2, false, fl, Peg(p1, s, i), stack, caps, Emit(p1, s, i));
      if Peg(p1, s, i).Succ? {
        var j, caps' := Peg(p1, s, i).pos, caps + Emit(p1, s, i);
        if Reaches(code, s, st, Running(a2, j, stack, caps')) {
          SkipSecond(p2, opt, fl, code, s, st, a2, j, stack, caps');
        }
      } else {
        FirstSound(p2, fl, s, i);
      }
    } else {
      TestMeansFail(p1, s, i);
      Correct(p2, opt, NoGuard, fl, code, s, a3, i, stack, caps);
      OutcomeAfter(code, s, st, Running(a3, i, stack, caps), b, opt, fl, Peg(p2, s, i), stack, caps, Emit(p2, s, i));
    }
  }

  /** Behind the first part of a tested choice, a jump skips the second part, unless
      that part is empty. */
  lemma SkipSecond(p2: Tree, opt: bool, fl: Charset, code: Code, s: Subject, st: State, a: nat, j: nat,
                   stack: seq<Frame>, caps: seq<Capture>)
    requires WellFormed(p2) && j <= |s|
    requires !p2.TTrue? ==> CodeAt(code, a, [Inst(IJmp), Offset(2 + |Gen(p2, opt, NoGuard, fl)|)])
    requires Reaches(code, s, st, Running(a, j, stack, caps))
    ensures Reaches(code, s, st, Running(a + (if p2.TTrue? then 0 else 2) + |Gen(p2, opt, NoGuard, fl)|, j, stack, caps))
  {
    hide Run, Reaches, FailTo, Step, CodeAt, Gen;
    GenTrue(p2, opt, fl);
    if !p2.TTrue? {
      var n := 2 + |Gen(p2, opt, NoGuard, fl)|;
      ExecLabel(IJmp, n, code, s, a, j, stack, Frame(0, At(0), 0), caps);
      ReachesTrans(code, s, st, Running(a, j, stack, caps), Running(a + n, j, stack, caps));
    }
  }

  lemma {:induction false} CorrectOptionalChoice(t: Tree, fl: Charset, code: Code, s: Subject, a: nat, i: nat,
                                                 stack: seq<Frame>, caps: seq<Capture>)
    requires t.TChoice? && WellFormed(t) && i <= |s| && CodeAt(code, a, GenChoice(t, true, fl))
    requires !CanTest(t.first, First(t.second, fl)) && t.second.TTrue? && LevelsOk(stack, |caps|)
    requires |stack| > 0 && stack[|stack| - 1].s.At?
    ensures Outcome(code, s, Running(a, i, stack, caps), a + |GenChoice(t, true, fl)|, true, fl, Peg(t, s, i),
                    stack, caps, Emit(t, s, i))
    decreases t, |s| - i, 1
  {
    hide Run, Reaches, FailTo, Step, CodeAt, LevelsOk, Gen;
    GenTrue(t.second, true, fl);
    var p1 := t.first;
    var st := Running(a, i, stack, caps);
    var top := |stack| - 1;
    var enter := [Inst(IPartialCommit), Offset(2)];
    var g1 := Gen(p1, true, NoGuard, FULL_SET);
    var b := a + 2 + |g1|;
    CodeAtSplit(code, a, enter, g1);
    var f := Frame(stack[top].p, At(i), |caps|);
    var stack' := stack[..top] + [f];
    var st1 := Running(a + 2, i, stack', caps);
    assert stack == stack[..top] + [stack[top]];
    ExecLabel(IPartialCommit, 2, code, s, a, i, stack[..top], stack[top], caps);
    LevelsPop(stack, |caps|);
    LevelsPush(stack[..top], |caps|, |caps|, f);
    Correct(p1, true, NoGuard, FULL_SET, code, s, a + 2, i, stack', caps);
    assert stack'[..top] == stack[..top];
    if Peg(p1, s, i).Fail? {
      FailToTop(stack[..top], f.p, i, caps);
      assert caps + [] == caps;
      ReachesTrans(code, s, st, st1, FailTo(stack', caps));
    } else {
      var j, e := Peg(p1, s, i).pos, Emit(p1, s, i);
      if Reaches(code, s, st1, Running(b, j, stack', caps + e)) {
        ReachesTrans(code, s, st, st1, Running(b, j, stack', caps + e));
      } else {
        assert j < |s| ==> s[j] in FULL_SET;
        OptExitAfter(code, s, st, st1, b, j, stack', caps + e);
      }
    }
  }

  lemma ChoicePeg(t: Tree, s: Subject, i: nat)
    requires t.TChoice? && i <= |s|
    ensures Peg(t, s, i) == if Peg(t.first, s, i).Succ? then Peg(t.first, s, i) else Peg(t.second, s, i)
    ensures Emit(t, s, i) == if Peg(t.first, s, i).Succ? then Emit(t.first, s, i) else Emit(t.second, s, i)
  {
  }

  lemma {:induction false} CorrectChoice(t: Tree, opt: bool, fl: Charset, code: Code, s: Subject, a: nat, i: nat,
                                         stack: seq<Frame>, caps: seq<Capture>)
    requires t.TChoice? && WellFormed(t) && i <= |s| && CodeAt(code, a, GenChoice(t, opt, fl))
    requires !CanTest(t.first, First(t.second, fl)) && !(opt && t.second.TTrue?) && LevelsOk(stack, |caps|)
    requires opt ==> fl == FULL_SET && |stack| > 0 && stack[|stack| - 1].s.At?
    ensures Outcome(code, s, Running(a, i, stack, caps), a + |GenChoice(t, opt, fl)|, opt, fl, Peg(t, s, i),
                    stack, caps, Emit(t, s, i))
    decreases t, |s| - i, 1
  {
    hide Run, Reaches, FailTo, Step, CodeAt, LevelsOk, OptExit, Gen, GenChoice, GenTest, First, AcceptsEmpty, WellFormed, CanTest, Peg, Emit;
    var TChoice(p1, p2) := t;
    ChoiceCode(t, opt, fl);
    ChoicePeg(t, s, i);
    var st := Running(a, i, stack, caps);
    var cs1, e1 := First(p1, FULL_SET), AcceptsEmpty(p1);
    var g1 := Gen(p1, p2.TTrue?, GuardOf(cs1, e1), FULL_SET);
    var g2 := Gen(p2, opt, NoGuard, fl);
    var test := GenTest(cs1, e1, |g1| + 4);
    var choice := [Inst(IChoice), Offset(|g1| + 4)];
    var commit := [Inst(ICommit), Offset(2 + |g2|)];
    var ac := a + |test|;
    var am := ac + 2 + |g1|;
    var a2 := am + 2;
    var b := a2 + |g2|;
    CodeAtSplit3(code, a, test + choice + g1, commit, g2);
    CodeAtSplit3(code, a, test, choice, g1);
    ReachesSelf(code, s, st);
    if !e1 { ExecTest(code, s, a, cs1, |g1| + 4, i, stack, caps); }
    if !e1 && !(i < |s| && s[i] in cs1) {
      TestMeansFail(p1, s, i);
    } else {
      TryFirst(p1, p2, opt, fl, code, s, ac, i, stack, caps);
      ReachesTrans(code, s, st, Running(ac, i, stack, caps),
                   if Peg(p1, s, i).Fail? then Running(a2, i, stack, caps)
                   else Running(b, Peg(p1, s, i).pos, stack, caps + Emit(p1, s, i)));
    }
    if Peg(p1, s, i).Fail? {
      Correct(p2, opt, NoGuard, fl, code, s, a2, i, stack, caps);
      OutcomeAfter(code, s, st, Running(a2, i, stack, caps), b, opt, fl, Peg(p2, s, i), stack, caps, Emit(p2, s, i));
    }
  }

  /** The first part of a choice, under a choice point: on success the commit goes to
      the end, on failure the machine is at the second part. */
  lemma {:induction false} TryFirst(p1: Tree, p2: Tree, opt: bool, fl: Charset, code: Code, s: Subject, a: nat, i: nat,
                                    stack: seq<Frame>, caps: seq<Capture>)
    requires WellFormed(p1) && WellFormed(p2) && i <= |s| && LevelsOk(stack, |caps|)
    requires var cs1, e1 := First(p1, FULL_SET), AcceptsEmpty(p1);
             var g1 := Gen(p1, p2.TTrue?, GuardOf(cs1, e1), FULL_SET);
             GuardHolds(GuardOf(cs1, e1), s, i) &&
             CodeAt(code, a, [Inst(IChoice), Offset(|g1| + 4)]) && CodeAt(code, a + 2, g1) &&
             CodeAt(code, a + 2 + |g1|, [Inst(ICommit), Offset(2 + |Gen(p2, opt, NoGuard, fl)|)])
    ensures var cs1, e1 := First(p1, FULL_SET), AcceptsEmpty(p1);
            var a2 := a + 4 + |Gen(p1, p2.TTrue?, GuardOf(cs1, e1), FULL_SET)|;
            Reaches(code, s, Running(a, i, stack, caps),
                    if Peg(p1, s, i).Fail? then Running(a2, i, stack, caps)
                    else Running(a2 + |Gen(p2, opt, NoGuard, fl)|, Peg(p1, s, i).pos, stack, caps + Emit(p1, s, i)))
    decreases p1, |s| - i, 3
  {
    hide Run, Reaches, FailTo, Step, CodeAt, LevelsOk, OptExit, Gen, Emit, Peg, First, AcceptsEmpty, WellFormed;
    var cs1, e1 := First(p1, FULL_SET), AcceptsEmpty(p1);
    var tt := GuardOf(cs1, e1);
    GenTrue(p2, opt, fl);
    var g1 := Gen(p1, p2.TTrue?, tt, FULL_SET);
    var n := 2 + |Gen(p2, opt, NoGuard, fl)|;
    var am := a + 2 + |g1|;
    var st := Running(a, i, stack, caps);
    var f := Frame(am + 2, At(i), |caps|);
    var st1 := Running(a + 2, i, stack + [f], caps);
    ExecLabel(IChoice, |g1| + 4, code, s, a, i, stack, f, caps);
    LevelsPush(stack, |caps|, |caps|, f);
    Correct(p1, p2.TTrue?, tt, FULL_SET, code, s, a + 2, i, stack + [f], caps);
    FailToTop(stack, am + 2, i, caps);
    if Peg(p1, s, i).Fail? {
      ReachesTrans(code, s, st, st1, Running(am + 2, i, stack, caps));
    } else {
      var j, caps' := Peg(p1, s, i).pos, caps + Emit(p1, s, i);
      assert j < |s| ==> s[j] in FULL_SET;
      CommitExit(code, s, st1, am, n, j, stack, f, caps', p2.TTrue?);
      ReachesTrans(code, s, st, st1, Running(am + n, j, stack, caps'));
    }
  }

  /** However the first part of a choice succeeded, the commit behind it drops the
      choice and goes to the end. */
  lemma CommitExit(code: Code, s: Subject, st: State, am: nat, n: nat, j: nat,
                   stack: seq<Frame>, f0: Frame, caps: seq<Capture>, opt: bool)
    requires f0.s.At? && f0.p == am + 2 && j <= |s| && CodeAt(code, am, [Inst(ICommit), Offset(n)])
    requires opt ==> n == 2
    requires Reaches(code, s, st, Running(am, j, stack + [f0], caps)) ||
             (opt && OptExit(code, s, st, am, j, stack + [f0], caps))
    ensures Reaches(code, s, st, Running(am + n, j, stack, caps))
  {
    hide Run, Reaches, FailTo, Step, CodeAt;
    assert (stack + [f0])[..|stack|] == stack;
    if !Reaches(code, s, st, Running(am + n, j, stack, caps)) {
      var f := f0;
      if !Reaches(code, s, st, Running(am, j, stack + [f0], caps)) {
        f :| f.s.At? && Reaches(code, s, st, Running(am, j, stack + [f], caps));
      }
      ExecLabel(ICommit, n, code, s, am, j, stack, f, caps);
      ReachesTrans(code, s, st, Running(am, j, stack + [f], caps), Running(am + n, j, stack, caps));
    }
  }

  lemma {:induction false} SpanPeg(t: Tree, s: Subject, i: nat)
    requires t.TRep? && IsCharset(t.body) && i <= |s|
    ensures Peg(t, s, i) == Succ(SpanEnd(ToCharset(t.body), s, i), []) && Emit(t, s, i) == []
    decreases |s| - i
  {
    assert i < |s| ==> s[i] in FULL_SET;
    if i < |s| && s[i] in ToCharset(t.body) { SpanPeg(t, s, i + 1); }
  }

  lemma RepMore(t: Tree, s: Subject, i: nat)
    requires t.TRep? && i <= |s| && Peg(t.body, s, i).Succ? && i < Peg(t.body, s, i).pos
    ensures var j := Peg(t.body, s, i).pos;
            && Peg(t, s, i).Succ? && Peg(t, s, j).Succ? && Peg(t, s, i).pos == Peg(t, s, j).pos
            && Emit(t, s, i) == Emit(t.body, s, i) + Emit(t, s, j)
  {
  }

  lemma {:induction false} CorrectTestedRep(t: Tree, opt: bool, fl: Charset, code: Code, s: Subject, a: nat, i: nat,
                                            stack: seq<Frame>, caps: seq<Capture>)
    requires t.TRep? && WellFormed(t) && i <= |s| && CodeAt(code, a, GenRep(t, opt, fl)) && LevelsOk(stack, |caps|)
    requires !IsCharset(t.body) && CanTest(t.body, fl)
    requires opt ==> |stack| > 0 && stack[|stack| - 1].s.At?
    ensures Outcome(code, s, Running(a, i, stack, caps), a + |GenRep(t, opt, fl)|, opt, fl, Peg(t, s, i),
                    stack, caps, Emit(t, s, i))
    decreases t, |s| - i, 1
  {
    hide Run, Reaches, FailTo, Step, CodeAt, LevelsOk, Gen, GenRep, GenTest, First, CanTest, WellFormed, Peg, Emit, OptExit;
    var p := t.body;
    TestedRepCode(t, opt, fl);
    var set1 := First(p, FULL_SET);
    var g := Gen(p, false, GuardOf(set1, false), FULL_SET);
    var test := GenTest(set1, false, |g| + 2);
    var back := -(|test| + |g|);
    var a1 := a + |test|;
    var aj := a1 + |g|;
    CodeAtSplit3(code, a, test, g, [Inst(IJmp), Offset(back)]);
    var st := Running(a, i, stack, caps);
    ExecTest(code, s, a, set1, |g| + 2, i, stack, caps);
    CanTestSound(p, fl, s, i);
    if i < |s| && s[i] in set1 {
      var st1 := Running(a1, i, stack, caps);
      Correct(p, false, GuardOf(set1, false), FULL_SET, code, s, a1, i, stack, caps);
      OutcomeAfter(code, s, st, st1, aj, false, FULL_SET, Peg(p, s, i), stack, caps, Emit(p, s, i));
      if Peg(p, s, i).Fail? {
        RepStops(t, s, i);
      } else {
        var j, e := Peg(p, s, i).pos, Emit(p, s, i);
        assert j < |s| ==> s[j] in FULL_SET;
        NullableSound(p, s, i);
        RepMore(t, s, i);
        ExecLabel(IJmp, back, code, s, aj, j, stack, Frame(0, At(0), 0), caps + e);
        ReachesTrans(code, s, st, Running(aj, j, stack, caps + e), Running(a, j, stack, caps + e));
        LevelsPush(stack, |caps|, |caps + e|, Frame(0, NoPosition, 0));
        CorrectTestedRep(t, opt, fl, code, s, a, j, stack, caps + e);
        OutcomeJoin(code, s, st, j, a, aj + 2, opt, fl, Peg(t, s, j), Peg(t, s, i), stack, caps, e, Emit(t, s, j));
      }
    } else {
      TestMeansFail(p, s, i);
      RepStops(t, s, i);
      assert caps + [] == caps;
    }
  }

  /** The loop of a repetition that keeps its choice point up to date: it ends by
      failing into that choice, at the end of the repetition. */
  lemma {:induction false} RepLoop(t: Tree, code: Code, s: Subject, a: nat, i: nat, exit: int,
                                   stack: seq<Frame>, caps: seq<Capture>)
    requires t.TRep? && WellFormed(t) && i <= |s| && LevelsOk(stack, |caps|)
    requires var g := Gen(t.body, false, NoGuard, FULL_SET);
             CodeAt(code, a, g) && CodeAt(code, a + |g|, [Inst(IPartialCommit), Offset(-|g|)])
    ensures Reaches(code, s, Running(a, i, stack + [Frame(exit, At(i), |caps|)], caps),
                    Running(exit, Peg(t, s, i).pos, stack, caps + Emit(t, s, i)))
    decreases t, |s| - i, 0
  {
    hide Run, Reaches, FailTo, Step, CodeAt, LevelsOk, Gen, OptExit;
    var p := t.body;
    var g := Gen(p, false, NoGuard, FULL_SET);
    var ap := a + |g|;
    var f := Frame(exit, At(i), |caps|);
    var st := Running(a, i, stack + [f], caps);
    LevelsPush(stack, |caps|, |caps|, f);
    Correct(p, false, NoGuard, FULL_SET, code, s, a, i, stack + [f], caps);
    if Peg(p, s, i).Fail? {
      FailToTop(stack, exit, i, caps);
      assert caps + [] == caps;
    } else {
      var j, e := Peg(p, s, i).pos, Emit(p, s, i);
      assert j < |s| ==> s[j] in FULL_SET;
      NullableSound(p, s, i);
      var st1 := Running(a, j, stack + [Frame(exit, At(j), |caps + e|)], caps + e);
      ExecLabel(IPartialCommit, -|g|, code, s, ap, j, stack, f, caps + e);
      ReachesTrans(code, s, st, Running(ap, j, stack + [f], caps + e), st1);
      LevelsPush(stack, |caps|, |caps + e|, f);
      RepLoop(t, code, s, a, j, exit, stack, caps + e);
      assert (caps + e) + Emit(t, s, j) == caps + Emit(t, s, i);
      ReachesTrans(code, s, st, st1, Running(exit, Peg(t, s, i).pos, stack, caps + Emit(t, s, i)));
    }
  }

  /** The way into the loop: a new choice point, or the one of the optional pattern. */
  lemma EnterRep(opt: bool, n: nat, code: Code, s: Subject, a: nat, i: nat, stack: seq<Frame>, caps: seq<Capture>,
                 exit: int, rest: seq<Frame>)
    requires i <= |s| && LevelsOk(stack, |caps|)
    requires CodeAt(code, a, if opt then [Inst(IPartialCommit), Offset(2)] else [Inst(IChoice), Offset(n)])
    requires if opt then |stack| > 0 && stack[|stack| - 1].s.At? && rest == stack[..|stack| - 1] && exit == stack[|stack| - 1].p
             else rest == stack && exit == a + n
    ensures Reaches(code, s, Running(a, i, stack, caps), Running(a + 2, i, rest + [Frame(exit, At(i), |caps|)], caps))
    ensures LevelsOk(rest, |caps|)
  {
    hide Run, Reaches, FailTo, Step, CodeAt, LevelsOk;
    if opt {
      assert stack == rest + [stack[|stack| - 1]];
      LevelsPop(stack, |caps|);
      ExecLabel(IPartialCommit, 2, code, s, a, i, rest, stack[|stack| - 1], caps);
    } else {
      ExecLabel(IChoice, n, code, s, a, i, stack, Frame(0, At(0), 0), caps);
    }
  }

  lemma RepStops(t: Tree, s: Subject, i: nat)
    requires t.TRep? && i <= |s| && Peg(t.body, s, i).Fail?
    ensures Peg(t, s, i) == Succ(i, []) && Emit(t, s, i) == []
  {
  }

  lemma {:induction false} CorrectChoiceRep(t: Tree, opt: bool, fl: Charset, code: Code, s: Subject, a: nat, i: nat,
                                            stack: seq<Frame>, caps: seq<Capture>)
    requires t.TRep? && WellFormed(t) && i <= |s| && CodeAt(code, a, GenRep(t, opt, fl)) && LevelsOk(stack, |caps|)
    requires !IsCharset(t.body) && !CanTest(t.body, fl)
    requires opt ==> |stack| > 0 && stack[|stack| - 1].s.At?
    ensures Outcome(code, s, Running(a, i, stack, caps), a + |GenRep(t, opt, fl)|, opt, fl, Peg(t, s, i),
                    stack, caps, Emit(t, s, i))
    decreases t, |s| - i, 1
  {
    hide Run, Reaches, FailTo, Step, CodeAt, LevelsOk, Gen, GenRep, GenTest, First, AcceptsEmpty, WellFormed, Peg, Emit;
    var p := t.body;
    RepCode(t, opt, fl);
    var set1, e1 := First(p, FULL_SET), AcceptsEmpty(p);
    var g := Gen(p, false, NoGuard, FULL_SET);
    var test := GenTest(set1, e1, |g| + 4);
    var enter := if opt then [Inst(IPartialCommit), Offset(2)] else [Inst(IChoice), Offset(|g| + 4)];
    var ae := a + |test|;
    var b := ae + |g| + 4;
    CodeAtSplit(code, a, test + enter + g, [Inst(IPartialCommit), Offset(-|g|)]);
    CodeAtSplit3(code, a, test, enter, g);
    var st := Running(a, i, stack, caps);
    ReachesSelf(code, s, st);
    if !e1 { ExecTest(code, s, a, set1, |g| + 4, i, stack, caps); }
    if !e1 && !(i < |s| && s[i] in set1) {
      TestMeansFail(p, s, i);
      RepStops(t, s, i);
      assert caps + [] == caps;
    } else {
      var top := |stack| - 1;
      var rest, exit := if opt then stack[..top] else stack, if opt then stack[top].p else b;
      var ste, st1 := Running(ae, i, stack, caps), Running(ae + 2, i, rest + [Frame(exit, At(i), |caps|)], caps);
      EnterRep(opt, |g| + 4, code, s, ae, i, stack, caps, exit, rest);
      ReachesTrans(code, s, st, ste, st1);
      RepLoop(t, code, s, ae + 2, i, exit, rest, caps);
      ReachesTrans(code, s, st, st1, Running(exit, Peg(t, s, i).pos, rest, caps + Emit(t, s, i)));
    }
  }

  lemma {:induction false} CorrectNot(t: Tree, code: Code, s: Subject, a: nat, i: nat, stack: seq<Frame>, caps: seq<Capture>)
    requires t.TNot? && WellFormed(t) && i <= |s| && CodeAt(code, a, GenNot(t)) && LevelsOk(stack, |caps|)
    ensures Reaches(code, s, Running(a, i, stack, caps),
                    if Peg(t, s, i).Fail? then FailTo(stack, caps) else Running(a + |GenNot(t)|, i, stack, caps))
    decreases t, |s| - i, 1
  {
    hide Run, Reaches, FailTo, Step, CodeAt, LevelsOk, Gen;
    var p := t.body;
    var (set1, e) := GetFirst(p, FULL_SET);
    var g := Gen(p, false, NoGuard, FULL_SET);
    var size := if HeadFail(p) then 1 else |g| + 3;
    var test := GenTest(set1, e, size);
    var a1 := a + |test|;
    if HeadFail(p) {
      HeadFailSound(p, s, i);
      CodeAtSplit(code, a, test, [Inst(IFail)]);
    } else {
      CodeAtSplit(code, a, test + [Inst(IChoice), Offset(|g| + 3)] + g, [Inst(IFailTwice)]);
      CodeAtSplit3(code, a, test, [Inst(IChoice), Offset(|g| + 3)], g);
    }
    var st, st1 := Running(a, i, stack, caps), Running(a1, i, stack, caps);
    ReachesSelf(code, s, st);
    if !e { ExecTest(code, s, a, set1, size, i, stack, caps); }
    if !e && !(i < |s| && s[i] in set1) {
      TestMeansFail(p, s, i);
    } else if HeadFail(p) {
      ExecPlain(IFail, code, s, a1, i, stack, Frame(0, At(0), 0), caps);
      ReachesTrans(code, s, st, st1, FailTo(stack, caps));
    } else {
      NotByChoice(t, code, s, a1, i, stack, caps);
      ReachesTrans(code, s, st, st1,
                   if Peg(t, s, i).Fail? then FailTo(stack, caps) else Running(a1 + size, i, stack, caps));
    }
  }

  lemma {:induction false} NotByChoice(t: Tree, code: Code, s: Subject, a: nat, i: nat, stack: seq<Frame>, caps: seq<Capture>)
    requires t.TNot? && WellFormed(t) && i <= |s| && LevelsOk(stack, |caps|)
    requires var g := Gen(t.body, false, NoGuard, FULL_SET);
             CodeAt(code, a, [Inst(IChoice), Offset(|g| + 3)]) && CodeAt(code, a + 2, g) &&
             CodeAt(code, a + 2 + |g|, [Inst(IFailTwice)])
    ensures Reaches(code, s, Running(a, i, stack, caps),
                    if Peg(t, s, i).Fail? then FailTo(stack, caps)
                    else Running(a + |Gen(t.body, false, NoGuard, FULL_SET)| + 3, i, stack, caps))
    decreases t, |s| - i, 0
  {
    hide Run, Reaches, FailTo, Step, CodeAt, LevelsOk, Gen, OptExit;
    var p := t.body;
    var g := Gen(p, false, NoGuard, FULL_SET);
    var b := a + |g| + 3;
    var f := Frame(b, At(i), |caps|);
    var st := Running(a, i, stack, caps);
    var st1 := Running(a + 2, i, stack + [f], caps);
    ExecLabel(IChoice, |g| + 3, code, s, a, i, stack, f, caps);
    LevelsPush(stack, |caps|, |caps|, f);
    Correct(p, false, NoGuard, FULL_SET, code, s, a + 2, i, stack + [f], caps);
    if Peg(p, s, i).Fail? {
      FailToTop(stack, b, i, caps);
      ReachesTrans(code, s, st, st1, Running(b, i, stack, caps));
    } else {
      var j, e := Peg(p, s, i).pos, Emit(p, s, i);
      assert j < |s| ==> s[j] in FULL_SET;
      var stf := Running(a + 2 + |g|, j, stack + [f], caps + e);
      ReachesTrans(code, s, st, st1, stf);
      ExecPlain(IFailTwice, code, s, a + 2 + |g|, j, stack, f, caps + e);
      FailToPrefix(stack, caps, e);
      ReachesTrans(code, s, st, stf, FailTo(stack, caps));
    }
  }

  lemma {:induction false} CorrectAnd(t: Tree, tt: Guard, code: Code, s: Subject, a: nat, i: nat, stack: seq<Frame>, caps: seq<Capture>)
    requires t.TAnd? && WellFormed(t) && i <= |s| && CodeAt(code, a, GenAnd(t, tt))
    requires GuardHolds(tt, s, i) && LevelsOk(stack, |caps|)
    ensures Reaches(code, s, Running(a, i, stack, caps),
                    if Peg(t, s, i).Fail? then FailTo(stack, caps) else Running(a + |GenAnd(t, tt)|, i, stack, caps))
    decreases t, |s| - i, 1
  {
    hide Run, Reaches, FailTo, Step, CodeAt, LevelsOk, Gen, OptExit, GetFirst, HeadFail, CheckAux, FixedLenX, HasCaptures, NeedFollow;
    var p := t.body;
    var n := FixedLen(p);
    var g := Gen(p, false, tt, FULL_SET);
    if 0 <= n <= MAX_BEHIND && !HasCaptures(p) {
      var st := Running(a, i, stack, caps);
      var back := if n > 0 then [Inst(IBehind(n))] else [];
      CodeAtSplit(code, a, g, back);
      Correct(p, false, tt, FULL_SET, code, s, a, i, stack, caps);
      if Peg(p, s, i).Succ? {
        var j := Peg(p, s, i).pos;
        assert j < |s| ==> s[j] in FULL_SET;
        FixedLenXSound(p, 0, s, i);
        EmitNone(p, s, i);
        assert caps + [] == caps;
        if n > 0 {
          ExecPlain(IBehind(n), code, s, a + |g|, j, stack, Frame(0, At(0), 0), caps);
          ReachesTrans(code, s, st, Running(a + |g|, j, stack, caps), Running(a + |g| + 1, i, stack, caps));
        }
      }
    } else {
      CodeAtSplit3(code, a, [Inst(IChoice), Offset(|g| + 4)], g, [Inst(IBackCommit), Offset(3), Inst(IFail)]);
      AndByChoice(t, tt, code, s, a, i, stack, caps);
    }
  }

  lemma {:induction false} AndByChoice(t: Tree, tt: Guard, code: Code, s: Subject, a: nat, i: nat, stack: seq<Frame>, caps: seq<Capture>)
    requires t.TAnd? && WellFormed(t) && i <= |s| && GuardHolds(tt, s, i) && LevelsOk(stack, |caps|)
    requires var g := Gen(t.body, false, tt, FULL_SET);
             CodeAt(code, a, [Inst(IChoice), Offset(|g| + 4)]) && CodeAt(code, a + 2, g) &&
             CodeAt(code, a + 2 + |g|, [Inst(IBackCommit), Offset(3), Inst(IFail)])
    ensures Reaches(code, s, Running(a, i, stack, caps),
                    if Peg(t, s, i).Fail? then FailTo(stack, caps)
                    else Running(a + |Gen(t.body, false, tt, FULL_SET)| + 5, i, stack, caps))
    decreases t, |s| - i, 0
  {
    hide Run, Reaches, FailTo, Step, CodeAt, LevelsOk, Gen, OptExit;
    var p := t.body;
    var g := Gen(p, false, tt, FULL_SET);
    var ab := a + 2 + |g|;
    assert [Inst(IBackCommit), Offset(3), Inst(IFail)] == [Inst(IBackCommit), Offset(3)] + [Inst(IFail)];
    CodeAtSplit(code, ab, [Inst(IBackCommit), Offset(3)], [Inst(IFail)]);
    var f := Frame(ab + 2, At(i), |caps|);
    var st := Running(a, i, stack, caps);
    var st1 := Running(a + 2, i, stack + [f], caps);
    ExecLabel(IChoice, |g| + 4, code, s, a, i, stack, f, caps);
    LevelsPush(stack, |caps|, |caps|, f);
    Correct(p, false, tt, FULL_SET, code, s, a + 2, i, stack + [f], caps);
    if Peg(p, s, i).Fail? {
      var stf := Running(ab + 2, i, stack, caps);
      FailToTop(stack, ab + 2, i, caps);
      ReachesTrans(code, s, st, st1, stf);
      ExecPlain(IFail, code, s, ab + 2, i, stack, f, caps);
      ReachesTrans(code, s, st, stf, FailTo(stack, caps));
    } else {
      var j, e := Peg(p, s, i).pos, Emit(p, s, i);
      assert j < |s| ==> s[j] in FULL_SET;
      var stb := Running(ab, j, stack + [f], caps + e);
      ReachesTrans(code, s, st, st1, stb);
      ExecLabel(IBackCommit, 3, code, s, ab, j, stack, f, caps + e);
      assert (caps + e)[..|caps|] == caps;
      ReachesTrans(code, s, st, stb, Running(ab + 3, i, stack, caps));
    }
  }

  lemma {:induction false} CorrectBehind(t: Tree, code: Code, s: Subject, a: nat, i: nat, stack: seq<Frame>, caps: seq<Capture>)
    requires t.TBehind? && WellFormed(t) && i <= |s| && LevelsOk(stack, |caps|)
    requires CodeAt(code, a, (if t.n > 0 then [Inst(IBehind(t.n))] else []) + Gen(t.body, false, NoGuard, FULL_SET))
    ensures Reaches(code, s, Running(a, i, stack, caps),
                    if Peg(t, s, i).Fail? then FailTo(stack, caps)
                    else Running(a + (if t.n > 0 then 1 else 0) + |Gen(t.body, false, NoGuard, FULL_SET)|, i, stack, caps))
    decreases t, |s| - i, 1
  {
    hide Run, Reaches, FailTo, Step, CodeAt, LevelsOk, Gen, OptExit, GetFirst, HeadFail, CheckAux, FixedLenX, HasCaptures, NeedFollow;
    var TBehind(n, p) := t;
    var back := if n > 0 then [Inst(IBehind(n))] else [];
    var g := Gen(p, false, NoGuard, FULL_SET);
    var st := Running(a, i, stack, caps);
    CodeAtSplit(code, a, back, g);
    ReachesSelf(code, s, st);
    if n > 0 { ExecPlain(IBehind(n), code, s, a, i, stack, Frame(0, At(0), 0), caps); }
    if n <= i {
      var st1 := Running(a + |back|, i - n, stack, caps);
      Correct(p, false, NoGuard, FULL_SET, code, s, a + |back|, i - n, stack, caps);
      var r := Peg(p, s, i - n);
      if r.Succ? {
        assert r.pos < |s| ==> s[r.pos] in FULL_SET;
        FixedLenXSound(p, 0, s, i - n);
        EmitNone(p, s, i - n);
        assert caps + [] == caps;
        ReachesTrans(code, s, st, st1, Running(a + |back| + |g|, i, stack, caps));
      } else {
        ReachesTrans(code, s, st, st1, FailTo(stack, caps));
      }
    }
  }

  lemma {:induction false} CorrectCapture(t: Tree, tt: Guard, fl: Charset, code: Code, s: Subject, a: nat, i: nat,
                                          stack: seq<Frame>, caps: seq<Capture>)
    requires t.TCapture? && WellFormed(t) && i <= |s| && CodeAt(code, a, GenCapture(t, tt, fl))
    requires GuardHolds(tt, s, i) && LevelsOk(stack, |caps|)
    ensures Outcome(code, s, Running(a, i, stack, caps), a + |GenCapture(t, tt, fl)|, false, fl, Peg(t, s, i),
                    stack, caps, Emit(t, s, i))
    decreases t, |s| - i, 1
  {
    hide Run, Reaches, FailTo, Step, CodeAt, LevelsOk, Gen, OptExit;
    if IsFullCapture(t.body) {
      CorrectFullCapture(t, tt, fl, code, s, a, i, stack, caps);
    } else {
      CorrectOpenCapture(t, tt, fl, code, s, a, i, stack, caps);
    }
  }

  lemma {:induction false} CorrectFullCapture(t: Tree, tt: Guard, fl: Charset, code: Code, s: Subject, a: nat, i: nat,
                                              stack: seq<Frame>, caps: seq<Capture>)
    requires t.TCapture? && IsFullCapture(t.body) && WellFormed(t) && i <= |s| && CodeAt(code, a, GenCapture(t, tt, fl))
    requires GuardHolds(tt, s, i) && LevelsOk(stack, |caps|)
    ensures Outcome(code, s, Running(a, i, stack, caps), a + |GenCapture(t, tt, fl)|, false, fl, Peg(t, s, i),
                    stack, caps, Emit(t, s, i))
    decreases t, |s| - i, 0
  {
    hide Run, Reaches, FailTo, Step, CodeAt, LevelsOk, Gen, OptExit;
    var TCapture(cap, key, p) := t;
    var g := Gen(p, false, tt, fl);
    var full := IFullCapture(JoinKindOff(cap, FixedLen(p)), key);
    CodeAtSplit(code, a, g, [Inst(full)]);
    Correct(p, false, tt, fl, code, s, a, i, stack, caps);
    FixedLenXSound(p, 0, s, i);
    EmitNone(p, s, i);
    assert caps + [] == caps;
    if Peg(p, s, i).Succ? {
      var st, j := Running(a, i, stack, caps), Peg(p, s, i).pos;
      if Reaches(code, s, st, Running(a + |g|, j, stack, caps)) {
        ExecPlain(full, code, s, a + |g|, j, stack, Frame(0, At(0), 0), caps);
        ReachesTrans(code, s, st, Running(a + |g|, j, stack, caps), Running(a + |g| + 1, j, stack, caps + Emit(t, s, i)));
      }
    }
  }

  lemma CapturePeg(t: Tree, s: Subject, i: nat)
    requires t.TCapture? && i <= |s| && !IsFullCapture(t.body)
    ensures var r := Peg(t.body, s, i);
            && (Peg(t, s, i).Succ? <==> r.Succ?)
            && (r.Succ? ==> Peg(t, s, i).pos == r.pos &&
                            Emit(t, s, i) == CloseCapture([Item(t.cap, t.key, i, 0)] + Emit(t.body, s, i), r.pos))
  {
  }

  lemma {:induction false} CorrectOpenCapture(t: Tree, tt: Guard, fl: Charset, code: Code, s: Subject, a: nat, i: nat,
                                              stack: seq<Frame>, caps: seq<Capture>)
    requires t.TCapture? && !IsFullCapture(t.body) && WellFormed(t) && i <= |s| && CodeAt(code, a, GenCapture(t, tt, fl))
    requires GuardHolds(tt, s, i) && LevelsOk(stack, |caps|)
    ensures Outcome(code, s, Running(a, i, stack, caps), a + |GenCapture(t, tt, fl)|, false, fl, Peg(t, s, i),
                    stack, caps, Emit(t, s, i))
    decreases t, |s| - i, 0
  {
    hide Run, Reaches, FailTo, Step, CodeAt, LevelsOk, Gen, GenCapture, OptExit, IsFullCapture, WellFormed, Peg, Emit, CloseCapture;
    var TCapture(cap, key, p) := t;
    CaptureCode(t, tt, fl);
    CapturePeg(t, s, i);
    var g := Gen(p, false, tt, fl);
    var open, close := IOpenCapture(JoinKindOff(cap, 0), key), ICloseCapture(JoinKindOff(0, 0), 0);
    var f := Frame(0, At(0), 0);
    var item := Item(cap, key, i, 0);
    var st, st1 := Running(a, i, stack, caps), Running(a + 1, i, stack, caps + [item]);
    CodeAtSplit3(code, a, [Inst(open)], g, [Inst(close)]);
    ExecPlain(open, code, s, a, i, stack, f, caps);
    LevelsPush(stack, |caps|, |caps + [item]|, f);
    Correct(p, false, tt, fl, code, s, a + 1, i, stack, caps + [item]);
    OutcomeAfter(code, s, st, st1, a + 1 + |g|, false, fl, Peg(p, s, i), stack, caps + [item], Emit(p, s, i));
    FailToPrefix(stack, caps, [item]);
    if Peg(p, s, i).Succ? {
      var j, own := Peg(p, s, i).pos, [item] + Emit(p, s, i);
      var stc := Running(a + 1 + |g|, j, stack, caps + own);
      assert (caps + [item]) + Emit(p, s, i) == caps + own;
      if Reaches(code, s, st, stc) {
        ExecPlain(close, code, s, a + 1 + |g|, j, stack, f, caps + own);
        CloseInner(caps, own, j);
        ReachesTrans(code, s, st, stc, Running(a + |g| + 2, j, stack, caps + Emit(t, s, i)));
      }
    }
  }

  lemma CloseInner(caps: seq<Capture>, own: seq<Capture>, at: nat)
    requires |own| > 0
    ensures CloseCapture(caps + own, at) == caps + CloseCapture(own, at)
  {
  }

  lemma PatternCode(t: Tree)
    requires WellFormed(t)
    ensures var g := Gen(t, false, NoGuard, FULL_SET);
            CodeAt(GenPattern(t), 0, g) && CodeAt(GenPattern(t), |g|, [Inst(IEnd)])
  {
    hide Gen;
    assert CodeAt(GenPattern(t), 0, GenPattern(t));
    CodeAtSplit(GenPattern(t), 0, Gen(t, false, NoGuard, FULL_SET), [Inst(IEnd)]);
  }

  /** When the first choice fails, the machine gives up. */
  lemma GivesUp(code: Code, s: Subject, i: nat, st: State)
    requires i <= |s| && Reaches(code, s, st, FailTo(Start(i).stack, []))
    ensures Reaches(code, s, st, GaveUp)
  {
    hide Run, Reaches;
    var st1 := Running(GIVE_UP, i, [], []);
    FailToTop([], GIVE_UP, i, []);
    assert [] + Start(i).stack == Start(i).stack;
    Exec(code, s, st1, GaveUp);
    ReachesTrans(code, s, st, st1, GaveUp);
  }

  /** The code of a pattern, run on any subject from any position, stops, with the
      result of the pattern: its end position and captures, or failure. */
  lemma PatternCorrect(t: Tree, s: Subject, i: nat)
    requires WellFormed(t) && i <= |s|
    ensures Reaches(GenPattern(t), s, Start(i),
                    if Peg(t, s, i).Fail? then GaveUp else Matched(Peg(t, s, i).pos, Emit(t, s, i)))
  {
    hide Run, Reaches, Gen, GenPattern, Peg, Emit, OptExit, Step, FailTo, CodeAt;
    var code := GenPattern(t);
    var g := Gen(t, false, NoGuard, FULL_SET);
    var st := Start(i);
    PatternCode(t);
    Correct(t, false, NoGuard, FULL_SET, code, s, 0, i, st.stack, []);
    var r := Peg(t, s, i);
    if r.Fail? {
      GivesUp(code, s, i, st);
    } else {
      assert r.pos < |s| ==> s[r.pos] in FULL_SET;
      assert [] + Emit(t, s, i) == Emit(t, s, i);
      var st1 := Running(|g|, r.pos, st.stack, Emit(t, s, i));
      ExecPlain(IEnd, code, s, |g|, r.pos, st.stack, Frame(0, At(0), 0), Emit(t, s, i));
      ReachesTrans(code, s, st, st1, Matched(r.pos, Emit(t, s, i)));
    }
  }
}
