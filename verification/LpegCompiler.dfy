/** The code generator as it runs: a growing code array into which labels are patched
    once their destinations are known. Every method is proved against `LpegCode`. */
module LpegCompiler {
  import opened LpegTree
  import opened LpegAnalysis
  import opened LpegMachine
  import opened LpegCode

  const NO_INST: int := -1   // "no instruction", for tests and jumps that were not made

  /** The test instruction at address `tt`, as the code behind it sees it. */
  function GuardAt(code: Code, tt: int): Guard
    requires IsTest(code, tt)
  {
    if tt < 0 then NoGuard
    else
      match code[tt].op
      case ITestChar(c) => TestedChar(c)
      case ITestSet => TestedSet(code[tt + 2].cs)
      case _ => OtherTest
  }

  predicate IsTest(code: Code, tt: int) {
    tt < 0 || (tt < |code| && code[tt].Inst? && (code[tt].op.ITestSet? ==> BitsAt(code, tt + 2)))
  }

  /** `GenTest` with a given offset. */
  function TestSlots(cs: Charset, off: int): (r: Code)
    ensures |r| == TestSize(cs, false) && r[0].Inst? && |r| >= 2
    ensures r[1] == Offset(off)
  {
    match CharsetType(cs)
    case Empty => [Inst(IJmp), Offset(off)]
    case Full => [Inst(ITestAny), Offset(off)]
    case Singleton(c) => [Inst(ITestChar(c)), Offset(off)]
    case General => [Inst(ITestSet), Offset(off)] + CharsetSlots(cs)
  }

  /** `jumptothere`: the code after patching the label of an instruction, if there is one. */
  function Patched(code: Code, instruction: int, target: int): (r: Code)
    requires instruction >= 0 ==> instruction + 1 < |code|
    ensures |r| == |code|
  {
    if instruction >= 0 then code[instruction + 1 := Offset(target - instruction)] else code
  }

  lemma PatchedNone(code: Code, target: int)
    ensures Patched(code, NO_INST, target) == code
  {
  }

  /** The test for a set whose label was not patched yet. */
  function RawTest(cs: Charset, e: bool): Code {
    if e then [] else TestSlots(cs, 0)
  }

  lemma PatchMid(a: Code, b: Code, c: Code, k: nat, slot: Slot)
    requires k < |b|
    ensures (a + b + c)[|a| + k := slot] == a + b[k := slot] + c
  {
  }

  lemma Assoc(a: Code, b: Code, c: Code)
    ensures (a + b) + c == a + (b + c)
  {
  }

  lemma Assoc4(a: Code, b: Code, c: Code, d: Code)
    ensures a + b + c + d == a + (b + c + d)
  {
  }

  lemma Assoc5(a: Code, b: Code, c: Code, d: Code, e: Code)
    ensures a + b + c + d + e == a + (b + c + d + e)
  {
  }

  /** Patching the label of an instruction behind `a`. */
  lemma PatchLabel(a: Code, op: Opcode, off: int, c: Code)
    ensures (a + [Inst(op), Offset(0)] + c)[|a| + 1 := Offset(off)] == a + [Inst(op), Offset(off)] + c
  {
    PatchMid(a, [Inst(op), Offset(0)], c, 1, Offset(off));
    assert [Inst(op), Offset(0)][1 := Offset(off)] == [Inst(op), Offset(off)];
  }

  /** Patching the label of a test behind `a` to jump over what comes next. */
  lemma PatchTest(a: Code, cs: Charset, c: Code, skip: nat)
    ensures (a + TestSlots(cs, 0) + c)[|a| + 1 := Offset(TestSize(cs, false) + skip)] == a + GenTest(cs, false, skip) + c
  {
    PatchMid(a, TestSlots(cs, 0), c, 1, Offset(TestSize(cs, false) + skip));
    assert TestSlots(cs, 0)[1 := Offset(TestSize(cs, false) + skip)] == GenTest(cs, false, skip);
  }

  /** The same when there may be no test. */
  lemma PatchTest'(a: Code, cs: Charset, e: bool, c: Code)
    ensures var code := a + RawTest(cs, e) + c;
            Patched(code, if e then NO_INST else |a|, |code|) == a + GenTest(cs, e, |c|) + c
  {
    hide TestSlots, GenTest, CharsetType;
    if !e {
      PatchTest(a, cs, c, |c|);
    }
  }

  // The layouts: the code array after all patches is the code of the construct.

  lemma TestedChoiceLayout(pre: Code, cs: Charset, g1: Code, g2: Code, skip: bool)
    ensures var gap := if skip then [Inst(IJmp), Offset(0)] else [];
            var c1 := pre + TestSlots(cs, 0) + g1 + gap;
            var c2 := Patched(c1, |pre|, |c1|) + g2;
            Patched(c2, if skip then |pre + TestSlots(cs, 0) + g1| else NO_INST, |c2|) ==
            pre + (GenTest(cs, false, |g1| + |gap|) + g1 +
                   (if skip then [Inst(IJmp), Offset(2 + |g2|)] else []) + g2)
  {
    hide TestSlots, GenTest, CharsetType;
    var gap := if skip then [Inst(IJmp), Offset(0)] else [];
    var jmp := if skip then [Inst(IJmp), Offset(2 + |g2|)] else [];
    var test := GenTest(cs, false, |g1| + |gap|);
    var c1 := pre + TestSlots(cs, 0) + g1 + gap;
    Assoc(pre + TestSlots(cs, 0), g1, gap);
    PatchTest(pre, cs, g1 + gap, |g1| + |gap|);
    Assoc(pre + test, g1, gap);
    if skip { PatchLabel(pre + test + g1, IJmp, 2 + |g2|, g2); }
    Assoc5(pre, test, g1, jmp, g2);
  }

  lemma OptionalLayout(pre: Code, g1: Code)
    ensures Patched(pre + [Inst(IPartialCommit), Offset(0)], |pre|, |pre| + 2) + g1 ==
            pre + ([Inst(IPartialCommit), Offset(2)] + g1)
  {
    PatchLabel(pre, IPartialCommit, 2, []);
    assert pre + [Inst(IPartialCommit), Offset(0)] + [] == pre + [Inst(IPartialCommit), Offset(0)];
  }

  lemma ChoiceLayout(pre: Code, cs: Charset, e: bool, g1: Code, g2: Code)
    ensures var at := |pre + RawTest(cs, e)|;
            var c1 := pre + RawTest(cs, e) + [Inst(IChoice), Offset(0)] + g1 + [Inst(ICommit), Offset(0)];
            var c2 := Patched(c1, at, |c1|);
            var c3 := Patched(c2, if e then NO_INST else |pre|, |c2|) + g2;
            Patched(c3, |c1| - 2, |c3|) ==
            pre + (GenTest(cs, e, |g1| + 4) + [Inst(IChoice), Offset(|g1| + 4)] + g1 + [Inst(ICommit), Offset(2 + |g2|)] + g2)
  {
    hide TestSlots, GenTest, CharsetType, RawTest;
    var raw := pre + RawTest(cs, e);
    var choice0, choice := [Inst(IChoice), Offset(0)], [Inst(IChoice), Offset(|g1| + 4)];
    var commit0, commit := [Inst(ICommit), Offset(0)], [Inst(ICommit), Offset(2 + |g2|)];
    var test := GenTest(cs, e, |g1| + 4);
    var c1 := raw + choice0 + g1 + commit0;
    Assoc(raw + choice0, g1, commit0);
    PatchLabel(raw, IChoice, |g1| + 4, g1 + commit0);
    Assoc(raw + choice, g1, commit0);
    Assoc4(raw, choice, g1, commit0);
    PatchTest'(pre, cs, e, choice + g1 + commit0);
    Assoc4(pre + test, choice, g1, commit0);
    PatchLabel(pre + test + choice + g1, ICommit, 2 + |g2|, g2);
    Assoc5(pre, test, choice, g1, commit);
    Assoc(pre, test + choice + g1 + commit, g2);
  }

  lemma AndLayout(pre: Code, g: Code)
    ensures var c1 := pre + [Inst(IChoice), Offset(0)] + g + [Inst(IBackCommit), Offset(0)];
            var c2 := Patched(c1, |pre|, |c1|) + [Inst(IFail)];
            Patched(c2, |c1| - 2, |c2|) ==
            pre + ([Inst(IChoice), Offset(|g| + 4)] + g + [Inst(IBackCommit), Offset(3), Inst(IFail)])
  {
    var choice0, choice := [Inst(IChoice), Offset(0)], [Inst(IChoice), Offset(|g| + 4)];
    var back0, back := [Inst(IBackCommit), Offset(0)], [Inst(IBackCommit), Offset(3)];
    Assoc(pre + choice0, g, back0);
    PatchLabel(pre, IChoice, |g| + 4, g + back0);
    Assoc(pre + choice, g, back0);
    PatchLabel(pre + choice + g, IBackCommit, 3, [Inst(IFail)]);
    Assoc5(pre, choice, g, back, [Inst(IFail)]);
    Assoc(choice + g, back, [Inst(IFail)]);
    assert back + [Inst(IFail)] == [Inst(IBackCommit), Offset(3), Inst(IFail)];
  }

  lemma TestedRepLayout(pre: Code, cs: Charset, g: Code)
    ensures var c1 := pre + TestSlots(cs, 0) + g + [Inst(IJmp), Offset(0)];
            Patched(Patched(c1, |pre|, |c1|), |c1| - 2, |pre|) ==
            pre + (GenTest(cs, false, |g| + 2) + g + [Inst(IJmp), Offset(-(TestSize(cs, false) + |g|))])
  {
    hide TestSlots, GenTest, CharsetType;
    var test := GenTest(cs, false, |g| + 2);
    var jmp0, jmp := [Inst(IJmp), Offset(0)], [Inst(IJmp), Offset(-(TestSize(cs, false) + |g|))];
    Assoc(pre + TestSlots(cs, 0), g, jmp0);
    PatchTest(pre, cs, g + jmp0, |g| + 2);
    Assoc(pre + test, g, jmp0);
    PatchLabel(pre + test + g, IJmp, -(TestSize(cs, false) + |g|), []);
    assert pre + test + g + jmp0 + [] == pre + test + g + jmp0;
    assert pre + test + g + jmp + [] == pre + test + g + jmp;
    Assoc4(pre, test, g, jmp);
  }

  /** The loop of a repetition, once its first instruction `enter` has its label. */
  lemma LoopLayout(raw: Code, enter: Code, g: Code)
    ensures var c1 := raw + enter + g + [Inst(IPartialCommit), Offset(0)];
            Patched(c1, |c1| - 2, |raw + enter|) == raw + (enter + g + [Inst(IPartialCommit), Offset(-|g|)])
  {
    var again := [Inst(IPartialCommit), Offset(-|g|)];
    PatchLabel(raw + enter + g, IPartialCommit, -|g|, []);
    assert raw + enter + g + [Inst(IPartialCommit), Offset(0)] + [] == raw + enter + g + [Inst(IPartialCommit), Offset(0)];
    assert raw + enter + g + again + [] == raw + enter + g + again;
    Assoc4(raw, enter, g, again);
  }

  lemma OptRepLayout(pre: Code, cs: Charset, e: bool, g: Code)
    ensures var c0 := pre + RawTest(cs, e) + [Inst(IPartialCommit), Offset(0)];
            var c1 := Patched(c0, |pre + RawTest(cs, e)|, |c0|) + g + [Inst(IPartialCommit), Offset(0)];
            var c2 := Patched(c1, |c1| - 2, |c0|);
            Patched(c2, if e then NO_INST else |pre|, |c2|) ==
            pre + (GenTest(cs, e, |g| + 4) + [Inst(IPartialCommit), Offset(2)] + g + [Inst(IPartialCommit), Offset(-|g|)])
  {
    hide TestSlots, GenTest, CharsetType, RawTest;
    var raw := pre + RawTest(cs, e);
    var enter := [Inst(IPartialCommit), Offset(2)];
    var again := [Inst(IPartialCommit), Offset(-|g|)];
    PatchLabel(raw, IPartialCommit, 2, []);
    assert raw + [Inst(IPartialCommit), Offset(0)] + [] == raw + [Inst(IPartialCommit), Offset(0)];
    assert raw + enter + [] == raw + enter;
    LoopLayout(raw, enter, g);
    PatchTest'(pre, cs, e, enter + g + again);
    Assoc5(pre, GenTest(cs, e, |g| + 4), enter, g, again);
    Assoc4(pre + GenTest(cs, e, |g| + 4), enter, g, again);
  }

  lemma ChoiceRepLayout(pre: Code, cs: Charset, e: bool, g: Code)
    ensures var at := |pre + RawTest(cs, e)|;
            var c0 := pre + RawTest(cs, e) + [Inst(IChoice), Offset(0)];
            var c1 := c0 + g + [Inst(IPartialCommit), Offset(0)];
            var c2 := Patched(c1, |c1| - 2, |c0|);
            var c3 := Patched(c2, at, |c2|);
            Patched(c3, if e then NO_INST else |pre|, |c3|) ==
            pre + (GenTest(cs, e, |g| + 4) + [Inst(IChoice), Offset(|g| + 4)] + g + [Inst(IPartialCommit), Offset(-|g|)])
  {
    hide TestSlots, GenTest, CharsetType, RawTest;
    var raw := pre + RawTest(cs, e);
    var choice0, choice := [Inst(IChoice), Offset(0)], [Inst(IChoice), Offset(|g| + 4)];
    var again := [Inst(IPartialCommit), Offset(-|g|)];
    LoopLayout(raw, choice0, g);
    Assoc4(raw, choice0, g, again);
    Assoc(raw + choice0, g, again);
    PatchLabel(raw, IChoice, |g| + 4, g + again);
    Assoc(raw + choice, g, again);
    Assoc4(raw, choice, g, again);
    PatchTest'(pre, cs, e, choice + g + again);
    Assoc5(pre, GenTest(cs, e, |g| + 4), choice, g, again);
    Assoc4(pre + GenTest(cs, e, |g| + 4), choice, g, again);
  }

  lemma NotLayout(pre: Code, cs: Charset, e: bool, g: Code)
    ensures var at := |pre + RawTest(cs, e)|;
            var c1 := pre + RawTest(cs, e) + [Inst(IChoice), Offset(0)] + g + [Inst(IFailTwice)];
            var c2 := Patched(c1, at, |c1|);
            Patched(c2, if e then NO_INST else |pre|, |c2|) ==
            pre + (GenTest(cs, e, |g| + 3) + [Inst(IChoice), Offset(|g| + 3)] + g + [Inst(IFailTwice)])
  {
    hide TestSlots, GenTest, CharsetType, RawTest;
    var raw := pre + RawTest(cs, e);
    var test := GenTest(cs, e, |g| + 3);
    var choice0, choice := [Inst(IChoice), Offset(0)], [Inst(IChoice), Offset(|g| + 3)];
    Assoc(raw + choice0, g, [Inst(IFailTwice)]);
    PatchLabel(raw, IChoice, |g| + 3, g + [Inst(IFailTwice)]);
    Assoc(raw, choice, g + [Inst(IFailTwice)]);
    PatchTest'(pre, cs, e, choice + (g + [Inst(IFailTwice)]));
    Assoc(pre, test, choice + (g + [Inst(IFailTwice)]));
    Assoc(test, choice, g + [Inst(IFailTwice)]);
    Assoc(test + choice, g, [Inst(IFailTwice)]);
  }

  lemma BehindCode(t: Tree)
    requires t.TBehind? && WellFormed(t)
    ensures WellFormed(t.body) && t.n < 256
    ensures Gen(t, false, NoGuard, FULL_SET) ==
            (if t.n > 0 then [Inst(IBehind(t.n))] else []) + Gen(t.body, false, NoGuard, FULL_SET)
  {
    hide GenChoice, GenRep, GenNot, GenAnd, GenCapture, GetFirst, HeadFail, CheckAux, FixedLenX, HasCaptures;
  }

  lemma GuardKept(pre: Code, post: Code, tt: int)
    requires IsTest(pre, tt)
    ensures IsTest(pre + post, tt) && GuardAt(pre + post, tt) == GuardAt(pre, tt)
  {
  }

  class CompileState {
    var code: Code

    constructor ()
      ensures code == []
    {
      code := [];
    }

    method AddInstruction(op: Opcode) returns (i: int)
      modifies this
      ensures i == |old(code)| && code == old(code) + [Inst(op)]
    {
      i := |code|;
      code := code + [Inst(op)];
    }

    method AddOffsetInst(op: Opcode) returns (i: int)
      modifies this
      ensures i == |old(code)| && code == old(code) + [Inst(op), Offset(0)]
    {
      i := AddInstruction(op);
      code := code + [Offset(0)];
    }

    method AddCharset(cs: Charset)
      modifies this
      ensures code == old(code) + CharsetSlots(cs)
    {
      code := code + CharsetSlots(cs);
    }

    method JumpToThere(instruction: int, target: int)
      requires instruction >= 0 ==> instruction + 1 < |code|
      modifies this
      ensures code == Patched(old(code), instruction, target)
    {
      if instruction >= 0 {
        code := code[instruction + 1 := Offset(target - instruction)];
      }
    }

    method JumpToHere(instruction: int)
      requires instruction >= 0 ==> instruction + 1 < |code|
      modifies this
      ensures code == Patched(old(code), instruction, |old(code)|)
    {
      JumpToThere(instruction, |code|);
    }

    method CodeChar(c: Byte, tt: int)
      requires IsTest(code, tt)
      modifies this
      ensures code == old(code) + GenChar(c, GuardAt(old(code), tt))
    {
      if tt >= 0 && code[tt].op == ITestChar(c) {
        var _ := AddInstruction(IAny);
      } else {
        var _ := AddInstruction(IChar(c));
      }
    }

    method CodeCharset(cs: Charset, tt: int)
      requires IsTest(code, tt)
      modifies this
      ensures code == old(code) + GenCharset(cs, GuardAt(old(code), tt))
    {
      match CharsetType(cs)
      case Singleton(c) => CodeChar(c, tt);
      case General =>
        if tt >= 0 && code[tt].op == ITestSet && cs == code[tt + 2].cs {
          var _ := AddInstruction(IAny);
        } else {
          var _ := AddInstruction(ISet);
          AddCharset(cs);
        }
      case Empty => var _ := AddInstruction(IFail);
      case Full => var _ := AddInstruction(IAny);
    }

    /** Makes a test whose label is still to be patched; none when `e`. */
    method CodeTestSet(cs: Charset, e: bool) returns (i: int)
      modifies this
      ensures i == (if e then NO_INST else |old(code)|) && code == old(code) + RawTest(cs, e)
      ensures IsTest(code, i) && GuardAt(code, i) == GuardOf(cs, e)
    {
      if e {
        assert code == code + [];
        return NO_INST;
      }
      ghost var pre := code;
      match CharsetType(cs)
      case Empty => i := AddOffsetInst(IJmp);
      case Full => i := AddOffsetInst(ITestAny);
      case Singleton(c) =>
        i := AddOffsetInst(ITestChar(c));
      case General =>
        i := AddOffsetInst(ITestSet);
        AddCharset(cs);
        assert code[|pre| + 2] == Bits(cs);
    }

    method CodeBehind(t: Tree)
      requires t.TBehind? && WellFormed(t)
      modifies this
      ensures code == old(code) + Gen(t, false, NoGuard, FULL_SET)
      decreases t, 0
    {
      hide Gen, WellFormed, FixedLenX, HasCaptures, CheckAux;
      BehindCode(t);
      if t.n > 0 { var _ := AddInstruction(IBehind(t.n)); }
      CodeGen(t.body, false, NO_INST, FULL_SET);
    }

    method CodeChoice(t: Tree, opt: bool, fl: Charset)
      requires t.TChoice? && WellFormed(t)
      modifies this
      ensures code == old(code) + GenChoice(t, opt, fl)
      decreases t, 1
    {
      hide GenChoice;
      var TChoice(p1, p2) := t;
      var (cs1, e1) := GetFirst(p1, FULL_SET);
      if HeadFail(p1) || (!e1 && cs1 !! First(p2, fl)) {
        CodeTestedChoice(t, opt, fl);
      } else if opt && p2.TTrue? {
        CodeOptional(t, fl);
      } else {
        CodeFullChoice(t, opt, fl);
      }
    }

    /** test (fail(p1)) -> L1; p1; jmp L2; L1: p2; L2: */
    method CodeTestedChoice(t: Tree, opt: bool, fl: Charset)
      requires t.TChoice? && WellFormed(t) && CanTest(t.first, First(t.second, fl))
      modifies this
      ensures code == old(code) + GenChoice(t, opt, fl)
      decreases t, 0
    {
      hide Patched, Gen, GenTest, TestSlots, GuardOf, CharsetType, CharsetSlots, GenChoice, CanTest, WellFormed;
      var TChoice(p1, p2) := t;
      TestedChoiceCode(t, opt, fl);
      var emptyp2 := p2.TTrue?;
      var cs1 := First(p1, FULL_SET);
      ghost var pre := code;
      var test := CodeTestSet(cs1, false);
      var jmp := NO_INST;
      CodeGen(p1, false, test, fl);
      if !emptyp2 { jmp := AddOffsetInst(IJmp); } else { assert code + [] == code; }
      JumpToHere(test);
      CodeGen(p2, opt, NO_INST, fl);
      JumpToHere(jmp);
      TestedChoiceLayout(pre, cs1, Gen(p1, false, GuardOf(cs1, false), fl), Gen(p2, opt, NoGuard, fl), !emptyp2);
    }

    /** p1? == partialcommit; p1 */
    method CodeOptional(t: Tree, fl: Charset)
      requires t.TChoice? && t.second.TTrue? && WellFormed(t) && !CanTest(t.first, First(t.second, fl))
      modifies this
      ensures code == old(code) + GenChoice(t, true, fl)
      decreases t, 0
    {
      hide Patched, Gen, CanTest;
      ghost var pre := code;
      var i := AddOffsetInst(IPartialCommit);
      JumpToHere(i);
      CodeGen(t.first, true, NO_INST, FULL_SET);
      OptionalLayout(pre, Gen(t.first, true, NoGuard, FULL_SET));
    }

    /** test (first(p1)) -> L1; choice L1; p1; commit L2; L1: p2; L2: */
    method CodeFullChoice(t: Tree, opt: bool, fl: Charset)
      requires t.TChoice? && WellFormed(t)
      requires !CanTest(t.first, First(t.second, fl)) && !(opt && t.second.TTrue?)
      modifies this
      ensures code == old(code) + GenChoice(t, opt, fl)
      decreases t, 0
    {
      hide Patched, Gen, GenTest, TestSlots, RawTest, GuardOf, CharsetType, CharsetSlots, GenChoice, CanTest, WellFormed;
      hide GetFirst, HeadFail, CheckAux, FixedLenX, HasCaptures;
      var TChoice(p1, p2) := t;
      ChoiceCode(t, opt, fl);
      var emptyp2 := p2.TTrue?;
      var (cs1, e1) := GetFirst(p1, FULL_SET);
      ghost var pre := code;
      var test := CodeTestSet(cs1, e1);
      GuardKept(code, [Inst(IChoice), Offset(0)], test);
      var pchoice := AddOffsetInst(IChoice);
      CodeGen(p1, emptyp2, test, FULL_SET);
      var pcommit := AddOffsetInst(ICommit);
      JumpToHere(pchoice);
      JumpToHere(test);
      CodeGen(p2, opt, NO_INST, fl);
      JumpToHere(pcommit);
      ChoiceLayout(pre, cs1, e1, Gen(p1, emptyp2, GuardOf(cs1, e1), FULL_SET), Gen(p2, opt, NoGuard, fl));
    }

    method CodeAnd(t: Tree, tt: int)
      requires t.TAnd? && WellFormed(t) && IsTest(code, tt)
      modifies this
      ensures code == old(code) + GenAnd(t, GuardAt(old(code), tt))
      decreases t, 0
    {
      hide Patched, Gen, FixedLenX, HasCaptures, GenRep, GenNot, GenChoice, GenCapture;
      var p := t.body;
      var n := FixedLen(p);
      ghost var pre, guard := code, GuardAt(code, tt);
      ghost var g := Gen(p, false, guard, FULL_SET);
      if n >= 0 && n <= MAX_BEHIND && !HasCaptures(p) {
        CodeGen(p, false, tt, FULL_SET);
        if n > 0 { var _ := AddInstruction(IBehind(n)); }
      } else {
        var pchoice := AddOffsetInst(IChoice);
        GuardKept(pre, [Inst(IChoice), Offset(0)], tt);
        CodeGen(p, false, tt, FULL_SET);
        var pcommit := AddOffsetInst(IBackCommit);
        JumpToHere(pchoice);
        var _ := AddInstruction(IFail);
        JumpToHere(pcommit);
        AndLayout(pre, g);
      }
    }

    method CodeCapture(t: Tree, tt: int, fl: Charset)
      requires t.TCapture? && WellFormed(t) && IsTest(code, tt)
      modifies this
      ensures code == old(code) + GenCapture(t, GuardAt(old(code), tt), fl)
      decreases t, 0
    {
      hide Gen, GenCapture, WellFormed, FixedLenX, HasCaptures, GetKind, GetOff, JoinKindOff, GuardAt;
      CaptureCode(t, GuardAt(code, tt), fl);
      var TCapture(cap, key, p) := t;
      var len := FixedLen(p);
      ghost var pre := code;
      if len >= 0 && len <= MAX_OFF && !HasCaptures(p) {
        CodeGen(p, false, tt, fl);
        var _ := AddInstruction(IFullCapture(JoinKindOff(cap, len), key));
      } else {
        var _ := AddInstruction(IOpenCapture(JoinKindOff(cap, 0), key));
        GuardKept(pre, [Inst(IOpenCapture(JoinKindOff(cap, 0), key))], tt);
        CodeGen(p, false, tt, fl);
        var _ := AddInstruction(ICloseCapture(JoinKindOff(0, 0), 0));
      }
    }

    method CodeRep(t: Tree, opt: bool, fl: Charset)
      requires t.TRep? && WellFormed(t)
      modifies this
      ensures code == old(code) + GenRep(t, opt, fl)
      decreases t, 1
    {
      hide Gen, GenTest, GuardOf, CharsetType, CharsetSlots;
      var p := t.body;
      if IsCharset(p) {
        var _ := AddInstruction(ISpan);
        AddCharset(ToCharset(p));
      } else {
        var (st, e1) := GetFirst(p, FULL_SET);
        if HeadFail(p) || (!e1 && st !! fl) {
          CodeTestedRep(t, opt, fl);
        } else {
          CodeChoiceRep(t, opt, fl);
        }
      }
    }

    /** L1: test (fail(p)) -> L2; p; jmp L1; L2: */
    method CodeTestedRep(t: Tree, opt: bool, fl: Charset)
      requires t.TRep? && WellFormed(t) && !IsCharset(t.body) && CanTest(t.body, fl)
      modifies this
      ensures code == old(code) + GenRep(t, opt, fl)
      decreases t, 0
    {
      hide Patched, Gen, GenTest, TestSlots, GuardOf, CharsetType, CharsetSlots, GenRep, CanTest, WellFormed;
      var p := t.body;
      TestedRepCode(t, opt, fl);
      var st := First(p, FULL_SET);
      ghost var pre := code;
      var test := CodeTestSet(st, false);
      CodeGen(p, false, test, FULL_SET);
      var jmp := AddOffsetInst(IJmp);
      JumpToHere(test);
      JumpToThere(jmp, test);
      TestedRepLayout(pre, st, Gen(p, false, GuardOf(st, false), FULL_SET));
    }

    /** test (fail(p)) -> L2; choice L2; L1: p; partialcommit L1; L2:
        or, if opt: ...; partialcommit L1; L1: p; partialcommit L1; L2: */
    method CodeChoiceRep(t: Tree, opt: bool, fl: Charset)
      requires t.TRep? && WellFormed(t) && !IsCharset(t.body) && !CanTest(t.body, fl)
      modifies this
      ensures code == old(code) + GenRep(t, opt, fl)
      decreases t, 0
    {
      hide Patched, Gen, GenTest, TestSlots, RawTest, GuardOf, CharsetType, CharsetSlots, GenRep, CanTest, WellFormed;
      hide GetFirst, HeadFail, CheckAux, FixedLenX, HasCaptures;
      var p := t.body;
      RepCode(t, opt, fl);
      var (st, e1) := GetFirst(p, FULL_SET);
      ghost var pre := code;
      var test := CodeTestSet(st, e1);
      var pchoice := NO_INST;
      if opt {
        var i := AddOffsetInst(IPartialCommit);
        JumpToHere(i);
      } else {
        pchoice := AddOffsetInst(IChoice);
      }
      var l2 := |code|;
      CodeGen(p, false, NO_INST, FULL_SET);
      var commit := AddOffsetInst(IPartialCommit);
      JumpToThere(commit, l2);
      PatchedNone(code, |code|);
      JumpToHere(pchoice);
      JumpToHere(test);
      if opt {
        OptRepLayout(pre, st, e1, Gen(p, false, NoGuard, FULL_SET));
      } else {
        ChoiceRepLayout(pre, st, e1, Gen(p, false, NoGuard, FULL_SET));
      }
    }

    method CodeNot(t: Tree)
      requires t.TNot? && WellFormed(t)
      modifies this
      ensures code == old(code) + GenNot(t)
      decreases t, 0
    {
      hide Patched, Gen, GenTest, TestSlots, GuardOf, CharsetType, CharsetSlots, GenChoice, GenRep, GenAnd, GenCapture;
      var p := t.body;
      var (st, e) := GetFirst(p, FULL_SET);
      ghost var pre := code;
      var test := CodeTestSet(st, e);
      if HeadFail(p) {
        var _ := AddInstruction(IFail);
        PatchTest'(pre, st, e, [Inst(IFail)]);
        Assoc(pre, GenTest(st, e, 1), [Inst(IFail)]);
        JumpToHere(test);
      } else {
        var pchoice := AddOffsetInst(IChoice);
        CodeGen(p, false, NO_INST, FULL_SET);
        var _ := AddInstruction(IFailTwice);
        JumpToHere(pchoice);
        NotLayout(pre, st, e, Gen(p, false, NoGuard, FULL_SET));
        JumpToHere(test);
      }
    }

    /** Codes the first part of a sequence, and returns the test that still protects
        the second part. */
    method CodeSeq1(p1: Tree, p2: Tree, tt: int, fl: Charset) returns (tt2: int)
      requires WellFormed(p1) && IsTest(code, tt)
      modifies this
      ensures code == old(code) + Gen(p1, false, GuardAt(old(code), tt), if NeedFollow(p1) then First(p2, fl) else FULL_SET)
      ensures tt2 == if FixedLen(p1) != 0 then NO_INST else tt
      decreases p1, 3
    {
      if NeedFollow(p1) {
        CodeGen(p1, false, tt, First(p2, fl));
      } else {
        CodeGen(p1, false, tt, FULL_SET);
      }
      tt2 := if FixedLen(p1) != 0 then NO_INST else tt;
    }

    method CodeGen(t: Tree, opt: bool, tt: int, fl: Charset)
      requires WellFormed(t) && IsTest(code, tt)
      modifies this
      ensures code == old(code) + Gen(t, opt, GuardAt(old(code), tt), fl)
      decreases t, 2
    {
      hide GenChoice, GenRep, GenNot, GenAnd, GenCapture, GenCharset, GenChar;
      match t
      case TChar(c) => CodeChar(c, tt);
      case TAny => var _ := AddInstruction(IAny);
      case TSet(cs) => CodeCharset(cs, tt);
      case TTrue =>
      case TFalse => var _ := AddInstruction(IFail);
      case TChoice(_, _) => CodeChoice(t, opt, fl);
      case TRep(_) => CodeRep(t, opt, fl);
      case TBehind(_, _) => CodeBehind(t);
      case TNot(_) => CodeNot(t);
      case TAnd(_) => CodeAnd(t, tt);
      case TCapture(_, _, _) => CodeCapture(t, tt, fl);
      case TSeq(p1, p2) =>
        ghost var pre := code;
        var tt2 := CodeSeq1(p1, p2, tt, fl);
        GuardKept(pre, code[|pre|..], tt);
        CodeGen(p2, opt, tt2, fl);
    }
  }
}
