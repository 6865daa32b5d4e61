/** The interpreter loop, compilation, and matching with a compiled pattern. */
module LpegMatch {
  import opened LpegTree
  import opened LpegAnalysis
  import opened LpegMachine
  import opened LpegCode
  import opened LpegCompiler
  import opened LpegPeephole
  import opened LpegLinked
  import opened LpegCorrect
  import opened LpegFlat

  lemma RunStep(code: Code, s: Subject, st: State, n: nat)
    requires st.Running? && Halted(Run(code, s, st, n))
    ensures n > 0 && Step(code, s, st) != Stuck
    ensures Run(code, s, st, n) == Run(code, s, Step(code, s, st), n - 1)
  {
    if n > 0 && Step(code, s, st) == Stuck { HaltedStays(code, s, Stuck, n - 1); }
  }

  /** The loop of ISpan. */
  method SkipSpan(cs: Charset, s: Subject, start: nat) returns (i: nat)
    requires start <= |s|
    ensures i == SpanEnd(cs, s, start)
  {
    i := start;
    while i < |s| && s[i] in cs
      invariant i <= |s| && SpanEnd(cs, s, i) == SpanEnd(cs, s, start)
    {
      i := i + 1;
    }
  }

  /** The `fail` label: remove pending calls, and resume the choice below them. */
  method Backtrack(stack0: seq<Frame>, caps0: seq<Capture>)
    returns (p: int, i: nat, stack: seq<Frame>, caps: seq<Capture>)
    requires FailTo(stack0, caps0) != Stuck
    ensures Running(p, i, stack, caps) == FailTo(stack0, caps0)
  {
    var top := stack0[|stack0| - 1];
    stack := stack0[..|stack0| - 1];
    assert stack + [top] == stack0;
    while top.s.NoPosition?
      invariant FailTo(stack + [top], caps0) == FailTo(stack0, caps0)
      decreases |stack|
    {
      assert (stack + [top])[..|stack|] == stack;
      top := stack[|stack| - 1];
      assert stack == stack[..|stack| - 1] + [top];
      stack := stack[..|stack| - 1];
    }
    assert (stack + [top])[..|stack|] == stack;
    p, i, caps := top.p, top.s.pos, caps0[..top.caplevel];
  }

  /** One round of the interpreter loop, for all opcodes but IEnd. */
  method Round(code: Code, s: Subject, p0: int, i0: nat, stack0: seq<Frame>, caps0: seq<Capture>)
    returns (p: int, i: nat, stack: seq<Frame>, caps: seq<Capture>)
    requires i0 <= |s| && InstAt(code, p0) && !code[p0].op.IEnd?
    requires Step(code, s, Running(p0, i0, stack0, caps0)) != Stuck
    ensures Running(p, i, stack, caps) == Step(code, s, Running(p0, i0, stack0, caps0))
  {
    hide FailTo, SpanEnd, CloseCapture;
    p, i, stack, caps := p0, i0, stack0, caps0;
    var op, n, top := code[p].op, |s|, |stack| - 1;
    var failed := false;
    match op {
      case IAny => if i < n { p, i := p + 1, i + 1; } else { failed := true; }
      case ITestAny => if i < n { p := p + 2; } else { p := Target(code, p); }
      case IChar(c) => if i < n && s[i] == c { p, i := p + 1, i + 1; } else { failed := true; }
      case ITestChar(c) => if i < n && s[i] == c { p := p + 2; } else { p := Target(code, p); }
      case ISet =>
        if i < n && s[i] in code[p + 1].cs { p, i := p + CHARSET_INST_SIZE, i + 1; } else { failed := true; }
      case ITestSet =>
        if i < n && s[i] in code[p + 2].cs { p := p + 1 + CHARSET_INST_SIZE; } else { p := Target(code, p); }
      case IBehind(back) => if back > i { failed := true; } else { p, i := p + 1, i - back; }
      case ISpan =>
        i := SkipSpan(code[p + 1].cs, s, i);
        p := p + CHARSET_INST_SIZE;
      case IJmp => p := Target(code, p);
      case IChoice => p, stack := p + 2, stack + [Frame(Target(code, p), At(i), |caps|)];
      case ICall => p, stack := Target(code, p), stack + [Frame(p + 2, NoPosition, 0)];
      case IRet => p, stack := stack[top].p, stack[..top];
      case ICommit => p, stack := Target(code, p), stack[..top];
      case IPartialCommit => p, stack := Target(code, p), stack[..top] + [Frame(stack[top].p, At(i), |caps|)];
      case IBackCommit =>
        p, i, caps, stack := Target(code, p), stack[top].s.pos, caps[..stack[top].caplevel], stack[..top];
      case IFailTwice =>
        stack := stack[..top];
        failed := true;
      case IFail => failed := true;
      case IFullCapture(aux, key) =>
        caps := caps + [Item(GetKind(aux), key, i - GetOff(aux), GetOff(aux) + 1)];
        p := p + 1;
      case IOpenCapture(aux, key) =>
        caps := caps + [Item(GetKind(aux), key, i, 0)];
        p := p + 1;
      case ICloseCapture(_, _) =>
        caps := CloseCapture(caps, i);
        p := p + 1;
    }
    if failed {
      p, i, stack, caps := Backtrack(stack, caps);
    }
  }

  /** `match`: the opcode interpreter. It stops because the code has a halting run, of
      `n` steps. */
  method Interpret(code: Code, s: Subject, start: nat, ghost n: nat) returns (found: bool, end: nat, captures: seq<Capture>)
    requires start <= |s| && Halted(Run(code, s, Start(start), n))
    ensures Run(code, s, Start(start), n) == if found then Matched(end, captures) else GaveUp
  {
    hide Run, FailTo, SpanEnd, CloseCapture;
    ghost var final := Run(code, s, Start(start), n);
    var p, i, stack, caps := 0, start, [Frame(GIVE_UP, At(start), 0)], [];
    ghost var k := n;
    while true
      invariant Run(code, s, Running(p, i, stack, caps), k) == final
      decreases k
    {
      RunStep(code, s, Running(p, i, stack, caps), k);
      if p == GIVE_UP {
        HaltedStays(code, s, GaveUp, k - 1);
        return false, 0, [];
      } else if code[p].op.IEnd? {
        HaltedStays(code, s, Matched(i, caps), k - 1);
        return true, i, caps;
      }
      p, i, stack, caps := Round(code, s, p, i, stack, caps);
      k := k - 1;
    }
  }

  /** The final state of a match of `t`. */
  function OutcomeOf(t: Tree, s: Subject, i: nat): State
    requires i <= |s|
  {
    if Peg(t, s, i).Fail? then GaveUp else Matched(Peg(t, s, i).pos, Emit(t, s, i))
  }

  /** Does `code`, on every subject and from every position, stop with the result of `t`? */
  ghost predicate Implements(code: Code, t: Tree) {
    forall s: Subject, i: nat :: i <= |s| ==> Reaches(code, s, Start(i), OutcomeOf(t, s, i))
  }

  lemma KeepsImplements(t: Tree, code: Code)
    requires WellFormed(t) && Keeps(GenPattern(t), code)
    ensures Implements(code, t)
  {
    forall s: Subject, i: nat | i <= |s|
      ensures Reaches(code, s, Start(i), OutcomeOf(t, s, i))
    {
      hide Reaches, Start;
      PatternCorrect(t, s, i);
      assert Reaches(GenPattern(t), s, Start(i), OutcomeOf(t, s, i)) && Halted(OutcomeOf(t, s, i));
    }
  }

  /** `compile`: generate the code, end it, and run the peephole pass over it. */
  method Compile(t: Tree) returns (code: Code)
    requires WellFormed(t)
    ensures code != [] && Implements(code, t)
  {
    hide Gen, Implements, Keeps, Ranked, Piece;
    var compst := new CompileState();
    compst.CodeGen(t, false, NO_INST, FULL_SET);
    var _ := compst.AddInstruction(IEnd);
    ghost var raw := compst.code;
    assert raw == GenPattern(t);
    PatternLinked(t);
    Peephole(compst, Starts(raw), Rank(raw));
    code := compst.code;
    KeepsImplements(t, code);
  }

  /** `initposition`: the position that a match starts at, from the optional argument of
      the caller (1 is the first character, negative values count from the end). */
  function InitPosition(init: int, len: nat): (i: nat)
    ensures i <= len
    ensures 1 <= init <= len ==> i == init - 1
    ensures init > len ==> i == len
    ensures init <= 0 <= len + init ==> i == len + init
    ensures len + init < 0 ==> i == 0
  {
    if init > 0 then (if init <= len then init - 1 else len)
    else if -init <= len then len + init
    else 0
  }

  /** A pattern: its tree, and its code once it has been compiled. */
  class Pattern {
    var tree: Tree
    var code: Code          // empty when not compiled yet
    ghost const source: Tree   // the tree that the pattern was built with

    ghost predicate Valid()
      reads this
    {
      && WellFormed(tree)
      && (forall s: Subject, i: nat :: i <= |s| ==> Peg(tree, s, i) == Peg(source, s, i))
      && (code != [] ==> Implements(code, tree) && RightAssociative(tree))
    }

    constructor (t: Tree)
      requires WellFormed(t)
      ensures Valid() && source == t && code == []
    {
      tree := t;
      code := [];
      source := t;
    }

    /** `prepcompile` */
    method PrepCompile()
      requires Valid()
      modifies this
      ensures Valid() && code != [] && tree == FinalFix(old(tree))
    {
      FinalFixWellFormed(tree);
      FinalFixAssociative(tree);
      forall s: Subject, i: nat | i <= |s|
        ensures Peg(FinalFix(tree), s, i) == Peg(source, s, i)
      {
        FinalFixKeeps(tree, s, i);
      }
      tree := FinalFix(tree);
      code := Compile(tree);
    }

    /** `lp_match`: compiles the pattern on its first use, and runs it. The result is the
        meaning of the tree that the pattern was built with: end position and captures. */
    method Match(s: Subject, init: int) returns (r: Result)
      requires Valid()
      modifies this
      ensures Valid() && code != []
      ensures r == Peg(source, s, InitPosition(init, |s|))
    {
      if code == [] { PrepCompile(); }
      var start := InitPosition(init, |s|);
      assert Reaches(code, s, Start(start), OutcomeOf(tree, s, start));
      ghost var n: nat :| Run(code, s, Start(start), n) == OutcomeOf(tree, s, start);
      var found, end, captures := Interpret(code, s, start, n);
      if found {
        EmitEvents(tree, s, start);
        r := Succ(end, Events(captures));
      } else {
        r := Fail;
      }
    }
  }
}
