/** What single instructions do, stated for code that was placed somewhere in a
    code array. The simulation proof uses these facts instead of the interpreter. */
module LpegExec {
  import opened LpegTree
  import opened LpegMachine
  import opened LpegCode

  predicate CodeAt(code: Code, a: nat, g: Code) {
    a + |g| <= |code| && code[a..a + |g|] == g
  }

  lemma CodeAtSlot(code: Code, a: nat, g: Code, k: nat)
    requires CodeAt(code, a, g) && k < |g|
    ensures code[a + k] == g[k]
  {
    assert code[a..a + |g|][k] == code[a + k];
  }

  lemma CodeAtSplit(code: Code, a: nat, g1: Code, g2: Code)
    requires CodeAt(code, a, g1 + g2)
    ensures CodeAt(code, a, g1) && CodeAt(code, a + |g1|, g2)
  {
    assert code[a..a + |g1|] == code[a..a + |g1 + g2|][..|g1|];
    assert code[a + |g1|..a + |g1| + |g2|] == code[a..a + |g1 + g2|][|g1|..];
  }

  lemma CodeAtSplit3(code: Code, a: nat, g1: Code, g2: Code, g3: Code)
    requires CodeAt(code, a, g1 + g2 + g3)
    ensures CodeAt(code, a, g1) && CodeAt(code, a + |g1|, g2) && CodeAt(code, a + |g1| + |g2|, g3)
  {
    CodeAtSplit(code, a, g1 + g2, g3);
    CodeAtSplit(code, a, g1, g2);
  }

  predicate LevelsOk(stack: seq<Frame>, n: nat) {
    forall k :: 0 <= k < |stack| ==> stack[k].caplevel <= n
  }

  lemma LevelsPush(stack: seq<Frame>, n: nat, m: nat, f: Frame)
    requires LevelsOk(stack, n) && n <= m && f.caplevel <= m
    ensures LevelsOk(stack, m) && LevelsOk(stack + [f], m)
  {
  }

  lemma LevelsPop(stack: seq<Frame>, n: nat)
    requires LevelsOk(stack, n) && |stack| > 0
    ensures LevelsOk(stack[..|stack| - 1], n)
  {
  }

  /** A failure forgets the captures made since the choices on the stack. */
  lemma {:induction false} FailToPrefix(stack: seq<Frame>, caps: seq<Capture>, more: seq<Capture>)
    requires LevelsOk(stack, |caps|)
    ensures FailTo(stack, caps + more) == FailTo(stack, caps)
    decreases |stack|
  {
    if stack != [] {
      var top := stack[|stack| - 1];
      if top.s.NoPosition? {
        FailToPrefix(stack[..|stack| - 1], caps, more);
      } else {
        assert (caps + more)[..top.caplevel] == caps[..top.caplevel];
      }
    }
  }

  /** A failure under a choice made when the captures were `caps`. */
  lemma FailToTop(stack: seq<Frame>, p: int, i: nat, caps: seq<Capture>)
    ensures FailTo(stack + [Frame(p, At(i), |caps|)], caps) == Running(p, i, stack, caps)
  {
    assert caps[..|caps|] == caps;
    assert (stack + [Frame(p, At(i), |caps|)])[..|stack|] == stack;
  }

  lemma Exec(code: Code, s: Subject, st: State, st': State)
    requires Step(code, s, st) == st'
    ensures Reaches(code, s, st, st')
  {
    ReachesStep(code, s, st);
  }

  /** A test goes on behind itself when the next character is in the set, and jumps
      otherwise. */
  lemma ExecTest(code: Code, s: Subject, a: nat, cs: Charset, skip: nat, i: nat, stack: seq<Frame>, caps: seq<Capture>)
    requires i <= |s| && CodeAt(code, a, GenTest(cs, false, skip))
    ensures i < |s| && s[i] in cs ==>
      Reaches(code, s, Running(a, i, stack, caps), Running(a + TestSize(cs, false), i, stack, caps)) &&
      GuardHolds(GuardOf(cs, false), s, i)
    ensures !(i < |s| && s[i] in cs) ==>
      Reaches(code, s, Running(a, i, stack, caps), Running(a + TestSize(cs, false) + skip, i, stack, caps))
  {
    hide Run, Reaches;
    var g := GenTest(cs, false, skip);
    CodeAtSlot(code, a, g, 0);
    CodeAtSlot(code, a, g, 1);
    if CharsetType(cs).General? { CodeAtSlot(code, a, g, 2); }
    assert i < |s| ==> s[i] in FULL_SET;
    ReachesStep(code, s, Running(a, i, stack, caps));
  }

  /** Code that matches one character of a set, or fails. */
  lemma ExecCharset(cs: Charset, g: Code, code: Code, s: Subject, a: nat, i: nat, stack: seq<Frame>, caps: seq<Capture>, tt: Guard)
    requires i <= |s| && CodeAt(code, a, g) && GuardHolds(tt, s, i)
    requires g == GenCharset(cs, tt) || (cs == FULL_SET && g == [Inst(IAny)]) ||
             exists c: Byte :: cs == {c} && g == GenChar(c, tt)
    ensures Reaches(code, s, Running(a, i, stack, caps),
                    if OneOf(cs, s, i).Succ? then Running(a + |g|, i + 1, stack, caps) else FailTo(stack, caps))
  {
    hide Run, Reaches, FailTo;
    CodeAtSlot(code, a, g, 0);
    if |g| > 1 { CodeAtSlot(code, a, g, 1); }
    assert i < |s| ==> s[i] in FULL_SET;
    ReachesStep(code, s, Running(a, i, stack, caps));
  }

  lemma ExecSpan(cs: Charset, code: Code, s: Subject, a: nat, i: nat, stack: seq<Frame>, caps: seq<Capture>)
    requires i <= |s| && CodeAt(code, a, [Inst(ISpan)] + CharsetSlots(cs))
    ensures Reaches(code, s, Running(a, i, stack, caps), Running(a + CHARSET_INST_SIZE, SpanEnd(cs, s, i), stack, caps))
  {
    hide Run, Reaches;
    var g := [Inst(ISpan)] + CharsetSlots(cs);
    CodeAtSlot(code, a, g, 0);
    CodeAtSlot(code, a, g, 1);
    ReachesStep(code, s, Running(a, i, stack, caps));
  }

  /** The instructions with a label, by opcode; `f` is the top entry of the stack for
      those that need one. */
  lemma ExecLabel(op: Opcode, off: int, code: Code, s: Subject, a: nat, i: nat, stack: seq<Frame>, f: Frame, caps: seq<Capture>)
    requires i <= |s| && CodeAt(code, a, [Inst(op), Offset(off)]) && f.s.At?
    ensures op.IJmp? ==> Reaches(code, s, Running(a, i, stack, caps), Running(a + off, i, stack, caps))
    ensures op.IChoice? ==>
      Reaches(code, s, Running(a, i, stack, caps), Running(a + 2, i, stack + [Frame(a + off, At(i), |caps|)], caps))
    ensures op.ICommit? ==>
      Reaches(code, s, Running(a, i, stack + [f], caps), Running(a + off, i, stack, caps))
    ensures op.IPartialCommit? ==>
      Reaches(code, s, Running(a, i, stack + [f], caps), Running(a + off, i, stack + [Frame(f.p, At(i), |caps|)], caps))
    ensures op.IBackCommit? && f.caplevel <= |caps| ==>
      Reaches(code, s, Running(a, i, stack + [f], caps), Running(a + off, f.s.pos, stack, caps[..f.caplevel]))
  {
    hide Run, Reaches;
    var g := [Inst(op), Offset(off)];
    CodeAtSlot(code, a, g, 0);
    CodeAtSlot(code, a, g, 1);
    assert (stack + [f])[..|stack|] == stack;
    if op.IJmp? || op.IChoice? {
      ReachesStep(code, s, Running(a, i, stack, caps));
    } else {
      ReachesStep(code, s, Running(a, i, stack + [f], caps));
    }
  }

  /** The instructions of one slot. */
  lemma ExecPlain(op: Opcode, code: Code, s: Subject, a: nat, i: nat, stack: seq<Frame>, f: Frame, caps: seq<Capture>)
    requires i <= |s| && CodeAt(code, a, [Inst(op)])
    ensures op.IFail? ==> Reaches(code, s, Running(a, i, stack, caps), FailTo(stack, caps))
    ensures op.IFailTwice? ==> Reaches(code, s, Running(a, i, stack + [f], caps), FailTo(stack, caps))
    ensures op.IBehind? ==>
      Reaches(code, s, Running(a, i, stack, caps),
              if op.n > i then FailTo(stack, caps) else Running(a + 1, i - op.n, stack, caps))
    ensures op.IFullCapture? && GetOff(op.aux) <= i ==>
      Reaches(code, s, Running(a, i, stack, caps),
              Running(a + 1, i, stack, caps + [Item(GetKind(op.aux), op.key, i - GetOff(op.aux), GetOff(op.aux) + 1)]))
    ensures op.IOpenCapture? ==>
      Reaches(code, s, Running(a, i, stack, caps), Running(a + 1, i, stack, caps + [Item(GetKind(op.aux), op.key, i, 0)]))
    ensures op.ICloseCapture? && |caps| > 0 ==>
      Reaches(code, s, Running(a, i, stack, caps), Running(a + 1, i, stack, CloseCapture(caps, i)))
    ensures op.IEnd? && |stack| == 1 ==> Reaches(code, s, Running(a, i, stack, caps), Matched(i, caps))
  {
    hide Run, Reaches, FailTo;
    CodeAtSlot(code, a, [Inst(op)], 0);
    assert (stack + [f])[..|stack|] == stack;
    if op.IFailTwice? {
      ReachesStep(code, s, Running(a, i, stack + [f], caps));
    } else {
      ReachesStep(code, s, Running(a, i, stack, caps));
    }
  }
}
