/** The code that LPeg's compiler produces for a tree, as a function. All labels are
    relative, so the code of a tree does not depend on where it is placed. */
module LpegCode {
  import opened LpegTree
  import opened LpegAnalysis
  import opened LpegMachine

  /** The four kinds of charset that the code generator tells apart. */
  datatype SetType = Empty | Singleton(c: Byte) | Full | General

  function CharsetType(cs: Charset): (r: SetType)
    ensures r.Empty? <==> cs == {}
    ensures r.Full? <==> cs == FULL_SET
    ensures r.Singleton? <==> exists c: Byte :: cs == {c}
    ensures r.Singleton? ==> cs == {r.c}
  {
    assert 0 in FULL_SET && 1 in FULL_SET;
    if cs == {} then Empty
    else if cs == FULL_SET then Full
    else if exists c | c in cs :: cs == {c} then
      var c :| c in cs && cs == {c};
      Singleton(c)
    else General
  }

  /** What is known about the next character, from a test that protects the code. */
  datatype Guard = NoGuard | TestedChar(c: Byte) | TestedSet(cs: Charset) | OtherTest

  function GuardOf(cs: Charset, e: bool): Guard {
    if e then NoGuard
    else
      match CharsetType(cs)
      case Singleton(c) => TestedChar(c)
      case General => TestedSet(cs)
      case _ => OtherTest
  }

  predicate GuardHolds(tt: Guard, s: Subject, i: nat) {
    match tt
    case TestedChar(c) => i < |s| && s[i] == c
    case TestedSet(cs) => i < |s| && s[i] in cs
    case _ => true
  }

  /** The 32 bytes of a charset behind an instruction. */
  function CharsetSlots(cs: Charset): (r: Code)
    ensures |r| == CHARSET_INST_SIZE - 1
  {
    [Bits(cs), MoreBits, MoreBits, MoreBits, MoreBits, MoreBits, MoreBits, MoreBits]
  }

  function GenChar(c: Byte, tt: Guard): Code {
    if tt == TestedChar(c) then [Inst(IAny)] else [Inst(IChar(c))]
  }

  function GenCharset(cs: Charset, tt: Guard): Code {
    match CharsetType(cs)
    case Singleton(c) => GenChar(c, tt)
    case General => if tt == TestedSet(cs) then [Inst(IAny)] else [Inst(ISet)] + CharsetSlots(cs)
    case Empty => [Inst(IFail)]
    case Full => [Inst(IAny)]
  }

  /** Size of the test for a set; no test is made when the empty string is accepted. */
  function TestSize(cs: Charset, e: bool): nat {
    if e then 0
    else if CharsetType(cs).General? then CHARSET_INST_SIZE + 1
    else 2
  }

  /** A test that jumps over `skip` slots behind it when the next character is not
      in the set (or there is none). */
  function GenTest(cs: Charset, e: bool, skip: nat): (r: Code)
    ensures |r| == TestSize(cs, e)
  {
    if e then []
    else
      match CharsetType(cs)
      case Empty => [Inst(IJmp), Offset(2 + skip)]
      case Full => [Inst(ITestAny), Offset(2 + skip)]
      case Singleton(c) => [Inst(ITestChar(c)), Offset(2 + skip)]
      case General => [Inst(ITestSet), Offset(CHARSET_INST_SIZE + 1 + skip)] + CharsetSlots(cs)
  }

  /** `codechoice` and `coderep` may do without a choice point. */
  predicate CanTest(p: Tree, after: Charset) {
    HeadFail(p) || (!AcceptsEmpty(p) && First(p, FULL_SET) !! after)
  }

  function Gen(t: Tree, opt: bool, tt: Guard, fl: Charset): Code
    requires WellFormed(t)
    decreases t, 1
  {
    match t
    case TChar(c) => GenChar(c, tt)
    case TAny => [Inst(IAny)]
    case TSet(cs) => GenCharset(cs, tt)
    case TTrue => []
    case TFalse => [Inst(IFail)]
    case TChoice(p1, p2) => GenChoice(t, opt, fl)
    case TRep(p) => GenRep(t, opt, fl)
    case TBehind(n, p) =>
      (if n > 0 then [Inst(IBehind(n))] else []) + Gen(p, false, NoGuard, FULL_SET)
    case TNot(p) => GenNot(t)
    case TAnd(p) => GenAnd(t, tt)
    case TCapture(cap, key, p) => GenCapture(t, tt, fl)
    case TSeq(p1, p2) =>
      Gen(p1, false, tt, if NeedFollow(p1) then First(p2, fl) else FULL_SET) +
      Gen(p2, opt, if FixedLen(p1) != 0 then NoGuard else tt, fl)
  }

  function GenChoice(t: Tree, opt: bool, fl: Charset): Code
    requires t.TChoice? && WellFormed(t)
    decreases t, 0
  {
    var TChoice(p1, p2) := t;
    var (cs1, e1) := GetFirst(p1, FULL_SET);
    var g2 := Gen(p2, opt, NoGuard, fl);
    if CanTest(p1, First(p2, fl)) then
      // test (fail(p1)) -> L1; p1; jmp L2; L1: p2; L2:
      var g1 := Gen(p1, false, GuardOf(cs1, false), fl);
      var jmp := if p2.TTrue? then [] else [Inst(IJmp), Offset(2 + |g2|)];
      GenTest(cs1, false, |g1| + |jmp|) + g1 + jmp + g2
    else if opt && p2.TTrue? then
      [Inst(IPartialCommit), Offset(2)] + Gen(p1, true, NoGuard, FULL_SET)
    else
      // test (first(p1)) -> L1; choice L1; p1; commit L2; L1: p2; L2:
      var g1 := Gen(p1, p2.TTrue?, GuardOf(cs1, e1), FULL_SET);
      GenTest(cs1, e1, |g1| + 4) + [Inst(IChoice), Offset(|g1| + 4)] + g1 +
      [Inst(ICommit), Offset(2 + |g2|)] + g2
  }

  function GenRep(t: Tree, opt: bool, fl: Charset): Code
    requires t.TRep? && WellFormed(t)
    decreases t, 0
  {
    var p := t.body;
    if IsCharset(p) then [Inst(ISpan)] + CharsetSlots(ToCharset(p))
    else
      var (st, e1) := GetFirst(p, FULL_SET);
      if CanTest(p, fl) then
        // L1: test (fail(p)) -> L2; p; jmp L1; L2:
        var g := Gen(p, false, GuardOf(st, false), FULL_SET);
        GenTest(st, false, |g| + 2) + g + [Inst(IJmp), Offset(-(TestSize(st, false) + |g|))]
      else
        // test (fail(p)) -> L2; choice L2; L1: p; partialcommit L1; L2:
        // or, if opt: ...; partialcommit L1; L1: p; partialcommit L1; L2:
        var g := Gen(p, false, NoGuard, FULL_SET);
        var enter := if opt then [Inst(IPartialCommit), Offset(2)] else [Inst(IChoice), Offset(|g| + 4)];
        GenTest(st, e1, |g| + 4) + enter + g + [Inst(IPartialCommit), Offset(-|g|)]
  }

  function GenNot(t: Tree): Code
    requires t.TNot? && WellFormed(t)
    decreases t, 0
  {
    var (st, e) := GetFirst(t.body, FULL_SET);
    if HeadFail(t.body) then
      GenTest(st, e, 1) + [Inst(IFail)]
    else
      var g := Gen(t.body, false, NoGuard, FULL_SET);
      GenTest(st, e, |g| + 3) + [Inst(IChoice), Offset(|g| + 3)] + g + [Inst(IFailTwice)]
  }

  function GenAnd(t: Tree, tt: Guard): Code
    requires t.TAnd? && WellFormed(t)
    decreases t, 0
  {
    var p := t.body;
    var n := FixedLen(p);
    var g := Gen(p, false, tt, FULL_SET);
    if 0 <= n <= MAX_BEHIND && !HasCaptures(p) then
      g + if n > 0 then [Inst(IBehind(n))] else []
    else
      [Inst(IChoice), Offset(|g| + 4)] + g + [Inst(IBackCommit), Offset(3), Inst(IFail)]
  }

  function GenCapture(t: Tree, tt: Guard, fl: Charset): Code
    requires t.TCapture? && WellFormed(t)
    decreases t, 0
  {
    var TCapture(cap, key, p) := t;
    var g := Gen(p, false, tt, fl);
    if IsFullCapture(p) then
      g + [Inst(IFullCapture(JoinKindOff(cap, FixedLen(p)), key))]
    else
      [Inst(IOpenCapture(JoinKindOff(cap, 0), key))] + g + [Inst(ICloseCapture(JoinKindOff(0, 0), 0))]
  }

  /** A capture is made by a single instruction when its body has a small fixed
      length and no captures. */
  predicate IsFullCapture(p: Tree) { 0 <= FixedLen(p) <= MAX_OFF && !HasCaptures(p) }

  /** The code of a whole pattern, before the peephole pass. */
  function GenPattern(t: Tree): Code
    requires WellFormed(t)
  {
    Gen(t, false, NoGuard, FULL_SET) + [Inst(IEnd)]
  }

  /* ---------- the parts of the code of a tree ---------- */

  lemma GenTrue(t: Tree, opt: bool, fl: Charset)
    requires WellFormed(t)
    ensures t.TTrue? ==> Gen(t, opt, NoGuard, fl) == []
  {
  }

  lemma SeqCode(t: Tree, opt: bool, tt: Guard, fl: Charset)
    requires t.TSeq? && WellFormed(t)
    ensures WellFormed(t.first) && WellFormed(t.second)
    ensures Gen(t, opt, tt, fl) ==
            Gen(t.first, false, tt, if NeedFollow(t.first) then First(t.second, fl) else FULL_SET) +
            Gen(t.second, opt, if FixedLen(t.first) != 0 then NoGuard else tt, fl)
  {
  }

  lemma TestedChoiceCode(t: Tree, opt: bool, fl: Charset)
    requires t.TChoice? && WellFormed(t) && CanTest(t.first, First(t.second, fl))
    ensures WellFormed(t.first) && WellFormed(t.second)
    ensures var cs1 := First(t.first, FULL_SET);
            var g1, g2 := Gen(t.first, false, GuardOf(cs1, false), fl), Gen(t.second, opt, NoGuard, fl);
            var jmp := if t.second.TTrue? then [] else [Inst(IJmp), Offset(2 + |g2|)];
            GenChoice(t, opt, fl) == GenTest(cs1, false, |g1| + |jmp|) + g1 + jmp + g2
  {
    hide Gen, CanTest;
  }

  lemma ChoiceCode(t: Tree, opt: bool, fl: Charset)
    requires t.TChoice? && WellFormed(t) && !CanTest(t.first, First(t.second, fl)) && !(opt && t.second.TTrue?)
    ensures WellFormed(t.first) && WellFormed(t.second)
    ensures var cs1, e1 := First(t.first, FULL_SET), AcceptsEmpty(t.first);
            var g1 := Gen(t.first, t.second.TTrue?, GuardOf(cs1, e1), FULL_SET);
            var g2 := Gen(t.second, opt, NoGuard, fl);
            GenChoice(t, opt, fl) == GenTest(cs1, e1, |g1| + 4) + [Inst(IChoice), Offset(|g1| + 4)] + g1 +
                                     [Inst(ICommit), Offset(2 + |g2|)] + g2
  {
    hide Gen;
  }

  lemma TestedRepCode(t: Tree, opt: bool, fl: Charset)
    requires t.TRep? && WellFormed(t) && !IsCharset(t.body) && CanTest(t.body, fl)
    ensures WellFormed(t.body) && !Nullable(t.body)
    ensures var set1 := First(t.body, FULL_SET);
            var g := Gen(t.body, false, GuardOf(set1, false), FULL_SET);
            var test := GenTest(set1, false, |g| + 2);
            GenRep(t, opt, fl) == test + g + [Inst(IJmp), Offset(-(|test| + |g|))]
  {
    hide Gen, CanTest;
  }

  lemma RepCode(t: Tree, opt: bool, fl: Charset)
    requires t.TRep? && WellFormed(t) && !IsCharset(t.body) && !CanTest(t.body, fl)
    ensures WellFormed(t.body)
    ensures var g := Gen(t.body, false, NoGuard, FULL_SET);
            var enter := if opt then [Inst(IPartialCommit), Offset(2)] else [Inst(IChoice), Offset(|g| + 4)];
            GenRep(t, opt, fl) == GenTest(First(t.body, FULL_SET), AcceptsEmpty(t.body), |g| + 4) + enter + g +
                                  [Inst(IPartialCommit), Offset(-|g|)]
  {
    hide Gen;
  }

  lemma CaptureCode(t: Tree, tt: Guard, fl: Charset)
    requires t.TCapture? && WellFormed(t)
    ensures WellFormed(t.body) && t.cap < 16
    ensures GenCapture(t, tt, fl) ==
            var g := Gen(t.body, false, tt, fl);
            if IsFullCapture(t.body) then g + [Inst(IFullCapture(JoinKindOff(t.cap, FixedLen(t.body)), t.key))]
            else [Inst(IOpenCapture(JoinKindOff(t.cap, 0), t.key))] + g + [Inst(ICloseCapture(JoinKindOff(0, 0), 0))]
  {
    hide Gen, GetFirst, HeadFail, CheckAux, FixedLenX, HasCaptures;
  }

  lemma GenParts(t: Tree, opt: bool, tt: Guard, fl: Charset)
    requires WellFormed(t)
    ensures t.TChoice? ==> Gen(t, opt, tt, fl) == GenChoice(t, opt, fl)
    ensures t.TRep? ==> Gen(t, opt, tt, fl) == GenRep(t, opt, fl)
    ensures t.TNot? ==> Gen(t, opt, tt, fl) == GenNot(t)
    ensures t.TAnd? ==> Gen(t, opt, tt, fl) == GenAnd(t, tt)
    ensures t.TCapture? ==> Gen(t, opt, tt, fl) == GenCapture(t, tt, fl)
    ensures t.TBehind? ==>
              && WellFormed(t.body)
              && Gen(t, opt, tt, fl) == (if t.n > 0 then [Inst(IBehind(t.n))] else []) + Gen(t.body, false, NoGuard, FULL_SET)
  {
    hide GenChoice, GenRep, GenNot, GenAnd, GenCapture;
  }
}
