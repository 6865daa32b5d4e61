/** The code that the generator produces is linked: labels lead to instructions, no
    label leads into an instruction, and chains of jumps end. */
module LpegLinked {
  import opened LpegTree
  import opened LpegAnalysis
  import opened LpegMachine
  import opened LpegCode
  import opened LpegPeephole

  /** Does an instruction start at `k`, or the code end there? */
  predicate Boundary(g: Code, k: int) {
    0 <= k <= |g| && (k < |g| ==> g[k].Inst?)
  }

  /** A jump goes forward, or back to an instruction that does not jump back in front
      of it. */
  predicate JumpOk(g: Code, j: int)
    requires 0 <= j && OffsetAt(g, j)
  {
    var t := Target(g, j);
    t > j || (0 <= t < j && g[t].Inst? && (g[t].op.IJmp? ==> OffsetAt(g, t) && Target(g, t) > j))
  }

  predicate InstOk(g: Code, j: int)
    requires 0 <= j < |g| && g[j].Inst?
  {
    var op := g[j].op;
    && Boundary(g, j + SizeI(op))
    && (forall k :: j < k < j + SizeI(op) && k < |g| ==> !g[k].Inst?)
    && (HasOffset(op) ==> OffsetAt(g, j) && Boundary(g, Target(g, j)))
    && (op.IJmp? ==> JumpOk(g, j))
  }

  /** A piece of code that is linked in itself, apart from labels to its end. */
  predicate Piece(g: Code) {
    Boundary(g, 0) && forall j :: 0 <= j < |g| && g[j].Inst? ==> InstOk(g, j)
  }

  lemma PieceAt(g: Code, j: int)
    requires Piece(g) && 0 <= j < |g| && g[j].Inst?
    ensures InstOk(g, j)
  {
  }

  lemma PieceOf(g: Code)
    requires Boundary(g, 0) && forall j :: 0 <= j < |g| && g[j].Inst? ==> InstOk(g, j)
    ensures Piece(g)
  {
  }

  lemma PieceBegins(g: Code)
    requires Piece(g)
    ensures Boundary(g, 0)
  {
  }

  lemma BoundaryConcat(g1: Code, g2: Code, k: int)
    requires Boundary(g2, 0)
    ensures Boundary(g1, k) ==> Boundary(g1 + g2, k)
    ensures Boundary(g2, k) ==> Boundary(g1 + g2, |g1| + k)
  {
  }

  lemma PieceConcat(g1: Code, g2: Code)
    requires Piece(g1) && Piece(g2)
    ensures Piece(g1 + g2) && Boundary(g1 + g2, |g1|)
  {
    var g := g1 + g2;
    BoundaryConcat(g1, g2, 0);
    forall j | 0 <= j < |g| && g[j].Inst?
      ensures InstOk(g, j)
    {
      if j < |g1| {
        FirstInst(g1, g2, j);
      } else {
        SecondInst(g1, g2, j - |g1|);
      }
    }
  }

  lemma FirstInst(g1: Code, g2: Code, j: int)
    requires 0 <= j < |g1| && g1[j].Inst? && InstOk(g1, j) && Boundary(g2, 0)
    ensures InstOk(g1 + g2, j)
  {
    var g, op := g1 + g2, g1[j].op;
    BoundaryConcat(g1, g2, j + SizeI(op));
    if HasOffset(op) {
      BoundaryConcat(g1, g2, Target(g1, j));
      assert Target(g, j) == Target(g1, j);
    }
    if op.IJmp? {
      var t := Target(g1, j);
      if t < j { assert g[t] == g1[t] && g[t + 1] == (g1 + g2)[t + 1]; }
    }
  }

  lemma SecondInst(g1: Code, g2: Code, j: int)
    requires 0 <= j < |g2| && g2[j].Inst? && InstOk(g2, j) && Boundary(g2, 0)
    ensures InstOk(g1 + g2, |g1| + j)
  {
    var g, n, op := g1 + g2, |g1|, g2[j].op;
    BoundaryConcat(g1, g2, j + SizeI(op));
    forall k | n + j < k < n + j + SizeI(op) && k < |g|
      ensures !g[k].Inst?
    {
      assert g[k] == g2[k - n];
    }
    if HasOffset(op) {
      BoundaryConcat(g1, g2, Target(g2, j));
      assert g[n + j + 1] == g2[j + 1];
      assert Target(g, n + j) == n + Target(g2, j);
    }
    if op.IJmp? {
      var t := Target(g2, j);
      if t < j { assert g[n + t] == g2[t] && (OffsetAt(g2, t) ==> g[n + t + 1] == g2[t + 1]); }
    }
  }

  /** An instruction with a label over a part of what comes next. */
  lemma PieceLabel(op: Opcode, off: int, g: Code)
    requires SizeI(op) == 2 && HasOffset(op) && Piece(g) && Boundary(g, off - 2)
    ensures Piece([Inst(op), Offset(off)] + g)
    ensures forall k :: Boundary(g, k) ==> Boundary([Inst(op), Offset(off)] + g, k + 2)
  {
    hide Piece, Boundary, InstOk;
    var h := [Inst(op), Offset(off)];
    PieceBegins(g);
    LabelInst(op, off, g);
    forall k | Boundary(g, k) ensures Boundary(h + g, k + 2) { BoundaryConcat(h, g, k); }
    PieceBehind(h, g);
  }

  lemma LabelInst(op: Opcode, off: int, g: Code)
    requires SizeI(op) == 2 && HasOffset(op) && Boundary(g, 0) && Boundary(g, off - 2)
    ensures InstOk([Inst(op), Offset(off)] + g, 0) && Boundary([Inst(op), Offset(off)] + g, 0)
  {
    hide SizeI, HasOffset;
    var h := [Inst(op), Offset(off)];
    BoundaryConcat(h, g, off - 2);
    BoundaryConcat(h, g, 0);
    assert (h + g)[1] == Offset(off);
  }

  lemma PiecePlain(op: Opcode)
    requires SizeI(op) == 1 && !HasOffset(op)
    ensures Piece([Inst(op)])
  {
  }

  lemma PieceSpan(op: Opcode, cs: Charset)
    requires op.ISet? || op.ISpan?
    ensures Piece([Inst(op)] + CharsetSlots(cs))
  {
  }

  /** One instruction in front of a piece, when its own label is in order. */
  lemma PieceBehind(h: Code, g: Code)
    requires Piece(g) && h != [] && Boundary(h + g, 0) && (h[0].Inst? ==> InstOk(h + g, 0))
    requires forall k :: 0 < k < |h| ==> !h[k].Inst?
    ensures Piece(h + g)
  {
    hide Piece, Boundary, InstOk;
    var g' := h + g;
    PieceBegins(g);
    forall j | 0 <= j < |g'| && g'[j].Inst?
      ensures InstOk(g', j)
    {
      if j != 0 {
        assert j >= |h| && g'[j] == g[j - |h|];
        PieceAt(g, j - |h|);
        SecondInst(h, g, j - |h|);
      }
    }
    PieceOf(g');
  }

  lemma TestSetInst(h: Code, skip: nat, g: Code)
    requires Boundary(g, 0) && Boundary(g, skip)
    requires |h| == CHARSET_INST_SIZE + 1 && h[0] == Inst(ITestSet) && h[1] == Offset(|h| + skip)
    requires forall k :: 0 < k < |h| ==> !h[k].Inst?
    ensures Boundary(h + g, 0) && InstOk(h + g, 0)
  {
    var g' := h + g;
    BoundaryConcat(h, g, skip);
    BoundaryConcat(h, g, 0);
    hide Boundary;
    assert g'[0] == h[0] && g'[1] == h[1];
    assert OffsetAt(g', 0) && Target(g', 0) == |h| + skip;
    forall k | 0 < k < SizeI(ITestSet) && k < |g'| ensures !g'[k].Inst? { assert g'[k] == h[k]; }
    BoundaryStart(h, g);
  }

  lemma BoundaryStart(h: Code, g: Code)
    requires h != [] && h[0].Inst?
    ensures Boundary(h + g, 0)
  {
  }

  /** A test over a part of what comes next. */
  lemma PieceTest(cs: Charset, e: bool, skip: nat, g: Code)
    requires Piece(g) && Boundary(g, skip)
    ensures Piece(GenTest(cs, e, skip) + g)
  {
    hide Piece, Boundary, InstOk, CharsetType, CharsetSlots;
    var h := GenTest(cs, e, skip);
    if e {
      assert h + g == g;
    } else if CharsetType(cs).General? {
      GeneralTest(cs, skip);
      PieceBegins(g);
      TestSetInst(h, skip, g);
      PieceBehind(h, g);
    } else {
      ShortTest(cs, skip);
      PieceLabel(h[0].op, 2 + skip, g);
    }
  }

  lemma GeneralTest(cs: Charset, skip: nat)
    requires CharsetType(cs).General?
    ensures var h := GenTest(cs, false, skip);
            && |h| == CHARSET_INST_SIZE + 1 && h[0] == Inst(ITestSet) && h[1] == Offset(|h| + skip)
            && forall k :: 0 < k < |h| ==> !h[k].Inst?
  {
    hide CharsetType;
  }

  lemma ShortTest(cs: Charset, skip: nat)
    requires !CharsetType(cs).General?
    ensures var h := GenTest(cs, false, skip);
            && |h| == 2 && h[0].Inst? && SizeI(h[0].op) == 2 && HasOffset(h[0].op)
            && h == [Inst(h[0].op), Offset(2 + skip)]
  {
    hide CharsetType;
  }

  /** The end of a loop: a label back to the start of the loop. */
  lemma PieceBack(g: Code)
    requires Piece(g)
    ensures Piece(g + [Inst(IPartialCommit), Offset(-|g|)])
  {
    var h := [Inst(IPartialCommit), Offset(-|g|)];
    var g' := g + h;
    assert Boundary(h, 0);
    BoundaryConcat(g, h, 0);
    forall j | 0 <= j < |g'| && g'[j].Inst?
      ensures InstOk(g', j)
    {
      if j < |g| {
        FirstInst(g, h, j);
      } else {
        assert g'[|g| + 1] == h[1];
      }
    }
  }

  /** A loop around a test that leads out of it. */
  lemma PieceLoop(cs: Charset, g: Code)
    requires Piece(g)
    ensures Piece(GenTest(cs, false, |g| + 2) + g + [Inst(IJmp), Offset(-(TestSize(cs, false) + |g|))])
  {
    hide Piece, GenTest, Boundary, InstOk;
    var t := GenTest(cs, false, |g| + 2);
    var j1 := [Inst(IJmp), Offset(-(|t| + |g|))];
    var stop := [Inst(IJmp), Offset(2)];
    PieceEmpty();
    PieceLabel(IJmp, 2, []);
    assert stop + [] == stop;
    PieceConcat(g, stop);
    BoundaryEnds(g + stop);
    PieceTest(cs, false, |g| + 2, g + stop);
    // a jump back in place of a jump to the end
    assert t + (g + stop) == (t + g) + stop;
    assert t + (g + j1) == (t + g) + j1;
    TestFirst(cs, |g| + 2, g + j1);
    CloseLoop(t + g, -(|t| + |g|));
  }

  lemma CloseLoop(g: Code, off: int)
    requires Piece(g + [Inst(IJmp), Offset(2)]) && off == -|g|
    requires var c := g + [Inst(IJmp), Offset(off)];
             |g| > 0 && c[0].Inst? && OffsetAt(c, 0) && Target(c, 0) > |g|
    ensures Piece(g + [Inst(IJmp), Offset(off)])
  {
    var g1, g2 := g + [Inst(IJmp), Offset(2)], g + [Inst(IJmp), Offset(off)];
    assert forall k :: 0 <= k < |g| + 1 ==> g2[k] == g1[k];
    forall j | 0 <= j < |g2| && g2[j].Inst?
      ensures InstOk(g2, j)
    {
      if j == |g| {
        assert g2[|g| + 1] == Offset(off);
      } else {
        assert InstOk(g1, j);
        KeepInst(g1, g2, j, |g|);
      }
    }
  }

  lemma TestFirst(cs: Charset, skip: nat, g: Code)
    ensures var c := GenTest(cs, false, skip) + g;
            c[0].Inst? && OffsetAt(c, 0) && Target(c, 0) == TestSize(cs, false) + skip
  {
  }

  lemma KeepInst(g1: Code, g2: Code, j: int, last: nat)
    requires |g1| == |g2| == last + 2 && 0 <= j < last && g1[j].Inst? && InstOk(g1, j)
    requires g1[last] == g2[last] == Inst(IJmp) && g1[last + 1].Offset? && g2[last + 1].Offset?
    requires forall k :: 0 <= k < last + 1 ==> g2[k] == g1[k]
    ensures InstOk(g2, j)
  {
  }

  /** The code of every tree is a piece. */
  lemma {:induction false} GenPiece(t: Tree, opt: bool, tt: Guard, fl: Charset)
    requires WellFormed(t)
    ensures Piece(Gen(t, opt, tt, fl))
    decreases t, 1
  {
    hide Piece, GenChoice, GenRep, GenNot, GenAnd, GenCapture, HeadFail, CheckAux, FixedLenX, HasCaptures, GetFirst;
    hide NeedFollow, Boundary;
    PiecePlain(IAny);
    PiecePlain(IFail);
    match t
    case TChar(c) => PiecePlain(IChar(c));
    case TAny =>
    case TSet(cs) =>
      PieceSpan(ISet, cs);
      if CharsetType(cs).Singleton? { PiecePlain(IChar(CharsetType(cs).c)); }
    case TTrue => PieceEmpty();
    case TFalse =>
    case TChoice(_, _) => ChoicePiece(t, opt, fl);
    case TRep(_) => RepPiece(t, opt, fl);
    case TBehind(n, p) =>
      GenPiece(p, false, NoGuard, FULL_SET);
      if n > 0 {
        PiecePlain(IBehind(n));
      } else {
        PieceEmpty();
      }
      PieceConcat(if n > 0 then [Inst(IBehind(n))] else [], Gen(p, false, NoGuard, FULL_SET));
    case TNot(_) => NotPiece(t);
    case TAnd(_) => AndPiece(t, tt);
    case TCapture(_, _, _) => CapturePiece(t, tt, fl);
    case TSeq(p1, p2) =>
      var fl1 := if NeedFollow(p1) then First(p2, fl) else FULL_SET;
      var tt2 := if FixedLen(p1) != 0 then NoGuard else tt;
      GenPiece(p1, false, tt, fl1);
      GenPiece(p2, opt, tt2, fl);
      PieceConcat(Gen(p1, false, tt, fl1), Gen(p2, opt, tt2, fl));
  }

  lemma PieceEmpty()
    ensures Piece([]) && Boundary([], 0)
  {
  }

  lemma BoundaryEnds(g: Code)
    requires Piece(g)
    ensures Boundary(g, 0) && Boundary(g, |g|)
  {
  }

  lemma {:induction false} ChoicePiece(t: Tree, opt: bool, fl: Charset)
    requires t.TChoice? && WellFormed(t)
    ensures Piece(GenChoice(t, opt, fl))
    decreases t, 0
  {
    hide Piece, Gen, Boundary, GenTest;
    var TChoice(p1, p2) := t;
    var (cs1, e1) := GetFirst(p1, FULL_SET);
    var g2 := Gen(p2, opt, NoGuard, fl);
    GenPiece(p2, opt, NoGuard, fl);
    BoundaryEnds(g2);
    if CanTest(p1, First(p2, fl)) {
      var g1 := Gen(p1, false, GuardOf(cs1, false), fl);
      GenPiece(p1, false, GuardOf(cs1, false), fl);
      TestedChoicePiece(cs1, g1, g2, p2.TTrue?);
    } else if opt && p2.TTrue? {
      var g1 := Gen(p1, true, NoGuard, FULL_SET);
      GenPiece(p1, true, NoGuard, FULL_SET);
      BoundaryEnds(g1);
      PieceLabel(IPartialCommit, 2, g1);
    } else {
      var g1 := Gen(p1, p2.TTrue?, GuardOf(cs1, e1), FULL_SET);
      GenPiece(p1, p2.TTrue?, GuardOf(cs1, e1), FULL_SET);
      FullChoicePiece(cs1, e1, g1, g2);
    }
  }

  lemma TestedChoicePiece(cs: Charset, g1: Code, g2: Code, emptyp2: bool)
    requires Piece(g1) && Piece(g2)
    ensures var jmp := if emptyp2 then [] else [Inst(IJmp), Offset(2 + |g2|)];
            Piece(GenTest(cs, false, |g1| + |jmp|) + g1 + jmp + g2)
  {
    hide Piece, GenTest, Boundary;
    var jmp := if emptyp2 then [] else [Inst(IJmp), Offset(2 + |g2|)];
    var test := GenTest(cs, false, |g1| + |jmp|);
    BoundaryEnds(g2);
    var tail := jmp + g2;
    if emptyp2 {
      assert tail == g2;
    } else {
      PieceLabel(IJmp, 2 + |g2|, g2);
    }
    assert Boundary(tail, |jmp|);
    BoundaryEnds(tail);
    BoundaryConcat(g1, tail, |jmp|);
    PieceConcat(g1, tail);
    PieceTest(cs, false, |g1| + |jmp|, g1 + tail);
    assert test + g1 + jmp + g2 == test + (g1 + tail);
  }

  lemma FullChoicePiece(cs: Charset, e: bool, g1: Code, g2: Code)
    requires Piece(g1) && Piece(g2)
    ensures Piece(GenTest(cs, e, |g1| + 4) + [Inst(IChoice), Offset(|g1| + 4)] + g1 + [Inst(ICommit), Offset(2 + |g2|)] + g2)
  {
    hide Piece, GenTest, Boundary;
    var test := GenTest(cs, e, |g1| + 4);
    var choice, commit := [Inst(IChoice), Offset(|g1| + 4)], [Inst(ICommit), Offset(2 + |g2|)];
    BoundaryEnds(g2);
    PieceLabel(ICommit, 2 + |g2|, g2);
    var tail := commit + g2;
    assert Boundary(tail, 0 + 2);
    BoundaryEnds(tail);
    BoundaryConcat(g1, tail, 2);
    PieceConcat(g1, tail);
    PieceLabel(IChoice, |g1| + 4, g1 + tail);
    assert Boundary(choice + (g1 + tail), (|g1| + 2) + 2);
    PieceTest(cs, e, |g1| + 4, choice + (g1 + tail));
    assert test + choice + g1 + commit + g2 == test + (choice + (g1 + tail));
  }

  lemma {:induction false} RepPiece(t: Tree, opt: bool, fl: Charset)
    requires t.TRep? && WellFormed(t)
    ensures Piece(GenRep(t, opt, fl))
    decreases t, 0
  {
    hide Piece, Gen, Boundary, GenTest;
    var p := t.body;
    var (st, e1) := GetFirst(p, FULL_SET);
    if IsCharset(p) {
      PieceSpan(ISpan, ToCharset(p));
    } else if CanTest(p, fl) {
      GenPiece(p, false, GuardOf(st, false), FULL_SET);
      PieceLoop(st, Gen(p, false, GuardOf(st, false), FULL_SET));
    } else {
      var g := Gen(p, false, NoGuard, FULL_SET);
      GenPiece(p, false, NoGuard, FULL_SET);
      ChoiceRepPiece(st, e1, opt, g);
    }
  }

  lemma ChoiceRepPiece(cs: Charset, e: bool, opt: bool, g: Code)
    requires Piece(g)
    ensures Piece(GenTest(cs, e, |g| + 4) +
                  (if opt then [Inst(IPartialCommit), Offset(2)] else [Inst(IChoice), Offset(|g| + 4)]) +
                  g + [Inst(IPartialCommit), Offset(-|g|)])
  {
    hide Piece, GenTest, Boundary;
    var test := GenTest(cs, e, |g| + 4);
    var enter := if opt then [Inst(IPartialCommit), Offset(2)] else [Inst(IChoice), Offset(|g| + 4)];
    var again := [Inst(IPartialCommit), Offset(-|g|)];
    var tail := g + again;
    PieceBack(g);
    BoundaryEnds(tail);
    if opt { PieceLabel(IPartialCommit, 2, tail); } else { PieceLabel(IChoice, |g| + 4, tail); }
    BoundaryEnds(enter + tail);
    PieceTest(cs, e, |g| + 4, enter + tail);
    assert test + enter + g + again == test + (enter + tail);
  }

  lemma {:induction false} NotPiece(t: Tree)
    requires t.TNot? && WellFormed(t)
    ensures Piece(GenNot(t))
    decreases t, 0
  {
    hide Piece, Gen, Boundary, GenTest;
    var p := t.body;
    var (st, e) := GetFirst(p, FULL_SET);
    if HeadFail(p) {
      PiecePlain(IFail);
      BoundaryEnds([Inst(IFail)]);
      PieceTest(st, e, 1, [Inst(IFail)]);
    } else {
      var g := Gen(p, false, NoGuard, FULL_SET);
      var choice := [Inst(IChoice), Offset(|g| + 3)];
      GenPiece(p, false, NoGuard, FULL_SET);
      PiecePlain(IFailTwice);
      var tail := g + [Inst(IFailTwice)];
      PieceConcat(g, [Inst(IFailTwice)]);
      BoundaryEnds(tail);
      PieceLabel(IChoice, |g| + 3, tail);
      BoundaryEnds(choice + tail);
      PieceTest(st, e, |g| + 3, choice + tail);
      assert GenTest(st, e, |g| + 3) + choice + g + [Inst(IFailTwice)] == GenTest(st, e, |g| + 3) + (choice + tail);
    }
  }

  lemma {:induction false} AndPiece(t: Tree, tt: Guard)
    requires t.TAnd? && WellFormed(t)
    ensures Piece(GenAnd(t, tt))
    decreases t, 0
  {
    hide Piece, Gen, Boundary, FixedLenX, HasCaptures;
    var p := t.body;
    var n := FixedLen(p);
    var g := Gen(p, false, tt, FULL_SET);
    GenPiece(p, false, tt, FULL_SET);
    if 0 <= n <= MAX_BEHIND && !HasCaptures(p) {
      if n > 0 { PiecePlain(IBehind(n)); } else { PieceEmpty(); }
      PieceConcat(g, if n > 0 then [Inst(IBehind(n))] else []);
    } else {
      var choice, back := [Inst(IChoice), Offset(|g| + 4)], [Inst(IBackCommit), Offset(3)];
      PiecePlain(IFail);
      BoundaryEnds([Inst(IFail)]);
      PieceLabel(IBackCommit, 3, [Inst(IFail)]);
      var tail := back + [Inst(IFail)];
      assert Boundary(tail, 0 + 2);
      BoundaryEnds(tail);
      BoundaryConcat(g, tail, 2);
      PieceConcat(g, tail);
      PieceLabel(IChoice, |g| + 4, g + tail);
      assert choice + g + [Inst(IBackCommit), Offset(3), Inst(IFail)] == choice + (g + tail);
    }
  }

  lemma {:induction false} CapturePiece(t: Tree, tt: Guard, fl: Charset)
    requires t.TCapture? && WellFormed(t)
    ensures Piece(GenCapture(t, tt, fl))
    decreases t, 0
  {
    hide Piece, Gen;
    var TCapture(cap, key, p) := t;
    var g := Gen(p, false, tt, fl);
    GenPiece(p, false, tt, fl);
    if IsFullCapture(p) {
      var full := IFullCapture(JoinKindOff(cap, FixedLen(p)), key);
      PiecePlain(full);
      PieceConcat(g, [Inst(full)]);
    } else {
      var open, close := IOpenCapture(JoinKindOff(cap, 0), key), ICloseCapture(JoinKindOff(0, 0), 0);
      PiecePlain(open);
      PiecePlain(close);
      PieceConcat([Inst(open)], g);
      PieceConcat([Inst(open)] + g, [Inst(close)]);
    }
  }

  /** Addresses of the instructions of a code array without fillers. */
  function Starts(code: Code): set<int> {
    set j | 0 <= j < |code| && code[j].Inst?
  }

  /** How far a jump is from the end of its chain. */
  function RankOf(code: Code, j: int): nat
    requires 0 <= j < |code|
  {
    if !code[j].Inst? || !code[j].op.IJmp? || !OffsetAt(code, j) || Target(code, j) > |code| then 0
    else if Target(code, j) > j then 2 * (|code| - Target(code, j)) + 1
    else 2 * (|code| - j)
  }

  function Rank(code: Code): (r: seq<nat>)
    ensures |r| == |code|
  {
    seq(|code|, j requires 0 <= j < |code| => RankOf(code, j))
  }

  /** The code of a pattern is ready for the peephole pass. */
  lemma PatternLinked(t: Tree)
    requires WellFormed(t)
    ensures var code := GenPattern(t);
            Ranked(code, Starts(code), Rank(code)) && 0 in Starts(code) && ParsedFrom(code, Starts(code), 0)
  {
    hide Gen, Piece, Starts, Rank, Ranked, ParsedFrom;
    var g := Gen(t, false, NoGuard, FULL_SET);
    GenPiece(t, false, NoGuard, FULL_SET);
    PiecePlain(IEnd);
    PieceConcat(g, [Inst(IEnd)]);
    forall j | j in Starts(GenPattern(t))
      ensures LabelsInside(GenPattern(t), j)
    {
      EndedPiece(g, j);
    }
    PieceLinked(GenPattern(t));
  }

  /** Labels and the next instruction are inside of the code, not at its end. */
  predicate LabelsInside(code: Code, j: int) {
    j in Starts(code) &&
    (HasOffset(code[j].op) ==> OffsetAt(code, j) && Target(code, j) in Starts(code)) &&
    (!NeverFalls(code[j].op) ==> j + SizeI(code[j].op) in Starts(code))
  }

  /** With a last instruction behind it, no label of a piece leads to its end. */
  lemma EndedPiece(g: Code, j: int)
    requires Piece(g) && j in Starts(g + [Inst(IEnd)])
    ensures LabelsInside(g + [Inst(IEnd)], j) && 0 in Starts(g + [Inst(IEnd)])
  {
    hide Piece, SizeI, HasOffset;
    var code := g + [Inst(IEnd)];
    assert code[|g|] == Inst(IEnd);
    PieceBegins(g);
    assert !HasOffset(IEnd) by { PlainEnd(); }
    if j < |g| {
      PieceAt(g, j);
      if HasOffset(g[j].op) { assert Target(code, j) == Target(g, j); }
    }
  }

  lemma PlainEnd()
    ensures !HasOffset(IEnd)
  {
  }

  lemma PieceLinked(code: Code)
    requires Piece(code) && |code| > 0
    requires forall j :: j in Starts(code) ==> LabelsInside(code, j)
    ensures Ranked(code, Starts(code), Rank(code)) && ParsedFrom(code, Starts(code), 0) && 0 in Starts(code)
  {
    hide Piece, Ranked, Linked, LinkedAt, RankOf, InstOk, LabelsInside, ParsedFrom;
    PieceBegins(code);
    forall j | j in Starts(code)
      ensures LinkedAt(code, Starts(code), Rank(code), j)
    {
      PieceAt(code, j);
      if code[j].op.IJmp? { RankLess(code, j); }
      InstLinked(code, j);
    }
    RankedFrom(code, Starts(code), Rank(code));
    PieceParsed(code);
  }

  lemma PieceParsed(code: Code)
    requires Piece(code)
    ensures ParsedFrom(code, Starts(code), 0)
  {
    hide Piece, InstOk, SizeI;
    forall j | j in Starts(code)
      ensures j + SizeI(code[j].op) in Starts(code) || j + SizeI(code[j].op) == |code|
    {
      PieceAt(code, j);
      NextBoundary(code, j);
    }
  }

  lemma NextBoundary(code: Code, j: int)
    requires 0 <= j < |code| && code[j].Inst? && InstOk(code, j)
    ensures Boundary(code, j + SizeI(code[j].op))
  {
  }

  lemma InstLinked(code: Code, j: int)
    requires j in Starts(code) && InstOk(code, j) && LabelsInside(code, j)
    requires code[j].op.IJmp? ==> OffsetAt(code, j) && 0 <= Target(code, j) < |code| && RankOf(code, Target(code, j)) < RankOf(code, j)
    ensures LinkedAt(code, Starts(code), Rank(code), j)
  {
    hide RankOf, JumpOk, SizeI, HasOffset, NeverFalls;
    JumpHasOffset();
  }

  lemma JumpHasOffset()
    ensures HasOffset(IJmp)
  {
  }

  lemma RankLess(code: Code, j: int)
    requires Piece(code) && j in Starts(code) && code[j].op.IJmp? && LabelsInside(code, j)
    requires forall k :: k in Starts(code) ==> LabelsInside(code, k)
    ensures OffsetAt(code, j) && 0 <= Target(code, j) < |code| && RankOf(code, Target(code, j)) < RankOf(code, j)
  {
    hide Piece;
    PieceAt(code, j);
    var t := Target(code, j);
    assert LabelsInside(code, t);
    if code[t].op.IJmp? { PieceAt(code, t); }
  }
}
