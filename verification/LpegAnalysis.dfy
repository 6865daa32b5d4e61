/** The conservative analyses of LPeg's compiler, and what each of them promises
    about the meaning of a tree. */
module LpegAnalysis {
  import opened LpegTree

  const MAX_BEHIND: nat := 255   // largest look-behind, the range of an instruction's `aux`
  const MAX_OFF: nat := 15       // largest length of a full capture, a 4-bit field

  /** The set of a tree that matches a single character. */
  predicate IsCharset(t: Tree) {
    t.TSet? || t.TChar? || t.TAny?
  }

  function ToCharset(t: Tree): Charset
    requires IsCharset(t)
  {
    match t
    case TSet(cs) => cs
    case TChar(c) => {c}
    case TAny => FULL_SET
  }

  predicate HasCaptures(t: Tree) {
    match t
    case TCapture(_, _, _) => true
    case TRep(p) => HasCaptures(p)
    case TNot(p) => HasCaptures(p)
    case TAnd(p) => HasCaptures(p)
    case TBehind(_, p) => HasCaptures(p)
    case TSeq(p1, p2) => HasCaptures(p1) || HasCaptures(p2)
    case TChoice(p1, p2) => HasCaptures(p1) || HasCaptures(p2)
    case _ => false
  }

  datatype Check = PEnullable | PEnofail

  /** `checkaux`: two analyses in one, chosen by `pred`. */
  predicate CheckAux(t: Tree, pred: Check) {
    match t
    case TChar(_) => false
    case TSet(_) => false
    case TAny => false
    case TFalse => false
    case TRep(_) => true
    case TTrue => true
    case TNot(_) => pred == PEnullable
    case TBehind(_, _) => pred == PEnullable
    case TAnd(p) => pred == PEnullable || CheckAux(p, pred)
    case TSeq(p1, p2) => CheckAux(p1, pred) && CheckAux(p2, pred)
    case TChoice(p1, p2) => CheckAux(p2, pred) || CheckAux(p1, pred)
    case TCapture(_, _, p) => CheckAux(p, pred)
  }

  predicate Nullable(t: Tree) { CheckAux(t, PEnullable) }

  predicate NoFail(t: Tree) { CheckAux(t, PEnofail) }

  /** `fixedlenx`: `len` plus the number of characters that `t` matches, or -1. */
  function FixedLenX(t: Tree, len: nat): (r: int)
    ensures r == -1 || r >= len
  {
    match t
    case TChar(_) => len + 1
    case TSet(_) => len + 1
    case TAny => len + 1
    case TFalse => len
    case TTrue => len
    case TNot(_) => len
    case TAnd(_) => len
    case TBehind(_, _) => len
    case TRep(_) => -1
    case TCapture(_, _, p) => FixedLenX(p, len)
    case TSeq(p1, p2) =>
      var len1 := FixedLenX(p1, len);
      if len1 < 0 then -1 else FixedLenX(p2, len1)
    case TChoice(p1, p2) =>
      var n1 := FixedLenX(p1, len);
      if n1 < 0 then -1
      else
        var n2 := FixedLenX(p2, len);
        if n1 == n2 then n1 else -1
  }

  function FixedLen(t: Tree): int { FixedLenX(t, 0) }

  /** `getfirst`: the first set of `t` followed by `fl`, and whether `t` may accept
      the empty string (then the set cannot be used in a test). */
  function GetFirst(t: Tree, fl: Charset): (Charset, bool) {
    match t
    case TChar(_) => (ToCharset(t), false)
    case TSet(_) => (ToCharset(t), false)
    case TAny => (ToCharset(t), false)
    case TTrue => (fl, true)
    case TFalse => ({}, false)
    case TChoice(p1, p2) =>
      var (f1, e1) := GetFirst(p1, fl);
      var (f2, e2) := GetFirst(p2, fl);
      (f1 + f2, e1 || e2)
    case TSeq(p1, p2) =>
      if !Nullable(p1) then GetFirst(p1, FULL_SET)
      else
        var (f2, e2) := GetFirst(p2, fl);
        var (f1, e1) := GetFirst(p1, f2);
        (f1, e1 && e2)
    case TRep(p) =>
      (GetFirst(p, fl).0 + fl, true)
    case TCapture(_, _, p) => GetFirst(p, fl)
    case TAnd(p) =>
      var (f, e) := GetFirst(p, fl);
      (f * fl, e)
    case TNot(p) =>
      if IsCharset(p) then (FULL_SET - ToCharset(p), true) else (fl, true)
    case TBehind(_, _) => (fl, true)
  }

  function First(t: Tree, fl: Charset): Charset { GetFirst(t, fl).0 }

  /** May `t` accept the empty string, as far as `getfirst` can tell? */
  predicate AcceptsEmpty(t: Tree) { GetFirst(t, FULL_SET).1 }

  predicate HeadFail(t: Tree) {
    match t
    case TChar(_) => true
    case TSet(_) => true
    case TAny => true
    case TFalse => true
    case TTrue => false
    case TRep(_) => false
    case TNot(_) => false
    case TBehind(_, _) => false
    case TCapture(_, _, p) => HeadFail(p)
    case TAnd(p) => HeadFail(p)
    case TSeq(p1, p2) => NoFail(p2) && HeadFail(p1)
    case TChoice(p1, p2) => HeadFail(p1) && HeadFail(p2)
  }

  predicate NeedFollow(t: Tree) {
    match t
    case TChoice(_, _) => true
    case TRep(_) => true
    case TCapture(_, _, p) => NeedFollow(p)
    case TSeq(_, p2) => NeedFollow(p2)
    case _ => false
  }

  /** What the pattern constructors check: no repetition of a nullable body, and a
      look-behind over a pattern of known length without captures. Capture kinds
      fit the 4 bits that an instruction has for them. */
  predicate WellFormed(t: Tree) {
    match t
    case TRep(p) => !Nullable(p) && WellFormed(p)
    case TSeq(p1, p2) => WellFormed(p1) && WellFormed(p2)
    case TChoice(p1, p2) => WellFormed(p1) && WellFormed(p2)
    case TNot(p) => WellFormed(p)
    case TAnd(p) => WellFormed(p)
    case TBehind(n, p) => n == FixedLen(p) && n <= MAX_BEHIND && !HasCaptures(p) && WellFormed(p)
    case TCapture(cap, _, p) => cap < 16 && WellFormed(p)
    case _ => true
  }

  /** A pattern that `nofail` accepts matches every subject. */
  lemma {:induction false} NoFailSound(t: Tree, s: Subject, i: nat)
    requires i <= |s| && NoFail(t)
    ensures Peg(t, s, i).Succ?
  {
    match t
    case TAnd(p) => NoFailSound(p, s, i);
    case TCapture(_, _, p) => NoFailSound(p, s, i);
    case TSeq(p1, p2) =>
      NoFailSound(p1, s, i);
      NoFailSound(p2, s, Peg(p1, s, i).pos);
    case TChoice(p1, p2) =>
      if CheckAux(p2, PEnofail) { NoFailSound(p2, s, i); } else { NoFailSound(p1, s, i); }
    case _ =>
  }

  /** A pattern that can succeed without consuming anything is `nullable`. */
  lemma {:induction false} NullableSound(t: Tree, s: Subject, i: nat)
    requires i <= |s| && !Nullable(t)
    ensures Peg(t, s, i).Succ? ==> i < Peg(t, s, i).pos
  {
    match t
    case TCapture(_, _, p) => NullableSound(p, s, i);
    case TSeq(p1, p2) =>
      if Peg(p1, s, i).Succ? {
        if !CheckAux(p1, PEnullable) {
          NullableSound(p1, s, i);
        } else {
          NullableSound(p2, s, Peg(p1, s, i).pos);
        }
      }
    case TChoice(p1, p2) =>
      NullableSound(p1, s, i);
      NullableSound(p2, s, i);
    case _ =>
  }

  /** `fixedlen` is exact: every success consumes that many characters. */
  lemma {:induction false} FixedLenXSound(t: Tree, len: nat, s: Subject, i: nat)
    requires i <= |s| && FixedLenX(t, len) >= 0
    ensures Peg(t, s, i).Succ? ==> Peg(t, s, i).pos == i + FixedLenX(t, len) - len
  {
    match t
    case TCapture(_, _, p) => FixedLenXSound(p, len, s, i);
    case TSeq(p1, p2) =>
      FixedLenXSound(p1, len, s, i);
      if Peg(p1, s, i).Succ? {
        FixedLenXSound(p2, FixedLenX(p1, len), s, Peg(p1, s, i).pos);
      }
    case TChoice(p1, p2) =>
      FixedLenXSound(p1, len, s, i);
      FixedLenXSound(p2, len, s, i);
    case _ =>
  }

  /** A pattern without captures produces no capture event. */
  lemma {:induction false} NoCapturesSound(t: Tree, s: Subject, i: nat)
    requires i <= |s| && !HasCaptures(t)
    ensures Peg(t, s, i).Succ? ==> Peg(t, s, i).events == []
    decreases t, |s| - i
  {
    match t
    case TSeq(p1, p2) =>
      NoCapturesSound(p1, s, i);
      if Peg(p1, s, i).Succ? { NoCapturesSound(p2, s, Peg(p1, s, i).pos); }
    case TChoice(p1, p2) =>
      NoCapturesSound(p1, s, i);
      NoCapturesSound(p2, s, i);
    case TRep(p) =>
      NoCapturesSound(p, s, i);
      if Peg(p, s, i).Succ? && Peg(p, s, i).pos > i { NoCapturesSound(t, s, Peg(p, s, i).pos); }
    case _ =>
  }

  /** The first set: on a character outside `First(t, fl)`, `t` fails, or it matches
      the empty string in front of a character that is not in `fl`. */
  lemma {:induction false} FirstSound(t: Tree, fl: Charset, s: Subject, i: nat)
    requires i < |s| && s[i] !in First(t, fl)
    ensures Peg(t, s, i).Succ? ==> Peg(t, s, i).pos == i && s[i] !in fl
  {
    match t
    case TCapture(_, _, p) => FirstSound(p, fl, s, i);
    case TChoice(p1, p2) =>
      FirstSound(p1, fl, s, i);
      FirstSound(p2, fl, s, i);
    case TSeq(p1, p2) =>
      if !CheckAux(p1, PEnullable) {
        FirstSound(p1, FULL_SET, s, i);
      } else {
        FirstSound(p1, First(p2, fl), s, i);
        if Peg(p1, s, i).Succ? { FirstSound(p2, fl, s, i); }
      }
    case TRep(p) => FirstSound(p, fl, s, i);
    case TAnd(p) => if s[i] !in First(p, fl) { FirstSound(p, fl, s, i); }
    case _ =>
  }

  /** When `getfirst` does not report the empty string, the pattern fails at the
      end of the subject, whatever follows it. */
  lemma {:induction false} EmptySound(t: Tree, fl: Charset, s: Subject)
    requires !GetFirst(t, fl).1
    ensures Peg(t, s, |s|).Fail?
  {
    match t
    case TCapture(_, _, p) => EmptySound(p, fl, s);
    case TAnd(p) => EmptySound(p, fl, s);
    case TChoice(p1, p2) =>
      EmptySound(p1, fl, s);
      EmptySound(p2, fl, s);
    case TSeq(p1, p2) =>
      if !CheckAux(p1, PEnullable) {
        EmptySound(p1, FULL_SET, s);
      } else if !GetFirst(p1, First(p2, fl)).1 {
        EmptySound(p1, First(p2, fl), s);
      } else if Peg(p1, s, |s|).Succ? {
        EmptySound(p2, fl, s);
      }
    case _ =>
  }

  /** The first set of a pattern that cannot fail, followed by anything, is full. */
  lemma NoFailFirst(t: Tree)
    requires NoFail(t)
    ensures First(t, FULL_SET) == FULL_SET
  {
    forall b: Byte ensures b in First(t, FULL_SET) {
      if b !in First(t, FULL_SET) {
        FirstSound(t, FULL_SET, [b], 0);
        NoFailSound(t, [b], 0);
      }
    }
  }

  /** A `headfail` pattern succeeds exactly when the next character is in its first
      set; in particular it fails at the end of the subject. */
  lemma {:induction false} HeadFailSound(t: Tree, s: Subject, i: nat)
    requires i <= |s| && HeadFail(t)
    ensures !AcceptsEmpty(t)
    ensures Peg(t, s, i).Succ? <==> i < |s| && s[i] in First(t, FULL_SET)
  {
    match t
    case TCapture(_, _, p) => HeadFailSound(p, s, i);
    case TAnd(p) => HeadFailSound(p, s, i);
    case TChoice(p1, p2) =>
      HeadFailSound(p1, s, i);
      HeadFailSound(p2, s, i);
    case TSeq(p1, p2) =>
      HeadFailSound(p1, s, i);
      NoFailFirst(p2);
      if Peg(p1, s, i).Succ? { NoFailSound(p2, s, Peg(p1, s, i).pos); }
    case _ =>
  }
}
