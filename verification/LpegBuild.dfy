/** The operators that build patterns. They simplify some trees on the way, and refuse
    the others that the compiler could not handle. */
module LpegBuild {
  import opened LpegTree
  import opened LpegAnalysis

  datatype Built = Ok(tree: Tree) | Error(message: string)

  /** `lp_seq` */
  function MakeSeq(t1: Tree, t2: Tree): (r: Tree)
    ensures WellFormed(t1) && WellFormed(t2) ==> WellFormed(r)
    ensures (t1.TFalse? || t2.TTrue? ==> r == t1) && (t1.TTrue? ==> r == t2)
  {
    if t1.TFalse? || t2.TTrue? then t1
    else if t1.TTrue? then t2
    else TSeq(t1, t2)
  }

  /** `lp_choice` */
  function MakeChoice(t1: Tree, t2: Tree): (r: Tree)
    ensures WellFormed(t1) && WellFormed(t2) ==> WellFormed(r)
    ensures IsCharset(t1) && IsCharset(t2) ==> IsCharset(r)
    ensures (NoFail(t1) || t2.TFalse? ==> r == t1) && (t1.TFalse? ==> r == t2)
  {
    if IsCharset(t1) && IsCharset(t2) then TSet(ToCharset(t1) + ToCharset(t2))
    else if NoFail(t1) || t2.TFalse? then t1
    else if t1.TFalse? then t2
    else TChoice(t1, t2)
  }

  /** `lp_sub` */
  function MakeSub(t1: Tree, t2: Tree): (r: Tree)
    ensures WellFormed(t1) && WellFormed(t2) ==> WellFormed(r)
    ensures IsCharset(t1) && IsCharset(t2) ==> IsCharset(r)
  {
    if IsCharset(t1) && IsCharset(t2) then TSet(ToCharset(t1) - ToCharset(t2))
    else TSeq(TNot(t2), t1)
  }

  /** `lp_star`: at least `n` times, or at most `-n` times when `n` is negative. */
  function MakeStar(t: Tree, n: int): (r: Built)
    ensures r.Error? <==> n >= 0 && Nullable(t)
    ensures r.Ok? && WellFormed(t) ==> WellFormed(r.tree)
  {
    if n >= 0 then
      if Nullable(t) then Error("loop body may accept empty string") else Ok(AtLeast(t, n))
    else Ok(AtMost(t, -n))
  }

  /** seq t (seq t ... (rep t)) */
  function AtLeast(t: Tree, n: nat): (r: Tree)
    ensures WellFormed(t) && !Nullable(t) ==> WellFormed(r)
  {
    if n == 0 then TRep(t) else TSeq(t, AtLeast(t, n - 1))
  }

  /** choice (seq t ... (choice t true)) true */
  function AtMost(t: Tree, n: nat): (r: Tree)
    requires n > 0
    ensures WellFormed(t) ==> WellFormed(r)
  {
    if n == 1 then TChoice(t, TTrue) else TChoice(TSeq(t, AtMost(t, n - 1)), TTrue)
  }

  /** `lp_behind` */
  function MakeBehind(t: Tree): (r: Built)
    ensures r.Ok? <==> 0 <= FixedLen(t) <= MAX_BEHIND && !HasCaptures(t)
    ensures r.Ok? && WellFormed(t) ==> WellFormed(r.tree)
  {
    if FixedLen(t) < 0 then Error("pattern may not have fixed length")
    else if HasCaptures(t) then Error("pattern have captures")
    else if FixedLen(t) > MAX_BEHIND then Error("pattern too long to look behind")
    else Ok(TBehind(FixedLen(t), t))
  }

  /** Simplification keeps the meaning of a sequence. */
  lemma MakeSeqMeans(t1: Tree, t2: Tree, s: Subject, i: nat)
    requires i <= |s|
    ensures Peg(MakeSeq(t1, t2), s, i) == Peg(TSeq(t1, t2), s, i)
  {
    if !t1.TFalse? && t2.TTrue? && Peg(t1, s, i).Succ? {
      assert Peg(t1, s, i).events + [] == Peg(t1, s, i).events;
    }
    if t1.TTrue? && Peg(t2, s, i).Succ? {
      assert [] + Peg(t2, s, i).events == Peg(t2, s, i).events;
    }
  }

  /** Simplification keeps the meaning of an ordered choice. */
  lemma MakeChoiceMeans(t1: Tree, t2: Tree, s: Subject, i: nat)
    requires i <= |s|
    ensures Peg(MakeChoice(t1, t2), s, i) == Peg(TChoice(t1, t2), s, i)
  {
    assert i < |s| ==> s[i] in FULL_SET;
    if NoFail(t1) { NoFailSound(t1, s, i); }
  }

  /** The difference of two patterns: the first one where the second one fails. */
  lemma MakeSubMeans(t1: Tree, t2: Tree, s: Subject, i: nat)
    requires i <= |s|
    ensures Peg(MakeSub(t1, t2), s, i) == if Peg(t2, s, i).Succ? then Fail else Peg(t1, s, i)
  {
    if IsCharset(t1) && IsCharset(t2) {
      CharsetMeans(t1, s, i);
      CharsetMeans(t2, s, i);
    } else {
      NotSeqMeans(t1, t2, s, i);
    }
  }

  /** A tree that matches a single character. */
  lemma CharsetMeans(t: Tree, s: Subject, i: nat)
    requires i <= |s| && IsCharset(t)
    ensures Peg(t, s, i) == OneOf(ToCharset(t), s, i)
  {
  }

  lemma NotSeqMeans(t1: Tree, t2: Tree, s: Subject, i: nat)
    requires i <= |s|
    ensures Peg(TSeq(TNot(t2), t1), s, i) == if Peg(t2, s, i).Succ? then Fail else Peg(t1, s, i)
  {
    if Peg(t1, s, i).Succ? { assert [] + Peg(t1, s, i).events == Peg(t1, s, i).events; }
    assert Peg(TNot(t2), s, i) == if Peg(t2, s, i).Fail? then Succ(i, []) else Fail;
  }

  /** The position after `k` matches of `t` in a row, from `i`. */
  function AfterMatches(t: Tree, s: Subject, i: nat, k: nat): (r: Result)
    requires i <= |s|
    ensures r.Succ? ==> i <= r.pos <= |s|
    decreases k
  {
    if k == 0 then Succ(i, [])
    else
      match Peg(t, s, i)
      case Fail => Fail
      case Succ(j, ev) =>
        match AfterMatches(t, s, j, k - 1)
        case Fail => Fail
        case Succ(j2, ev2) => Succ(j2, ev + ev2)
  }

  /** `k` matches, and then the pattern does not match again. */
  predicate ExactlyMatches(t: Tree, s: Subject, i: nat, k: nat)
    requires i <= |s|
  {
    var r := AfterMatches(t, s, i, k);
    r.Succ? && Peg(t, s, r.pos).Fail?
  }

  /** How often a repetition matches its body. */
  function MatchCount(t: Tree, s: Subject, i: nat): nat
    requires i <= |s| && !Nullable(t)
    decreases |s| - i
  {
    NullableSound(t, s, i);
    match Peg(t, s, i)
    case Fail => 0
    case Succ(j, _) => 1 + MatchCount(t, s, j)
  }

  lemma {:induction false} CountExact(t: Tree, s: Subject, i: nat)
    requires i <= |s| && !Nullable(t)
    ensures ExactlyMatches(t, s, i, MatchCount(t, s, i))
    ensures Peg(TRep(t), s, i) == AfterMatches(t, s, i, MatchCount(t, s, i))
    decreases |s| - i
  {
    NullableSound(t, s, i);
    if Peg(t, s, i).Succ? { CountExact(t, s, Peg(t, s, i).pos); }
  }

  lemma {:induction false} CountUnique(t: Tree, s: Subject, i: nat, k: nat)
    requires i <= |s| && !Nullable(t) && ExactlyMatches(t, s, i, k)
    ensures k == MatchCount(t, s, i)
    decreases k
  {
    NullableSound(t, s, i);
    if k > 0 { CountUnique(t, s, Peg(t, s, i).pos, k - 1); }
  }

  lemma {:induction false} AfterMore(t: Tree, s: Subject, i: nat, k: nat, m: nat)
    requires i <= |s| && k <= m && AfterMatches(t, s, i, m).Succ?
    ensures AfterMatches(t, s, i, k).Succ?
    decreases k
  {
    if k > 0 { AfterMore(t, s, Peg(t, s, i).pos, k - 1, m - 1); }
  }

  /** `p^n`, n >= 0: matches exactly when `p` matches `n` times in a row, and then takes
      as many matches as there are. */
  lemma {:induction false} AtLeastMeans(t: Tree, n: nat, s: Subject, i: nat)
    requires i <= |s| && !Nullable(t)
    ensures Peg(AtLeast(t, n), s, i).Succ? <==> n <= MatchCount(t, s, i)
    ensures n <= MatchCount(t, s, i) ==> Peg(AtLeast(t, n), s, i) == AfterMatches(t, s, i, MatchCount(t, s, i))
    decreases n
  {
    if n == 0 {
      CountExact(t, s, i);
    } else {
      NullableSound(t, s, i);
      if Peg(t, s, i).Succ? { AtLeastMeans(t, n - 1, s, Peg(t, s, i).pos); }
    }
  }

  lemma AfterOneMore(t: Tree, s: Subject, i: nat, k: nat)
    requires i <= |s| && Peg(t, s, i).Succ? && AfterMatches(t, s, Peg(t, s, i).pos, k).Succ?
    ensures var rest := AfterMatches(t, s, Peg(t, s, i).pos, k);
            AfterMatches(t, s, i, 1 + k) == Succ(rest.pos, Peg(t, s, i).events + rest.events)
  {
  }

  /** `p^-n`: always matches; takes as many matches as there are, up to `n`. */
  lemma {:induction false} AtMostMeans(t: Tree, n: nat, s: Subject, i: nat) returns (k: nat)
    requires i <= |s| && n > 0
    ensures k <= n && Peg(AtMost(t, n), s, i) == AfterMatches(t, s, i, k)
    ensures AfterMatches(t, s, i, k).Succ? && (k < n ==> Peg(t, s, AfterMatches(t, s, i, k).pos).Fail?)
    decreases n
  {
    hide Peg, AtMost, AfterMatches;
    AtMostUnfold(t, n, s, i);
    AfterNone(t, s, i);
    var r := Peg(t, s, i);
    if r.Fail? {
      k := 0;
    } else if n == 1 {
      k := 1;
      AfterNone(t, s, r.pos);
      AfterOneMore(t, s, i, 0);
    } else {
      var k1 := AtMostMeans(t, n - 1, s, r.pos);
      k := 1 + k1;
      AfterOneMore(t, s, i, k1);
    }
  }

  /** `p^n`: what is built matches `p` at least `n` times, and as often as it can; and for a
      negative `n` at most `-n` times, and less often only where `p` does not match again. */
  lemma MakeStarMeans(t: Tree, n: int, s: Subject, i: nat) returns (k: nat)
    requires i <= |s| && MakeStar(t, n).Ok?
    ensures var r := Peg(MakeStar(t, n).tree, s, i);
            if n >= 0 then
              && !Nullable(t) && k == MatchCount(t, s, i) && ExactlyMatches(t, s, i, k)
              && r == if n <= k then AfterMatches(t, s, i, k) else Fail
            else
              && k <= -n && r == AfterMatches(t, s, i, k) && r.Succ?
              && (k < -n ==> ExactlyMatches(t, s, i, k))
  {
    hide Peg, AtLeast, AtMost, AfterMatches, MatchCount, Nullable;
    if n >= 0 {
      k := MatchCount(t, s, i);
      CountExact(t, s, i);
      AtLeastMeans(t, n, s, i);
    } else {
      k := AtMostMeans(t, -n, s, i);
    }
  }

  /** A look-behind succeeds, and takes nothing, exactly where a match of its pattern ends. */
  lemma MakeBehindMeans(t: Tree, s: Subject, i: nat)
    requires i <= |s| && MakeBehind(t).Ok?
    ensures var r := Peg(MakeBehind(t).tree, s, i);
            && r == (if r.Fail? then Fail else Succ(i, []))
            && (r.Succ? <==> exists j | 0 <= j <= i :: Peg(t, s, j).Succ? && Peg(t, s, j).pos == i)
  {
    hide Peg, FixedLenX;
    var n := FixedLen(t);
    BehindUnfold(n, t, s, i);
    forall j | 0 <= j <= i && Peg(t, s, j).Succ? && Peg(t, s, j).pos == i ensures j == i - n {
      FixedLenXSound(t, 0, s, j);
    }
  }

  lemma BehindUnfold(n: nat, p: Tree, s: Subject, i: nat)
    requires i <= |s|
    ensures Peg(TBehind(n, p), s, i) ==
            if n <= i && Peg(p, s, i - n).Succ? && Peg(p, s, i - n).pos == i then Succ(i, []) else Fail
  {
  }

  lemma AfterNone(t: Tree, s: Subject, i: nat)
    requires i <= |s|
    ensures AfterMatches(t, s, i, 0) == Succ(i, [])
  {
  }

  lemma AtMostUnfold(t: Tree, n: nat, s: Subject, i: nat)
    requires i <= |s| && n > 0
    ensures var r, out := Peg(t, s, i), Peg(AtMost(t, n), s, i);
            if r.Fail? then out == Succ(i, [])
            else if n == 1 then out == Succ(r.pos, r.events + [])
            else
              var rest := Peg(AtMost(t, n - 1), s, r.pos);
              rest.Succ? ==> out == Succ(rest.pos, r.events + rest.events)
  {
    var r := Peg(t, s, i);
    if n == 1 {
      if r.Succ? { assert r.events + [] == r.events; }
    } else {
      SeqUnfold(t, AtMost(t, n - 1), s, i);
      OptionalUnfold(TSeq(t, AtMost(t, n - 1)), s, i);
    }
  }

  lemma SeqUnfold(p1: Tree, p2: Tree, s: Subject, i: nat)
    requires i <= |s|
    ensures var r1 := Peg(p1, s, i);
            Peg(TSeq(p1, p2), s, i) ==
            if r1.Fail? then Fail
            else
              var r2 := Peg(p2, s, r1.pos);
              if r2.Fail? then Fail else Succ(r2.pos, r1.events + r2.events)
  {
  }

  lemma OptionalUnfold(p: Tree, s: Subject, i: nat)
    requires i <= |s|
    ensures Peg(TChoice(p, TTrue), s, i) == if Peg(p, s, i).Fail? then Succ(i, []) else Peg(p, s, i)
  {
  }
}
