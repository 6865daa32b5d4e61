/** Pattern trees as LPeg stores them: in an array of nodes, first child right behind its
    parent, second child at a relative position. The final fix of a tree rewrites this
    array in place; it makes sequences and choices right associative. */
module LpegFlat {
  import opened LpegTree
  import opened LpegAnalysis

  datatype Tag = TagChar | TagSet | TagAny | TagTrue | TagFalse | TagRep | TagSeq | TagChoice
               | TagNot | TagAnd | TagBehind | TagCapture

  /** A node; `u` is a counter, or the relative position of the second child. Fields that
      a node has no use for are 0. The bits of a charset take the nodes behind it. */
  datatype Node =
    | Node(tag: Tag, cap: nat, key: nat, u: nat)
    | SetBits(cs: Charset)
    | MoreBits

  const CHARSET_NODES: nat := 4   // nodes of 8 bytes, for 32 bytes

  /** Number of nodes of a tree. */
  function Size(t: Tree): (n: nat)
    ensures n >= 1
  {
    match t
    case TSet(_) => 1 + CHARSET_NODES
    case TRep(p) => 1 + Size(p)
    case TNot(p) => 1 + Size(p)
    case TAnd(p) => 1 + Size(p)
    case TBehind(_, p) => 1 + Size(p)
    case TCapture(_, _, p) => 1 + Size(p)
    case TSeq(p1, p2) => 1 + Size(p1) + Size(p2)
    case TChoice(p1, p2) => 1 + Size(p1) + Size(p2)
    case _ => 1
  }

  function Encode(t: Tree): (r: seq<Node>)
    ensures |r| == Size(t)
    ensures r[0].Node?
  {
    match t
    case TChar(c) => [Node(TagChar, 0, 0, c)]
    case TSet(cs) => [Node(TagSet, 0, 0, 0), SetBits(cs), MoreBits, MoreBits, MoreBits]
    case TAny => [Node(TagAny, 0, 0, 0)]
    case TTrue => [Node(TagTrue, 0, 0, 0)]
    case TFalse => [Node(TagFalse, 0, 0, 0)]
    case TRep(p) => [Node(TagRep, 0, 0, 0)] + Encode(p)
    case TNot(p) => [Node(TagNot, 0, 0, 0)] + Encode(p)
    case TAnd(p) => [Node(TagAnd, 0, 0, 0)] + Encode(p)
    case TBehind(n, p) => [Node(TagBehind, 0, 0, n)] + Encode(p)
    case TCapture(cap, key, p) => [Node(TagCapture, cap, key, 0)] + Encode(p)
    case TSeq(p1, p2) => [Node(TagSeq, 0, 0, 1 + Size(p1))] + Encode(p1) + Encode(p2)
    case TChoice(p1, p2) => [Node(TagChoice, 0, 0, 1 + Size(p1))] + Encode(p1) + Encode(p2)
  }

  /** One rotation: Op (Op t11 t12) t2 becomes Op t11 (Op t12 t2). */
  function RotateOnce(t: Tree): (r: Tree)
    requires CanRotate(t)
    ensures Size(r) == Size(t)
  {
    match t
    case TSeq(TSeq(a, b), c) => TSeq(a, TSeq(b, c))
    case TChoice(TChoice(a, b), c) => TChoice(a, TChoice(b, c))
  }

  predicate CanRotate(t: Tree) {
    (t.TSeq? && t.first.TSeq?) || (t.TChoice? && t.first.TChoice?)
  }

  /** `correctassociativity` */
  function Rotate(t: Tree): (r: Tree)
    ensures Size(r) == Size(t) && !CanRotate(r)
    ensures (r.TSeq? <==> t.TSeq?) && (r.TChoice? <==> t.TChoice?)
    ensures !t.TSeq? && !t.TChoice? ==> r == t
    decreases if t.TSeq? || t.TChoice? then Size(t.first) else 0
  {
    if CanRotate(t) then Rotate(RotateOnce(t)) else t
  }

  /** `finalfix` */
  function FinalFix(t: Tree): (r: Tree)
    ensures Size(r) == Size(t)
    decreases Size(t)
  {
    match Rotate(t)
    case TRep(p) => TRep(FinalFix(p))
    case TNot(p) => TNot(FinalFix(p))
    case TAnd(p) => TAnd(FinalFix(p))
    case TBehind(n, p) => TBehind(n, FinalFix(p))
    case TCapture(cap, key, p) => TCapture(cap, key, FinalFix(p))
    case TSeq(p1, p2) => TSeq(FinalFix(p1), FinalFix(p2))
    case TChoice(p1, p2) => TChoice(FinalFix(p1), FinalFix(p2))
    case leaf => leaf
  }

  /** No sequence begins with a sequence, no choice with a choice. */
  predicate RightAssociative(t: Tree) {
    !CanRotate(t) &&
    match t
    case TRep(p) => RightAssociative(p)
    case TNot(p) => RightAssociative(p)
    case TAnd(p) => RightAssociative(p)
    case TBehind(_, p) => RightAssociative(p)
    case TCapture(_, _, p) => RightAssociative(p)
    case TSeq(p1, p2) => RightAssociative(p1) && RightAssociative(p2)
    case TChoice(p1, p2) => RightAssociative(p1) && RightAssociative(p2)
    case _ => true
  }

  lemma {:induction false} FinalFixAssociative(t: Tree)
    ensures RightAssociative(FinalFix(t))
    ensures (FinalFix(t).TSeq? <==> t.TSeq?) && (FinalFix(t).TChoice? <==> t.TChoice?)
    decreases Size(t)
  {
    match Rotate(t)
    case TRep(p) => FinalFixAssociative(p);
    case TNot(p) => FinalFixAssociative(p);
    case TAnd(p) => FinalFixAssociative(p);
    case TBehind(n, p) => FinalFixAssociative(p);
    case TCapture(_, _, p) => FinalFixAssociative(p);
    case TSeq(p1, p2) =>
      FinalFixAssociative(p1);
      FinalFixAssociative(p2);
    case TChoice(p1, p2) =>
      FinalFixAssociative(p1);
      FinalFixAssociative(p2);
    case leaf =>
  }

  /** Rotating keeps the meaning, and what the analyses say. */
  lemma {:induction false} RotateKeeps(t: Tree, s: Subject, i: nat)
    requires i <= |s|
    ensures Peg(Rotate(t), s, i) == Peg(t, s, i)
    decreases if t.TSeq? || t.TChoice? then Size(t.first) else 0
  {
    if CanRotate(t) {
      RotateKeeps(RotateOnce(t), s, i);
      RotateOnceKeeps(t, s, i);
    }
  }

  lemma RotateOnceKeeps(t: Tree, s: Subject, i: nat)
    requires i <= |s| && CanRotate(t)
    ensures Peg(RotateOnce(t), s, i) == Peg(t, s, i)
  {
    match t
    case TSeq(TSeq(a, b), c) =>
      var ra := Peg(a, s, i);
      if ra.Succ? {
        var rb := Peg(b, s, ra.pos);
        if rb.Succ? {
          var rc := Peg(c, s, rb.pos);
          if rc.Succ? { assert (ra.events + rb.events) + rc.events == ra.events + (rb.events + rc.events); }
        }
      }
    case TChoice(TChoice(a, b), c) =>
  }

  lemma {:induction false} RotateAnalysis(t: Tree, pred: Check, len: nat)
    ensures CheckAux(Rotate(t), pred) == CheckAux(t, pred) && FixedLenX(Rotate(t), len) == FixedLenX(t, len)
    ensures HasCaptures(Rotate(t)) == HasCaptures(t) && WellFormed(Rotate(t)) == WellFormed(t)
    decreases if t.TSeq? || t.TChoice? then Size(t.first) else 0
  {
    if CanRotate(t) { RotateAnalysis(RotateOnce(t), pred, len); }
  }

  lemma {:induction false} FinalFixAnalysis(t: Tree, pred: Check, len: nat)
    ensures CheckAux(FinalFix(t), pred) == CheckAux(t, pred) && FixedLenX(FinalFix(t), len) == FixedLenX(t, len)
    ensures HasCaptures(FinalFix(t)) == HasCaptures(t)
    decreases Size(t)
  {
    RotateAnalysis(t, pred, len);
    match Rotate(t)
    case TRep(p) => FinalFixAnalysis(p, pred, len);
    case TNot(p) => FinalFixAnalysis(p, pred, len);
    case TAnd(p) => FinalFixAnalysis(p, pred, len);
    case TBehind(n, p) => FinalFixAnalysis(p, pred, len);
    case TCapture(_, _, p) => FinalFixAnalysis(p, pred, len);
    case TSeq(p1, p2) =>
      FinalFixAnalysis(p1, pred, len);
      FinalFixAnalysis(p2, pred, if FixedLenX(p1, len) < 0 then len else FixedLenX(p1, len));
    case TChoice(p1, p2) =>
      FinalFixAnalysis(p1, pred, len);
      FinalFixAnalysis(p2, pred, len);
    case leaf =>
  }

  lemma {:induction false} FinalFixWellFormed(t: Tree)
    requires WellFormed(t)
    ensures WellFormed(FinalFix(t))
    decreases Size(t)
  {
    RotateAnalysis(t, PEnullable, 0);
    match Rotate(t)
    case TRep(p) =>
      FinalFixWellFormed(p);
      FinalFixAnalysis(p, PEnullable, 0);
    case TNot(p) => FinalFixWellFormed(p);
    case TAnd(p) => FinalFixWellFormed(p);
    case TBehind(n, p) =>
      FinalFixWellFormed(p);
      FinalFixAnalysis(p, PEnullable, 0);
    case TCapture(_, _, p) => FinalFixWellFormed(p);
    case TSeq(p1, p2) =>
      FinalFixWellFormed(p1);
      FinalFixWellFormed(p2);
    case TChoice(p1, p2) =>
      FinalFixWellFormed(p1);
      FinalFixWellFormed(p2);
    case leaf =>
  }

  /** The final fix keeps the meaning of every tree: its matches and its captures. */
  lemma {:induction false} FinalFixKeeps(t: Tree, s: Subject, i: nat)
    requires i <= |s|
    ensures Peg(FinalFix(t), s, i) == Peg(t, s, i)
    decreases Size(t), |s| - i
  {
    RotateKeeps(t, s, i);
    match Rotate(t)
    case TRep(p) =>
      FinalFixKeeps(p, s, i);
      if Peg(p, s, i).Succ? && Peg(p, s, i).pos > i { FinalFixKeeps(t, s, Peg(p, s, i).pos); }
    case TNot(p) => FinalFixKeeps(p, s, i);
    case TAnd(p) => FinalFixKeeps(p, s, i);
    case TBehind(n, p) => if n <= i { FinalFixKeeps(p, s, i - n); }
    case TCapture(_, _, p) => FinalFixKeeps(p, s, i);
    case TSeq(p1, p2) =>
      FinalFixKeeps(p1, s, i);
      if Peg(p1, s, i).Succ? { FinalFixKeeps(p2, s, Peg(p1, s, i).pos); }
    case TChoice(p1, p2) =>
      FinalFixKeeps(p1, s, i);
      FinalFixKeeps(p2, s, i);
    case leaf =>
  }

  /** Do the nodes hold tree `t` at index `p`? */
  predicate TreeAt(mem: seq<Node>, p: nat, t: Tree) {
    p + Size(t) <= |mem| && mem[p..p + Size(t)] == Encode(t)
  }

  /** Are the nodes the same outside of the `n` nodes at `p`? */
  predicate SameAround(mem: seq<Node>, mem': seq<Node>, p: nat, n: nat) {
    |mem'| == |mem| && forall k :: 0 <= k < |mem| && !(p <= k < p + n) ==> mem'[k] == mem[k]
  }

  function TagOf(t: Tree): Tag {
    match t
    case TChar(_) => TagChar
    case TSet(_) => TagSet
    case TAny => TagAny
    case TTrue => TagTrue
    case TFalse => TagFalse
    case TRep(_) => TagRep
    case TSeq(_, _) => TagSeq
    case TChoice(_, _) => TagChoice
    case TNot(_) => TagNot
    case TAnd(_) => TagAnd
    case TBehind(_, _) => TagBehind
    case TCapture(_, _, _) => TagCapture
  }

  /** The nodes of the root, and where the children are. */
  lemma TreeRoot(mem: seq<Node>, p: nat, t: Tree)
    requires TreeAt(mem, p, t)
    ensures p < |mem| && mem[p].Node? && mem[p].tag == TagOf(t)
    ensures t.TSeq? || t.TChoice? ==>
      mem[p].u == 1 + Size(t.first) && TreeAt(mem, p + 1, t.first) && TreeAt(mem, p + 1 + Size(t.first), t.second)
    ensures HasBody(t) ==> TreeAt(mem, p + 1, Body(t))
  {
    hide Encode, Size, TreeAt, TagOf, PartsAt;
    TreeHead(mem, p, t);
    if t.TSeq? || t.TChoice? {
      TreeTwoAt(mem, p, t);
      PartsTrees(mem, p, Node(TagOf(t), 0, 0, 1 + Size(t.first)), t.first, t.second);
    } else if HasBody(t) {
      TreeOneAt(mem, p, t);
      PartTree(mem, p, Encode(t)[0], Body(t));
    }
  }

  lemma TreeHead(mem: seq<Node>, p: nat, t: Tree)
    requires TreeAt(mem, p, t)
    ensures p < |mem| && mem[p].Node? && mem[p].tag == TagOf(t)
  {
    hide Encode, TagOf, Size;
    EncodeRoot(t);
    assert mem[p] == mem[p..p + Size(t)][0];
  }

  lemma PartsTrees(mem: seq<Node>, p: nat, root: Node, t1: Tree, t2: Tree)
    requires PartsAt(mem, p, root, Encode(t1), Encode(t2))
    ensures p < |mem| && mem[p] == root && TreeAt(mem, p + 1, t1) && TreeAt(mem, p + 1 + Size(t1), t2)
  {
    hide Encode, Size;
  }

  lemma PartTree(mem: seq<Node>, p: nat, root: Node, t1: Tree)
    requires PartsAt(mem, p, root, Encode(t1), [])
    ensures TreeAt(mem, p + 1, t1)
  {
    hide Encode, Size;
  }

  predicate HasBody(t: Tree) { t.TRep? || t.TNot? || t.TAnd? || t.TBehind? || t.TCapture? }

  function Body(t: Tree): Tree
    requires HasBody(t)
  {
    match t
    case TRep(p) => p
    case TNot(p) => p
    case TAnd(p) => p
    case TBehind(_, p) => p
    case TCapture(_, _, p) => p
  }

  lemma SliceOfSlice(mem: seq<Node>, p: nat, q: nat, i: nat, j: nat)
    requires i <= j && p + j <= q <= |mem|
    ensures mem[p..q][i..j] == mem[p + i..p + j]
  {
    var m := mem[p..q];
    assert forall k :: 0 <= k < j - i ==> m[i..j][k] == mem[p + i..p + j][k];
  }

  lemma PartsOf(root: Node, e1: seq<Node>, e2: seq<Node>)
    ensures var r := [root] + e1 + e2;
            r[0] == root && r[1..1 + |e1|] == e1 && r[1 + |e1|..1 + |e1| + |e2|] == e2
  {
    var r := [root] + e1 + e2;
    assert forall k :: 0 <= k < |e1| ==> r[1 + k] == e1[k];
    assert forall k :: 0 <= k < |e2| ==> r[1 + |e1| + k] == e2[k];
  }

  lemma ThreeSlices(m: seq<Node>, n: nat, n2: nat)
    requires 1 + n + n2 == |m|
    ensures m == [m[0]] + m[1..1 + n] + m[1 + n..1 + n + n2]
  {
  }

  lemma TwoParts(mem: seq<Node>, p: nat, root: Node, e1: seq<Node>, e2: seq<Node>)
    requires p + 1 + |e1| + |e2| <= |mem|
    ensures mem[p..p + 1 + |e1| + |e2|] == [root] + e1 + e2 <==>
            mem[p] == root && mem[p + 1..p + 1 + |e1|] == e1 && mem[p + 1 + |e1|..p + 1 + |e1| + |e2|] == e2
  {
    var n, q := |e1|, p + 1 + |e1| + |e2|;
    SliceOfSlice(mem, p, q, 1, 1 + n);
    SliceOfSlice(mem, p, q, 1 + n, 1 + n + |e2|);
    PartsOf(root, e1, e2);
    ThreeSlices(mem[p..q], n, |e2|);
    assert mem[p..q][0] == mem[p];
  }

  /** `memmove` of `n` nodes, one place down. */
  method MoveDown(a: array<Node>, to: nat, n: nat)
    requires to + 1 + n <= a.Length
    modifies a
    ensures a[..] == old(a[..to]) + old(a[to + 1..to + 1 + n]) + old(a[to + n..])
  {
    for k := 0 to n
      invariant forall j :: 0 <= j < to || to + k <= j < a.Length ==> a[j] == old(a[j])
      invariant forall j :: to <= j < to + k ==> a[j] == old(a[j + 1])
    {
      a[to + k] := a[to + k + 1];
    }
  }

  /** `correctassociativity`, in place. */
  method CorrectAssociativity(a: array<Node>, p: nat, ghost t: Tree)
    requires TreeAt(a[..], p, t) && (t.TSeq? || t.TChoice?)
    modifies a
    ensures TreeAt(a[..], p, Rotate(t)) && SameAround(old(a[..]), a[..], p, Size(t))
  {
    hide TreeAt, Encode, Size, SameAround;
    ghost var cur := t;
    SameAroundSelf(a[..], p, t);
    RootTags(a[..], p, cur);
    while a[p + 1].tag == a[p].tag
      invariant cur.TSeq? || cur.TChoice?
      invariant TreeAt(a[..], p, cur) && Size(cur) == Size(t) && Rotate(cur) == Rotate(t)
      invariant p + 1 < a.Length && a[p].Node? && a[p + 1].Node?
      invariant a[p].tag == a[p + 1].tag <==> CanRotate(cur)
      invariant SameAround(old(a[..]), a[..], p, Size(t))
      decreases Size(cur.first)
    {
      ghost var before := a[..];
      RootTags(a[..], p, cur);
      RotateStep(a, p, cur);
      SameAroundTrans(old(a[..]), before, a[..], p, Size(t));
      SizeLess(cur);
      cur := RotateOnce(cur);
      RootTags(a[..], p, cur);
    }
  }

  lemma SizeLess(t: Tree)
    requires CanRotate(t)
    ensures Size(RotateOnce(t).first) < Size(t.first)
  {
  }

  lemma SameAroundSelf(mem: seq<Node>, p: nat, t: Tree)
    requires TreeAt(mem, p, t)
    ensures SameAround(mem, mem, p, Size(t))
  {
  }

  lemma SameAroundTrans(m1: seq<Node>, m2: seq<Node>, m3: seq<Node>, p: nat, n: nat)
    requires SameAround(m1, m2, p, n) && SameAround(m2, m3, p, n)
    ensures SameAround(m1, m3, p, n)
  {
  }

  /** What `correctassociativity` reads: the tags of the root and of its first child. */
  lemma RootTags(mem: seq<Node>, p: nat, t: Tree)
    requires TreeAt(mem, p, t) && (t.TSeq? || t.TChoice?)
    ensures p + 1 < |mem| && mem[p].Node? && mem[p + 1].Node?
    ensures mem[p].tag == TagOf(t) && mem[p].u == 1 + Size(t.first)
    ensures mem[p].tag == mem[p + 1].tag <==> CanRotate(t)
    ensures CanRotate(t) ==> mem[p + 1].u == 1 + Size(t.first.first)
  {
    hide TreeAt, Encode;
    TreeRoot(mem, p, t);
    TreeRoot(mem, p + 1, t.first);
  }

  /** The body of the loop of `correctassociativity`. */
  method RotateStep(a: array<Node>, p: nat, ghost t: Tree)
    requires TreeAt(a[..], p, t) && CanRotate(t)
    requires p + 1 < a.Length && a[p].Node? && a[p + 1].Node?
    requires a[p].u == 1 + Size(t.first) && a[p + 1].u == 1 + Size(t.first.first)
    modifies a
    ensures TreeAt(a[..], p, RotateOnce(t)) && SameAround(old(a[..]), a[..], p, Size(t))
  {
    hide Encode, TreeAt, SameAround;
    var n1size := a[p].u - 1;
    var n11size := a[p + 1].u - 1;
    SizeLeft(t);
    var n12size := n1size - n11size - 1;
    ghost var before := a[..];
    TreeRoot(before, p, t);
    TreeFits(before, p, t);
    MoveDown(a, p + 1, n11size);
    ghost var moved := a[..];
    assert moved[p] == before[p];
    a[p] := a[p].(u := n11size + 1);
    var sib2 := p + n11size + 1;
    a[sib2] := Node(a[p].tag, 0, 0, n12size + 1);
    RotatedNodes(before, moved, a[..], p, t);
  }

  lemma TreeFits(mem: seq<Node>, p: nat, t: Tree)
    requires TreeAt(mem, p, t)
    ensures p + Size(t) <= |mem|
  {
  }

  /** A node and two runs of nodes, placed behind each other. */
  ghost predicate PartsAt(mem: seq<Node>, p: nat, root: Node, e1: seq<Node>, e2: seq<Node>) {
    p + 1 + |e1| + |e2| <= |mem| && mem[p] == root && mem[p + 1..p + 1 + |e1|] == e1 &&
    mem[p + 1 + |e1|..p + 1 + |e1| + |e2|] == e2
  }

  lemma EncodeRoot(t: Tree)
    ensures Encode(t)[0].Node? && Encode(t)[0].tag == TagOf(t)
  {
  }

  lemma EncodeTwo(t: Tree)
    requires t.TSeq? || t.TChoice?
    ensures Encode(t) == [Node(TagOf(t), 0, 0, 1 + Size(t.first))] + Encode(t.first) + Encode(t.second)
  {
  }

  lemma EncodeOne(t: Tree)
    requires HasBody(t)
    ensures Encode(t) == [Encode(t)[0]] + Encode(Body(t)) + [] && Size(t) == 1 + Size(Body(t))
  {
  }

  lemma TreeTwoAt(mem: seq<Node>, p: nat, t: Tree)
    requires t.TSeq? || t.TChoice?
    ensures TreeAt(mem, p, t) <==>
            PartsAt(mem, p, Node(TagOf(t), 0, 0, 1 + Size(t.first)), Encode(t.first), Encode(t.second))
  {
    hide Encode;
    EncodeTwo(t);
    if p + Size(t) <= |mem| {
      TwoParts(mem, p, Node(TagOf(t), 0, 0, 1 + Size(t.first)), Encode(t.first), Encode(t.second));
    }
  }

  lemma TreeOneAt(mem: seq<Node>, p: nat, t: Tree)
    requires HasBody(t)
    ensures TreeAt(mem, p, t) <==> PartsAt(mem, p, Encode(t)[0], Encode(Body(t)), [])
  {
    hide Encode;
    EncodeOne(t);
    if p + Size(t) <= |mem| {
      TwoParts(mem, p, Encode(t)[0], Encode(Body(t)), []);
    }
  }

  lemma ReplaceParts(mem: seq<Node>, mem': seq<Node>, p: nat, root: Node, e1: seq<Node>, e2: seq<Node>, e': seq<Node>)
    requires PartsAt(mem, p, root, e1, e2)
    ensures |e'| == |e1| && SameAround(mem, mem', p + 1, |e1|) && mem'[p + 1..p + 1 + |e1|] == e' ==>
            PartsAt(mem', p, root, e', e2) && SameAround(mem, mem', p, 1 + |e1| + |e2|)
    ensures |e'| == |e2| && SameAround(mem, mem', p + 1 + |e1|, |e2|) && mem'[p + 1 + |e1|..p + 1 + |e1| + |e2|] == e' ==>
            PartsAt(mem', p, root, e1, e') && SameAround(mem, mem', p, 1 + |e1| + |e2|)
  {
    var q1, q2 := p + 1 + |e1|, p + 1 + |e1| + |e2|;
    if SameAround(mem, mem', p + 1, |e1|) { SameSlice(mem, mem', q1, q2); }
    if SameAround(mem, mem', q1, |e2|) { SameSlice(mem, mem', p + 1, q1); }
  }

  lemma SameSlice(mem: seq<Node>, mem': seq<Node>, p: nat, q: nat)
    requires p <= q <= |mem| && |mem'| == |mem| && forall k :: p <= k < q ==> mem'[k] == mem[k]
    ensures mem'[p..q] == mem[p..q]
  {
  }

  function WithFirst(t: Tree, t1: Tree): (r: Tree)
    requires t.TSeq? || t.TChoice?
    ensures (r.TSeq? || r.TChoice?) && TagOf(r) == TagOf(t) && r.first == t1 && r.second == t.second
  {
    if t.TSeq? then TSeq(t1, t.second) else TChoice(t1, t.second)
  }

  function WithSecond(t: Tree, t2: Tree): (r: Tree)
    requires t.TSeq? || t.TChoice?
    ensures (r.TSeq? || r.TChoice?) && TagOf(r) == TagOf(t) && r.first == t.first && r.second == t2
  {
    if t.TSeq? then TSeq(t.first, t2) else TChoice(t.first, t2)
  }

  lemma SizeTwo(t: Tree)
    requires t.TSeq? || t.TChoice?
    ensures Size(t) == 1 + Size(t.first) + Size(t.second)
  {
  }

  /** Rewriting a child in place rewrites the tree. */
  lemma ReplaceFirst(mem: seq<Node>, mem': seq<Node>, p: nat, t: Tree, t1: Tree)
    requires TreeAt(mem, p, t) && (t.TSeq? || t.TChoice?) && Size(t1) == Size(t.first)
    requires TreeAt(mem', p + 1, t1) && SameAround(mem, mem', p + 1, Size(t.first))
    ensures TreeAt(mem', p, WithFirst(t, t1)) && SameAround(mem, mem', p, Size(t))
    ensures Size(WithFirst(t, t1)) == Size(t)
  {
    hide Encode, SameAround, PartsAt, Size, TagOf;
    TreeTwoAt(mem, p, t);
    TreeTwoAt(mem', p, WithFirst(t, t1));
    SizeTwo(t);
    SizeTwo(WithFirst(t, t1));
    ReplaceParts(mem, mem', p, Node(TagOf(t), 0, 0, 1 + Size(t.first)), Encode(t.first), Encode(t.second), Encode(t1));
  }

  lemma ReplaceSecond(mem: seq<Node>, mem': seq<Node>, p: nat, t: Tree, t2: Tree)
    requires TreeAt(mem, p, t) && (t.TSeq? || t.TChoice?) && Size(t2) == Size(t.second)
    requires TreeAt(mem', p + 1 + Size(t.first), t2) && SameAround(mem, mem', p + 1 + Size(t.first), Size(t.second))
    ensures TreeAt(mem', p, WithSecond(t, t2)) && SameAround(mem, mem', p, Size(t))
  {
    hide Encode, SameAround, PartsAt, Size, TagOf;
    TreeTwoAt(mem, p, t);
    TreeTwoAt(mem', p, WithSecond(t, t2));
    SizeTwo(t);
    ReplaceParts(mem, mem', p, Node(TagOf(t), 0, 0, 1 + Size(t.first)), Encode(t.first), Encode(t.second), Encode(t2));
  }

  function WithBody(t: Tree, b: Tree): (r: Tree)
    requires HasBody(t)
    ensures HasBody(r) && Body(r) == b && Encode(r)[0] == Encode(t)[0]
  {
    match t
    case TRep(_) => TRep(b)
    case TNot(_) => TNot(b)
    case TAnd(_) => TAnd(b)
    case TBehind(n, _) => TBehind(n, b)
    case TCapture(cap, key, _) => TCapture(cap, key, b)
  }

  lemma ReplaceBody(mem: seq<Node>, mem': seq<Node>, p: nat, t: Tree, b: Tree)
    requires TreeAt(mem, p, t) && HasBody(t) && Size(b) == Size(Body(t))
    requires TreeAt(mem', p + 1, b) && SameAround(mem, mem', p + 1, Size(b))
    ensures TreeAt(mem', p, WithBody(t, b)) && SameAround(mem, mem', p, Size(t))
  {
    hide Encode, SameAround, PartsAt;
    EncodeOne(t);
    TreeOneAt(mem, p, t);
    TreeOneAt(mem', p, WithBody(t, b));
    ReplaceParts(mem, mem', p, Encode(t)[0], Encode(Body(t)), [], Encode(b));
  }

  /** `finalfix` on a tree without grammars, in place. */
  method FinalFixInPlace(a: array<Node>, p: nat, ghost t: Tree)
    requires TreeAt(a[..], p, t)
    modifies a
    ensures TreeAt(a[..], p, FinalFix(t)) && SameAround(old(a[..]), a[..], p, Size(t))
    decreases Size(t)
  {
    hide TreeAt, Encode, SameAround, Rotate, FinalFix, WithFirst, WithSecond, WithBody, Size;
    ghost var r := Rotate(t);
    SameAroundSelf(a[..], p, t);
    TreeRoot(a[..], p, t);
    if a[p].tag == TagSeq || a[p].tag == TagChoice {
      CorrectAssociativity(a, p, t);
    }
    TreeRoot(a[..], p, r);
    FinalFixParts(t);
    ghost var m1 := a[..];
    if a[p].tag == TagSeq || a[p].tag == TagChoice {
      var q := p + a[p].u;
      FinalFixInPlace(a, p + 1, r.first);
      ghost var m2 := a[..];
      ReplaceFirst(m1, m2, p, r, FinalFix(r.first));
      ghost var r' := WithFirst(r, FinalFix(r.first));
      TreeRoot(m2, p, r');
      FinalFixInPlace(a, q, r.second);
      ReplaceSecond(m2, a[..], p, r', FinalFix(r.second));
      SameAroundTrans(old(a[..]), m1, m2, p, Size(t));
      SameAroundTrans(old(a[..]), m2, a[..], p, Size(t));
    } else if a[p].tag in {TagRep, TagNot, TagAnd, TagBehind, TagCapture} {
      FinalFixInPlace(a, p + 1, Body(r));
      ReplaceBody(m1, a[..], p, r, FinalFix(Body(r)));
      SameAroundTrans(old(a[..]), m1, a[..], p, Size(t));
    }
  }

  lemma FinalFixParts(t: Tree)
    ensures var r := Rotate(t);
            FinalFix(t) ==
            if r.TSeq? || r.TChoice? then WithSecond(WithFirst(r, FinalFix(r.first)), FinalFix(r.second))
            else if HasBody(r) then WithBody(r, FinalFix(Body(r)))
            else r
    ensures var r := Rotate(t);
            (r.TSeq? || r.TChoice? ==> Size(r.first) < Size(t) && Size(r.second) < Size(t)) &&
            (HasBody(r) ==> Size(Body(r)) < Size(t))
  {
  }

  lemma EncodeLeft(t: Tree)
    requires CanRotate(t)
    ensures Encode(t) == [Node(TagOf(t), 0, 0, 1 + Size(t.first)), Node(TagOf(t), 0, 0, 1 + Size(t.first.first))] +
                         Encode(t.first.first) + Encode(t.first.second) + Encode(t.second)
  {
    hide Encode, Size;
    EncodeTwo(t);
    EncodeTwo(t.first);
  }

  lemma EncodeRight(t: Tree)
    requires CanRotate(t)
    ensures Encode(RotateOnce(t)) == [Node(TagOf(t), 0, 0, 1 + Size(t.first.first))] + Encode(t.first.first) +
                                     [Node(TagOf(t), 0, 0, 1 + Size(t.first.second))] +
                                     Encode(t.first.second) + Encode(t.second)
  {
    hide Encode, Size;
    EncodeTwo(RotateOnce(t));
    EncodeTwo(RotateOnce(t).second);
  }

  lemma RotatedNodes(before: seq<Node>, moved: seq<Node>, after: seq<Node>, p: nat, t: Tree)
    requires CanRotate(t) && TreeAt(before, p, t)
    requires var n := Size(t.first.first);
             moved == before[..p + 1] + before[p + 2..p + 2 + n] + before[p + 1 + n..] &&
             after == moved[p := before[p].(u := n + 1)][p + n + 1 := Node(before[p].tag, 0, 0, Size(t.first.second) + 1)]
    ensures TreeAt(after, p, RotateOnce(t)) && SameAround(before, after, p, Size(t))
  {
    hide Encode, Size;
    EncodeLeft(t);
    EncodeRight(t);
    var n, n12, n2 := Size(t.first.first), Size(t.first.second), Size(t.second);
    assert Size(t) == 2 + n + n12 + n2 by { SizeLeft(t); }
    var e, r := Encode(t), Encode(RotateOnce(t));
    assert |r| == Size(t);
    assert forall k :: 0 <= k < Size(t) ==> before[p + k] == e[k];
    assert |before[p + 2..p + 2 + n]| == n;
    forall k | 0 <= k < Size(t)
      ensures after[p + k] == r[k]
    {
      if k == 0 {
      } else if k <= n {
        assert moved[p + k] == before[p + k + 1] == e[k + 1];
      } else if k == n + 1 {
      } else {
        assert moved[p + k] == before[p + k] == e[k];
      }
    }
  }

  lemma SizeLeft(t: Tree)
    requires CanRotate(t)
    ensures Size(t) == 2 + Size(t.first.first) + Size(t.first.second) + Size(t.second)
  {
  }
}
