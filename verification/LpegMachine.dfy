/** The virtual machine of LPeg: code arrays, the backtrack stack, the capture list,
    one step of the opcode interpreter, and the interpreter loop. */
module LpegMachine {
  import opened LpegTree

  const CHARSET_INST_SIZE: nat := 9   // slots of an ISet: one, and 32 bytes in slots of 4

  datatype Opcode =
    | IAny
    | IChar(c: Byte)
    | ISet
    | ITestAny
    | ITestChar(c: Byte)
    | ITestSet
    | ISpan
    | IBehind(n: Byte)
    | IRet
    | IEnd
    | IChoice
    | IJmp
    | ICall
    | ICommit
    | IPartialCommit
    | IBackCommit
    | IFailTwice
    | IFail
    | IFullCapture(aux: Byte, key: nat)
    | IOpenCapture(aux: Byte, key: nat)
    | ICloseCapture(aux: Byte, key: nat)

  /** One slot of a code array: an instruction, a relative offset, or a part of the
      bits of a charset (the set itself is kept in the first of its slots). */
  datatype Slot =
    | Inst(op: Opcode)
    | Offset(n: int)
    | Bits(cs: Charset)
    | MoreBits

  type Code = seq<Slot>

  predicate HasOffset(op: Opcode) {
    op.ITestAny? || op.ITestChar? || op.ITestSet? || op.IChoice? || op.IJmp? || op.ICall? ||
    op.ICommit? || op.IPartialCommit? || op.IBackCommit?
  }

  /** `sizei`: number of slots of an instruction. */
  function SizeI(op: Opcode): (n: nat)
    ensures n >= 1 && (HasOffset(op) ==> n >= 2)
  {
    if op.ISet? || op.ISpan? then CHARSET_INST_SIZE
    else if op.ITestSet? then CHARSET_INST_SIZE + 1
    else if HasOffset(op) then 2
    else 1
  }

  // `aux` of a capture instruction: kind in the low, offset in the high 4 bits
  function JoinKindOff(kind: nat, off: nat): (aux: Byte)
    requires kind < 16 && off < 16
    ensures GetKind(aux) == kind && GetOff(aux) == off
  {
    kind + 16 * off
  }

  function GetKind(aux: Byte): nat { aux % 16 }

  function GetOff(aux: Byte): nat { aux / 16 % 16 }

  /** An entry of the capture list; `siz` is 0 for an open capture, and 1 plus the
      length for a complete one. */
  datatype Capture =
    | Item(kind: nat, idx: nat, s: nat, siz: nat)
    | CloseItem(s: nat)

  /** Events that a capture list stands for. */
  function Events(caps: seq<Capture>): seq<Event> {
    if caps == [] then []
    else
      var last := caps[|caps| - 1];
      Events(caps[..|caps| - 1]) +
      match last
      case CloseItem(s) => [Close(s)]
      case Item(kind, idx, s, siz) =>
        if siz == 0 then [Open(kind, idx, s)]
        else [Open(kind, idx, s), Close(s + siz - 1)]
  }

  /** `ICloseCapture`: turn the last entry into a complete capture when it is open and
      not too far away, else push a closing entry. */
  function CloseCapture(caps: seq<Capture>, s: nat): seq<Capture>
    requires |caps| > 0
  {
    var last := caps[|caps| - 1];
    if last.Item? && last.siz == 0 && s - last.s < 255 && last.s <= s then
      caps[|caps| - 1 := last.(siz := s - last.s + 1)]
    else
      caps + [CloseItem(s)]
  }

  /** A stack entry: `s` is the saved position, or none for a call. */
  datatype Position = NoPosition | At(pos: nat)

  datatype Frame = Frame(p: int, s: Position, caplevel: nat)

  const GIVE_UP: int := -1   // address of the instruction below the stack

  datatype State =
    | Running(p: int, s: nat, stack: seq<Frame>, caps: seq<Capture>)
    | Matched(s: nat, caps: seq<Capture>)
    | GaveUp
    | Stuck   // a state that the original's assertions exclude

  /** The effect of a failure: drop the pending calls, and resume the top choice. */
  function FailTo(stack: seq<Frame>, caps: seq<Capture>): State
    decreases |stack|
  {
    if stack == [] then Stuck
    else
      var top := stack[|stack| - 1];
      if top.s.NoPosition? then FailTo(stack[..|stack| - 1], caps)
      else if top.caplevel > |caps| then Stuck
      else Running(top.p, top.s.pos, stack[..|stack| - 1], caps[..top.caplevel])
  }

  /** End of the longest run of characters of `cs` that starts at `i`. */
  function SpanEnd(cs: Charset, s: Subject, i: nat): (j: nat)
    requires i <= |s|
    ensures i <= j <= |s|
    ensures forall k :: i <= k < j ==> s[k] in cs
    ensures j < |s| ==> s[j] !in cs
    decreases |s| - i
  {
    if i < |s| && s[i] in cs then SpanEnd(cs, s, i + 1) else i
  }

  predicate OffsetAt(code: Code, p: int) { 0 <= p && p + 1 < |code| && code[p + 1].Offset? }

  function Target(code: Code, p: int): int
    requires OffsetAt(code, p)
  {
    p + code[p + 1].n
  }

  predicate BitsAt(code: Code, p: int) { 0 <= p < |code| && code[p].Bits? }

  /** Instructions that are followed by the bits of a charset. */
  predicate HasBits(op: Opcode) { op.ISet? || op.ITestSet? || op.ISpan? }

  /** Address of the bits of a charset instruction at `p`. */
  function BitsPos(op: Opcode, p: int): int { if op.ITestSet? then p + 2 else p + 1 }

  /** The effect of an instruction: `next` is the address behind it, `target` its label
      and `cs` its charset, when it has them. */
  function Act(op: Opcode, next: int, target: int, cs: Charset, s: Subject, i: nat,
               stack: seq<Frame>, caps: seq<Capture>): State
    requires i <= |s|
  {
    var top := |stack| - 1;
    match op
    case IAny => if i < |s| then Running(next, i + 1, stack, caps) else FailTo(stack, caps)
    case ITestAny => Running(if i < |s| then next else target, i, stack, caps)
    case IChar(c) =>
      if i < |s| && s[i] == c then Running(next, i + 1, stack, caps) else FailTo(stack, caps)
    case ITestChar(c) => Running(if i < |s| && s[i] == c then next else target, i, stack, caps)
    case ISet => if i < |s| && s[i] in cs then Running(next, i + 1, stack, caps) else FailTo(stack, caps)
    case ITestSet => Running(if i < |s| && s[i] in cs then next else target, i, stack, caps)
    case IBehind(n) => if n > i then FailTo(stack, caps) else Running(next, i - n, stack, caps)
    case ISpan => Running(next, SpanEnd(cs, s, i), stack, caps)
    case IJmp => Running(target, i, stack, caps)
    case IChoice => Running(next, i, stack + [Frame(target, At(i), |caps|)], caps)
    case ICall => Running(target, i, stack + [Frame(next, NoPosition, 0)], caps)
    case IRet =>
      if top < 0 || stack[top].s.At? then Stuck
      else Running(stack[top].p, i, stack[..top], caps)
    case ICommit =>
      if top < 0 || stack[top].s.NoPosition? then Stuck
      else Running(target, i, stack[..top], caps)
    case IPartialCommit =>
      if top < 0 || stack[top].s.NoPosition? then Stuck
      else Running(target, i, stack[..top] + [Frame(stack[top].p, At(i), |caps|)], caps)
    case IBackCommit =>
      if top < 0 || stack[top].s.NoPosition? || stack[top].caplevel > |caps| then Stuck
      else Running(target, stack[top].s.pos, stack[..top], caps[..stack[top].caplevel])
    case IFailTwice => if top < 0 then Stuck else FailTo(stack[..top], caps)
    case IFail => FailTo(stack, caps)
    case IEnd => if |stack| != 1 then Stuck else Matched(i, caps)
    case IFullCapture(aux, key) =>
      if GetOff(aux) > i then Stuck
      else Running(next, i, stack, caps + [Item(GetKind(aux), key, i - GetOff(aux), GetOff(aux) + 1)])
    case IOpenCapture(aux, key) => Running(next, i, stack, caps + [Item(GetKind(aux), key, i, 0)])
    case ICloseCapture(_, _) => if |caps| == 0 then Stuck else Running(next, i, stack, CloseCapture(caps, i))
  }

  /** Is there a complete instruction at `p`? */
  predicate InstAt(code: Code, p: int) {
    0 <= p < |code| && code[p].Inst? &&
    (HasOffset(code[p].op) ==> OffsetAt(code, p)) &&
    (HasBits(code[p].op) ==> BitsAt(code, BitsPos(code[p].op, p)))
  }

  /** One step of the interpreter on a subject `s`. */
  function Step(code: Code, s: Subject, st: State): State {
    if !st.Running? then st
    else if st.s > |s| then Stuck
    else if st.p == GIVE_UP then (if st.stack == [] then GaveUp else Stuck)
    else if !InstAt(code, st.p) then Stuck
    else
      var op := code[st.p].op;
      Act(op, st.p + SizeI(op),
          if HasOffset(op) then Target(code, st.p) else 0,
          if HasBits(op) then code[BitsPos(op, st.p)].cs else {},
          s, st.s, st.stack, st.caps)
  }

  /** The state after `n` steps. */
  function Run(code: Code, s: Subject, st: State, n: nat): State
    decreases n
  {
    if n == 0 then st else Run(code, s, Step(code, s, st), n - 1)
  }

  ghost predicate Reaches(code: Code, s: Subject, st: State, st': State) {
    exists n: nat :: Run(code, s, st, n) == st'
  }

  function Start(i: nat): State {
    Running(0, i, [Frame(GIVE_UP, At(i), 0)], [])
  }

  lemma {:induction false} RunAdd(code: Code, s: Subject, st: State, n: nat, m: nat)
    ensures Run(code, s, st, n + m) == Run(code, s, Run(code, s, st, n), m)
    decreases n
  {
    if n != 0 { RunAdd(code, s, Step(code, s, st), n - 1, m); }
  }

  lemma ReachesStep(code: Code, s: Subject, st: State)
    ensures Reaches(code, s, st, Step(code, s, st))
  {
    assert Run(code, s, st, 1) == Run(code, s, Step(code, s, st), 0);
  }

  lemma ReachesSelf(code: Code, s: Subject, st: State)
    ensures Reaches(code, s, st, st)
  {
    assert Run(code, s, st, 0) == st;
  }

  lemma ReachesTrans(code: Code, s: Subject, st: State, st1: State, st2: State)
    requires Reaches(code, s, st, st1) && Reaches(code, s, st1, st2)
    ensures Reaches(code, s, st, st2)
  {
    var n: nat :| Run(code, s, st, n) == st1;
    var m: nat :| Run(code, s, st1, m) == st2;
    RunAdd(code, s, st, n, m);
  }

  predicate Halted(st: State) { st.Matched? || st.GaveUp? }

  /** A halted state is final, so a run has at most one outcome. */
  lemma {:induction false} HaltedStays(code: Code, s: Subject, st: State, n: nat)
    requires !st.Running?
    ensures Run(code, s, st, n) == st
  {
    if n != 0 { HaltedStays(code, s, st, n - 1); }
  }

  lemma OutcomeUnique(code: Code, s: Subject, st: State, st1: State, st2: State)
    requires Reaches(code, s, st, st1) && Reaches(code, s, st, st2)
    requires Halted(st1) && Halted(st2)
    ensures st1 == st2
  {
    var n: nat :| Run(code, s, st, n) == st1;
    var m: nat :| Run(code, s, st, m) == st2;
    if n <= m {
      RunAdd(code, s, st, n, m - n);
      HaltedStays(code, s, st1, m - n);
    } else {
      RunAdd(code, s, st, m, n - m);
      HaltedStays(code, s, st2, n - m);
    }
  }
}
