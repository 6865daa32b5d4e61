/** Pattern trees of LPeg without grammars and run-time captures, and the
    parsing-expression meaning that the compiled code has to have. */
module LpegTree {

  type Byte = x: int | 0 <= x < 256
  type Charset = set<Byte>
  type Subject = seq<Byte>

  const FULL_SET: Charset := set b: Byte | 0 <= b < 256

  /** Captures of a match, as a well-bracketed list of events. `kind` is the
      capture kind and `key` its index in the pattern's table of Lua values. */
  datatype Event =
    | Open(kind: nat, key: nat, at: nat)
    | Close(at: nat)

  datatype Tree =
    | TChar(c: Byte)
    | TSet(cs: Charset)
    | TAny
    | TTrue
    | TFalse
    | TRep(body: Tree)
    | TSeq(first: Tree, second: Tree)
    | TChoice(first: Tree, second: Tree)
    | TNot(body: Tree)
    | TAnd(body: Tree)
    | TBehind(n: nat, body: Tree)
    | TCapture(cap: nat, key: nat, body: Tree)

  datatype Result =
    | Fail
    | Succ(pos: nat, events: seq<Event>)

  /** Meaning of the trees that match one character of a set. */
  function OneOf(cs: Charset, s: Subject, i: nat): (r: Result)
    ensures r.Succ? <==> i < |s| && s[i] in cs
    ensures r.Succ? ==> r == Succ(i + 1, [])
  {
    if i < |s| && s[i] in cs then Succ(i + 1, []) else Fail
  }

  /** The meaning of a tree: match `t` against `s` from position `i`.
      A repetition whose body consumed nothing stops; the patterns that LPeg
      accepts have no such body (see `WellFormed`). */
  function Peg(t: Tree, s: Subject, i: nat): (r: Result)
    requires i <= |s|
    ensures r.Succ? ==> i <= r.pos <= |s|
    ensures t.TRep? ==> r.Succ?
    decreases t, |s| - i
  {
    match t
    case TChar(c) => OneOf({c}, s, i)
    case TSet(cs) => OneOf(cs, s, i)
    case TAny => OneOf(FULL_SET, s, i)
    case TTrue => Succ(i, [])
    case TFalse => Fail
    case TRep(p) =>
      (match Peg(p, s, i)
       case Fail => Succ(i, [])
       case Succ(j, ev) =>
         if j == i then Succ(i, ev)
         else
           var rest := Peg(t, s, j);
           Succ(rest.pos, ev + rest.events))
    case TSeq(p1, p2) =>
      (match Peg(p1, s, i)
       case Fail => Fail
       case Succ(j, ev1) =>
         match Peg(p2, s, j)
         case Fail => Fail
         case Succ(k, ev2) => Succ(k, ev1 + ev2))
    case TChoice(p1, p2) =>
      (match Peg(p1, s, i)
       case Fail => Peg(p2, s, i)
       case Succ(j, ev) => Succ(j, ev))
    case TNot(p) => if Peg(p, s, i).Fail? then Succ(i, []) else Fail
    case TAnd(p) => if Peg(p, s, i).Fail? then Fail else Succ(i, [])
    case TBehind(n, p) =>
      if n <= i && Peg(p, s, i - n).Succ? && Peg(p, s, i - n).pos == i then Succ(i, []) else Fail
    case TCapture(cap, key, p) =>
      match Peg(p, s, i)
      case Fail => Fail
      case Succ(j, ev) => Succ(j, [Open(cap, key, i)] + ev + [Close(j)])
  }
}
