/** The bytes that stand for a value: which of them are read as it, and that packing
    takes the shortest. */
module LuaSeriForms {
  import opened LuaSeri

  /** Bytes, the lowest first, as a two's complement. */
  function SignedLe(s: Bytes): int {
    if 2 * FromLe(s) >= Power256(|s|) then FromLe(s) - Power256(|s|) else FromLe(s)
  }

  /** The byte strings that stand for a value that is not a table. */
  predicate Spells(b: Bytes, v: Value)
    requires !v.Table?
  {
    |b| > 0 &&
    match v
    case Nil => |b| == 1 && b[0] % 8 == 0
    case Boolean(x) => |b| == 1 && b[0] % 8 == 1 && (x <==> b[0] >= 8)
    case Integer(i) => SpellsInteger(b[0], b[1..], i)
    case Real(bits) => |bits| == 8 && b == [66] + bits
    case Pointer(bits) => |bits| == 8 && b[0] % 8 == 3 && b[1..] == bits
    case String(s) =>
      || (b[0] % 8 == 4 && b[0] / 8 == |s| && b[1..] == s)
      || (b[0] == 21 && SpellsLong(b[1..], 2, s))
      || (b[0] == 37 && SpellsLong(b[1..], 4, s) && |s| <= 0x7fff_ffff)
    case Unsupported => false
  }

  predicate SpellsInteger(head: Byte, digits: Bytes, i: int) {
    || (head == 2 && digits == [] && i == 0)
    || (head == 10 && |digits| == 1 && i == FromLe(digits))
    || (head == 18 && |digits| == 2 && i == FromLe(digits))
    || (head == 34 && |digits| == 4 && i == SignedLe(digits))
    || (head == 50 && |digits| == 8 && i == SignedLe(digits))
  }

  predicate SpellsLong(b: Bytes, n: nat, s: Bytes) { |b| >= n && FromLe(b[..n]) == |s| && b[n..] == s }

  /** Taking `n` bytes leaves the rest exactly when they are all that is in front of it. */
  lemma TakeIff(n: nat, b: Bytes, rest: Bytes, s: Bytes)
    ensures Take(n, b + rest) == Got(s, rest) <==> |b| == n && s == b
    ensures Take(n, b + rest).Got? ==> (Take(n, b + rest).rest == rest <==> |b| == n)
  {
    if |b| + |rest| >= n && (b + rest)[n..] == rest { assert |b| == n; }
    if |b| == n { TakeFirst(b, rest); }
  }

  lemma IntegerIff(cookie: nat, b: Bytes, rest: Bytes, i: Int64)
    requires cookie < 32
    ensures GetInteger(cookie, b + rest) == Got(i, rest) <==> SpellsInteger(2 + 8 * cookie, b, i)
  {
    hide FromLe, Power256;
    Powers();
    var n := if cookie == 1 then 1 else if cookie == 2 then 2 else if cookie == 4 then 4 else 8;
    var s := b + rest;
    if |s| >= n {
      FromLeBound(s[..n]);
      if s[n..] == rest { assert |b| == n; }
      if |b| == n { assert s[..n] == b && s[n..] == rest; }
    }
  }

  lemma BufferIff(n: nat, b: Bytes, rest: Bytes, s: Bytes)
    ensures GetBuffer(n, b + rest) == Got(String(s), rest) <==> n <= INT_MAX && |b| == n && b == s
  {
    TakeIff(n, b, rest, s);
  }

  lemma LongIff(n: nat, b: Bytes, rest: Bytes, s: Bytes)
    requires n == 2 || n == 4
    ensures PushValue(TYPE_LONG_STRING, n, b + rest) == Got(String(s), rest) <==>
            SpellsLong(b, n, s) && |s| <= INT_MAX
  {
    hide FromLe, GetBuffer;
    var t := b + rest;
    if |b| >= n {
      assert t[..n] == b[..n] && t[n..] == b[n..] + rest;
      BufferIff(FromLe(b[..n]), b[n..], rest, s);
    } else if |t| >= n {
      BufferShort(FromLe(t[..n]), t[n..], rest, s);
    }
  }

  /** What is left cannot be longer than what there was. */
  lemma BufferShort(n: nat, t: Bytes, rest: Bytes, s: Bytes)
    requires |t| < |rest|
    ensures GetBuffer(n, t) != Got(String(s), rest)
  {
  }

  lemma Head(b: Bytes, rest: Bytes)
    requires b != []
    ensures Decode(b + rest) == PushValue(b[0] % 8, b[0] / 8, b[1..] + rest)
  {
    hide PushValue;
    assert (b + rest)[1..] == b[1..] + rest;
  }

  lemma NumberIff(b: Bytes, v: Value, rest: Bytes)
    requires b != [] && b[0] % 8 == 2 && !v.Table?
    ensures Decode(b + rest) == Got(v, rest) <==> Spells(b, v)
  {
    hide Decode, GetInteger, FromLe, Take, Power256;
    Head(b, rest);
    var cookie := b[0] / 8;
    if cookie == NUMBER_REAL {
      assert b == [66] + b[1..];
      TakeIff(8, b[1..], rest, if v.Real? then v.bits else []);
    } else if v.Integer? {
      IntegerIff(cookie, b[1..], rest, v.i);
    } else if v.Real? {
      assert ([66] + v.bits)[0] == 66;
    }
  }

  lemma StringIff(b: Bytes, v: Value, rest: Bytes)
    requires b != [] && (b[0] % 8 == 4 || b[0] % 8 == 5) && !v.Table?
    ensures Decode(b + rest) == Got(v, rest) <==> Spells(b, v)
  {
    hide Decode, FromLe, SpellsLong;
    Head(b, rest);
    var s := if v.String? then v.s else [];
    var cookie := b[0] / 8;
    if b[0] % 8 == 4 {
      BufferIff(cookie, b[1..], rest, s);
    } else if cookie == 2 || cookie == 4 {
      LongIff(cookie, b[1..], rest, s);
      if cookie == 2 && SpellsLong(b[1..], 2, s) { TwoBytes(b[1..], s); }
    }
  }

  lemma TwoBytes(b: Bytes, s: Bytes)
    requires SpellsLong(b, 2, s)
    ensures |s| < 0x1_0000
  {
    FromLeBound(b[..2]);
    Powers();
  }

  /** A byte string is read as a value, and nothing behind it, exactly when it stands for it. */
  lemma ReadIff(b: Bytes, v: Value, rest: Bytes)
    requires !v.Table?
    ensures Decode(b + rest) == Got(v, rest) <==> Spells(b, v)
  {
    hide Decode, PushValue, Spells;
    if b == [] {
      assert b + rest == rest;
      SpellsNone(v);
    } else if b[0] % 8 == 2 {
      NumberIff(b, v, rest);
    } else if b[0] % 8 == 4 || b[0] % 8 == 5 {
      StringIff(b, v, rest);
    } else {
      OtherIff(b, v, rest);
    }
  }

  lemma SpellsNone(v: Value)
    requires !v.Table?
    ensures !Spells([], v)
  {
  }

  lemma OtherIff(b: Bytes, v: Value, rest: Bytes)
    requires b != [] && b[0] % 8 !in {2, 4, 5} && !v.Table?
    ensures Decode(b + rest) == Got(v, rest) <==> Spells(b, v)
  {
    hide Decode, Take, UnpackTable;
    Head(b, rest);
    if b[0] % 8 == 3 {
      TakeIff(8, b[1..], rest, if v.Pointer? then v.bits else []);
    } else if b[0] % 8 <= 1 {
      if b[1..] + rest == rest { assert |b| == 1; }
      if |b| == 1 { assert b[1..] + rest == rest; }
    } else if b[0] % 8 == 6 {
      TableOnly(b[0] / 8, b[1..] + rest);
    }
  }

  lemma TableOnly(cookie: nat, s: Bytes)
    requires cookie < 32
    ensures UnpackTable(cookie, s).Got? ==> UnpackTable(cookie, s).value.Table?
  {
  }

  /** What is packed stands for the value, and nothing shorter does. */
  lemma Shortest(v: Value, depth: nat, b: Bytes)
    requires Proper(v) && !v.Table? && PackOf(v, depth).Packed?
    ensures Spells(PackOf(v, depth).bytes, v)
    ensures Spells(b, v) ==> |PackOf(v, depth).bytes| <= |b|
  {
    hide Decode, PackOf, Spells;
    RoundTrip(v, depth, []);
    ReadIff(PackOf(v, depth).bytes, v, []);
    if Spells(b, v) { NotLonger(v, depth, b); }
  }

  lemma NotLonger(v: Value, depth: nat, b: Bytes)
    requires Proper(v) && !v.Table? && PackOf(v, depth).Packed? && Spells(b, v)
    ensures |PackOf(v, depth).bytes| <= |b|
  {
    hide FromLe, Le, Combine, IntegerBytes, IntegerCookie;
    match v
    case Integer(i) => ShortestInteger(b[0], b[1..], i);
    case String(s) => if b[0] == 21 { TwoBytes(b[1..], s); }
    case _ =>
  }

  lemma ShortestInteger(head: Byte, digits: Bytes, i: Int64)
    requires SpellsInteger(head, digits, i)
    ensures |IntegerBytes(i)| <= |digits|
  {
    hide FromLe, Power256, Le;
    Powers();
    FromLeBound(digits);
  }

  /** How long the bytes are, and how they begin. */
  lemma IntegerForm(i: Int64)
    ensures var b := PackInteger(i);
            && |b| == (if i == 0 then 1 else if 0 < i < 0x100 then 2 else if 0 < i < 0x1_0000 then 3
                       else if -0x8000_0000 <= i < 0x8000_0000 then 5 else 9)
            && b[0] == (if |b| == 1 then 2 else if |b| == 2 then 10 else if |b| == 3 then 18 else if |b| == 5 then 34 else 50)
  {
    hide Le;
  }

  lemma StringForm(s: Bytes)
    requires |s| <= INT_MAX
    ensures var b := PackString(s);
            && |b| == |s| + (if |s| < 32 then 1 else if |s| < 0x1_0000 then 3 else 5)
            && b[0] == (if |s| < 32 then 4 + 8 * |s| else if |s| < 0x1_0000 then 21 else 37)
            && b[|b| - |s|..] == s
  {
    hide Le;
  }

  /** A table begins with the length of its array part, in the first byte if that is less than 31. */
  lemma TableForm(n: nat)
    requires n <= INT_MAX
    ensures TableHead(n) == if n < 31 then [6 + 8 * n] else [254] + PackInteger(n)
  {
    hide PackInteger;
  }
}
