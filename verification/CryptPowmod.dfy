/** Modular powers over 64-bit words, and the key exchange that is built on them. */
module CryptPowmod {
  import Endian

  const WORD: int := 0x1_0000_0000_0000_0000
  const P: nat := 0xffff_ffff_ffff_ffc5
  const G: nat := 5

  type U64 = x: int | 0 <= x < 0x1_0000_0000_0000_0000
  type Byte = x: int | 0 <= x < 256

  /** What the machine keeps of a result. */
  function Wrap(x: int): U64 { x % WORD }

  lemma WrapOver(x: int)
    requires 0 <= x < 2 * WORD
    ensures Wrap(x) == if x < WORD then x else x - WORD
  {
  }

  lemma WrapUnder(x: int)
    requires -WORD <= x < 0
    ensures Wrap(x) == x + WORD
  {
  }

  function Pow(a: int, n: nat): int { if n == 0 then 1 else a * Pow(a, n - 1) }

  /** Are two numbers the same modulo P? */
  ghost predicate Same(x: int, y: int) { exists k: int :: x == y + k * P }

  lemma SameBy(x: int, y: int, k: int)
    requires x == y + k * P
    ensures Same(x, y)
  {
  }

  lemma SameTrans(x: int, y: int, z: int)
    requires Same(x, y) && Same(y, z)
    ensures Same(x, z)
  {
    var k: int :| x == y + k * P;
    var l: int :| y == z + l * P;
    assert x == z + (k + l) * P;
  }

  lemma SameTimes(x: int, y: int, x': int, y': int)
    requires Same(x, x') && Same(y, y')
    ensures Same(x * y, x' * y')
  {
    var k: int :| x == x' + k * P;
    var l: int :| y == y' + l * P;
    calc {
      x * y;
      (x' + k * P) * (y' + l * P);
      x' * y' + x' * (l * P) + (k * P) * y' + (k * P) * (l * P);
      x' * y' + (x' * l) * P + (k * y') * P + (k * (l * P)) * P;
      x' * y' + (x' * l + k * y' + k * (l * P)) * P;
    }
    SameBy(x * y, x' * y', x' * l + k * y' + k * (l * P));
  }

  /** The remainder is the only small number of its class. */
  lemma SameSmall(x: int, y: int)
    requires Same(x, y) && 0 <= x < P
    ensures x == y % P
  {
    var k: int :| x == y + k * P;
    Unique(y, -k, x);
  }

  lemma Unique(y: int, q: int, r: int)
    requires y == q * P + r && 0 <= r < P
    ensures r == y % P
  {
  }

  lemma SameMod(y: int)
    ensures Same(y % P, y)
  {
    SameBy(y % P, y, -(y / P));
  }

  /** One round of `mul_mod_p`: `a` doubled, without a carry out of the 64 bits. */
  lemma Doubled(a: U64)
    requires a <= P
    ensures var a' := if a >= P - a then Wrap(Wrap(a * 2) - P) else Wrap(a * 2);
            a' == (if a >= P - a then 2 * a - P else 2 * a) && a' <= P && (a < P ==> a' < P) && Same(a', 2 * a)
  {
    WrapOver(a * 2);
    if a >= P - a {
      if a * 2 >= WORD { WrapUnder(a * 2 - WORD - P); } else { WrapOver(a * 2 - P); }
      SameBy(2 * a - P, 2 * a, -1);
    } else {
      SameBy(2 * a, 2 * a, 0);
    }
  }

  /** The other half of the round: `a` added to the sum, without a carry. */
  lemma Added(m: U64, a: U64)
    requires a <= P && m < P
    ensures var t := Wrap(P - a);
            t == P - a &&
            var m' := if m >= t then Wrap(m - t) else Wrap(m + a);
            m' < P && Same(m', m + a)
  {
    WrapOver(P - a);
    if m >= P - a {
      WrapOver(m - (P - a));
      SameBy(m - (P - a), m + a, -1);
    } else {
      WrapOver(m + a);
      SameBy(m + a, m + a, 0);
    }
  }

  /** What is left to add: a product of two words. */
  lemma Round(m: int, a: int, b: nat, m': int, a': int, goal: int)
    requires Same(m + a * b, goal) && Same(a', 2 * a)
    requires Same(m', if b % 2 == 1 then m + a else m)
    ensures Same(m' + a' * (b / 2), goal)
  {
    var h, r := b / 2, b % 2;
    SameBy(h, h, 0);
    SameTimes(a', h, 2 * a, h);
    var k: int :| a' * h == 2 * a * h + k * P;
    var l: int :| m' == (if r == 1 then m + a else m) + l * P;
    assert a * b == 2 * a * h + a * r by {
      assert b == 2 * h + r;
      assert a * (2 * h + r) == a * (2 * h) + a * r;
    }
    assert m' + a' * h == m + a * b + (k + l) * P;
    SameTrans(m' + a' * h, m + a * b, goal);
  }

  /** `mul_mod_p`: double and add, with all sums reduced on the way. Correct for every
      `a` up to P itself; no intermediate result wraps to a wrong value. */
  method MulModP(a0: U64, b0: U64) returns (m: U64)
    requires a0 <= P
    ensures m == (a0 * b0) % P
  {
    hide Same;
    var a: U64, b: U64 := a0, b0;
    m := 0;
    SelfSame(a0 * b0);
    while b != 0
      invariant a <= P && m < P && Same(m + a * b, a0 * b0)
      decreases b
    {
      ghost var m1, a1 := m, a;
      SelfSame(m);
      if b % 2 == 1 {
        Added(m, a);
        var t: U64 := Wrap(P - a);
        if m >= t { m := Wrap(m - t); } else { m := Wrap(m + a); }
      }
      Doubled(a);
      a := if a >= P - a then Wrap(Wrap(a * 2) - P) else Wrap(a * 2);
      Round(m1, a1, b, m, a, a0 * b0);
      b := b / 2;
    }
    SameSmall(m, a0 * b0);
  }

  lemma SelfSame(x: int)
    ensures Same(x, x)
  {
    SameBy(x, x, 0);
  }

  lemma {:induction false} PowAdd(a: int, m: nat, n: nat)
    ensures Pow(a, m + n) == Pow(a, m) * Pow(a, n)
    decreases m
  {
    if m == 0 {
      assert Pow(a, 0) == 1;
    } else {
      PowAdd(a, m - 1, n);
      assert a * (Pow(a, m - 1) * Pow(a, n)) == a * Pow(a, m - 1) * Pow(a, n);
    }
  }

  lemma {:induction false} PowPow(a: int, m: nat, n: nat)
    ensures Pow(Pow(a, m), n) == Pow(a, m * n)
    decreases n
  {
    if n == 0 {
      assert m * 0 == 0;
    } else {
      PowPow(a, m, n - 1);
      assert m * n == m + m * (n - 1);
      PowAdd(a, m, m * (n - 1));
    }
  }

  lemma {:induction false} PowSame(a: int, a': int, n: nat)
    requires Same(a, a')
    ensures Same(Pow(a, n), Pow(a', n))
  {
    if n == 0 {
      SelfSame(1);
    } else {
      PowSame(a, a', n - 1);
      SameTimes(a, Pow(a, n - 1), a', Pow(a', n - 1));
    }
  }

  /** `pow_mod_p`, by squaring. The base case returns `a` as it is, so a base that is
      the modulus itself is reduced by every product but not by the first power. */
  method PowModP(a: U64, b: U64) returns (t: U64)
    requires a <= P && b >= 1
    ensures t == if a == P && b == 1 then P else Pow(a, b) % P
    decreases b
  {
    hide Same;
    if b == 1 {
      assert Pow(a, 1) == a * Pow(a, 0) == a;
      SelfSame(a);
      if a < P { SameSmall(a, a); }
      return a;
    }
    var h := b / 2;
    t := PowModP(a, h);
    ghost var t0 := t;
    PowerLeft(a, h, t);
    t := MulModP(t, t);
    SquareOf(a, h, t0, t);
    if b % 2 == 1 {
      ghost var t1 := t;
      t := MulModP(t, a);
      OneMore(a, 2 * h, t1, t);
    } else {
      SameSmall(t, Pow(a, b));
    }
  }

  lemma PowerLeft(a: int, h: nat, t: int)
    requires t == if a == P && h == 1 then P else Pow(a, h) % P
    ensures Same(t, Pow(a, h)) && t <= P
  {
    if a == P && h == 1 {
      assert Pow(a, 1) == a * Pow(a, 0) == a;
      SelfSame(a);
    } else {
      SameMod(Pow(a, h));
    }
  }

  lemma SquareOf(a: int, h: nat, t0: int, t: int)
    requires Same(t0, Pow(a, h)) && t == (t0 * t0) % P
    ensures 0 <= t < P && Same(t, Pow(a, 2 * h))
  {
    SameMod(t0 * t0);
    SameTimes(t0, t0, Pow(a, h), Pow(a, h));
    SameTrans(t, t0 * t0, Pow(a, h) * Pow(a, h));
    PowAdd(a, h, h);
  }

  lemma OneMore(a: int, n: nat, t1: int, t: int)
    requires Same(t1, Pow(a, n)) && t == (t1 * a) % P
    ensures t == Pow(a, n + 1) % P
  {
    SameMod(t1 * a);
    SelfSame(a);
    SameTimes(t1, a, Pow(a, n), a);
    SameTrans(t, t1 * a, Pow(a, n) * a);
    assert Pow(a, n + 1) == a * Pow(a, n) == Pow(a, n) * a;
    SameSmall(t, Pow(a, n + 1));
  }

  /** `powmodp`: the power of any word, except that the modulus to the power 1 is left
      as it is. */
  method Powmodp(a0: U64, b: U64) returns (r: U64)
    requires b >= 1
    ensures r == PowmodpOf(a0, b)
    ensures r == Pow(a0, b) % P <==> !(a0 == P && b == 1)
  {
    var a := a0;
    if a > P { a := a % P; }
    r := PowModP(a, b);
    SameMod(a0);
    SelfSame(a0);
    PowSame(a, a0, b);
    assert a0 > P ==> a == a0 - P;
    if a0 == P && b == 1 {
      assert Pow(P, 1) == P * Pow(P, 0) == P;
    } else {
      SameMod(Pow(a, b));
      SameTrans(Pow(a, b) % P, Pow(a, b), Pow(a0, b));
      SameSmall(Pow(a, b) % P, Pow(a0, b));
    }
  }

  /** The value of `powmodp`. */
  function PowmodpOf(a: U64, b: U64): U64
    requires b >= 1
  {
    if a == P && b == 1 then P else Pow(a, b) % P
  }

  datatype Result<T> = Ok(value: T) | Error(message: string)

  // words as strings of 8 bytes, low byte first

  function ShiftRight8(r: nat, k: nat): nat { if k == 0 then r else ShiftRight8(r, k - 1) / 256 }

  function LowByte(r: nat): Byte { r % 256 }

  function Push64(r: U64): (s: seq<Byte>)
    ensures |s| == 8
  {
    [LowByte(r), LowByte(ShiftRight8(r, 1)), LowByte(ShiftRight8(r, 2)), LowByte(ShiftRight8(r, 3)),
     LowByte(ShiftRight8(r, 4)), LowByte(ShiftRight8(r, 5)), LowByte(ShiftRight8(r, 6)), LowByte(ShiftRight8(r, 7))]
  }

  function Word32(b0: nat, b1: nat, b2: nat, b3: nat): nat {
    b0 + b1 * 0x100 + b2 * 0x1_0000 + b3 * 0x100_0000
  }

  function Read64(s: seq<Byte>): U64
    requires |s| == 8
  {
    Word32(s[0], s[1], s[2], s[3]) + Word32(s[4], s[5], s[6], s[7]) * 0x1_0000_0000
  }

  lemma ReadForm(s: seq<Byte>)
    requires |s| == 8
    ensures Read64(s) == Endian.LittleEndian(s)
  {
    assert s == [s[0], s[1], s[2], s[3], s[4], s[5], s[6], s[7]];
    Endian.EightBytes(s[0], s[1], s[2], s[3], s[4], s[5], s[6], s[7]);
  }

  lemma Split(r: nat, k: nat)
    ensures ShiftRight8(r, k) == LowByte(ShiftRight8(r, k)) + 256 * ShiftRight8(r, k + 1)
  {
  }

  /** Reading back what was written. */
  lemma ReadPush(r: U64)
    ensures Read64(Push64(r)) == r
  {
    hide LowByte, ShiftRight8, Word32;
    HalfWord(r, 0);
    HalfWord(r, 4);
    NoShift(r);
    assert ShiftRight8(r, 8) == 0 by {
      assert 0 <= Word32(Push64(r)[0], Push64(r)[1], Push64(r)[2], Push64(r)[3]);
      assert 0 <= Word32(Push64(r)[4], Push64(r)[5], Push64(r)[6], Push64(r)[7]);
    }
  }

  lemma HalfWord(r: nat, k: nat)
    ensures ShiftRight8(r, k) ==
            Word32(LowByte(ShiftRight8(r, k)), LowByte(ShiftRight8(r, k + 1)),
                   LowByte(ShiftRight8(r, k + 2)), LowByte(ShiftRight8(r, k + 3))) +
            0x1_0000_0000 * ShiftRight8(r, k + 4)
  {
    hide LowByte, ShiftRight8;
    Split(r, k);
    Split(r, k + 1);
    Split(r, k + 2);
    Split(r, k + 3);
  }

  lemma NoShift(r: nat)
    ensures ShiftRight8(r, 0) == r
  {
  }

  /** `ldhexchange`: the public key of a private key. */
  function ExchangeOf(x: seq<Byte>): Result<seq<Byte>> {
    if |x| != 8 then Error("Invalid dh uint64 key")
    else if Read64(x) == 0 then Error("Can't be 0")
    else Ok(Push64(PowmodpOf(G, Read64(x))))
  }

  method DhExchange(x: seq<Byte>) returns (r: Result<seq<Byte>>)
    ensures r == ExchangeOf(x)
    ensures r.Error? <==> |x| != 8 || Read64(x) == 0
    ensures r.Ok? ==> |r.value| == 8 && Read64(r.value) == Pow(5, Read64(x)) % P
  {
    if |x| != 8 { return Error("Invalid dh uint64 key"); }
    var x64 := Read64(x);
    if x64 == 0 { return Error("Can't be 0"); }
    var p := Powmodp(G, x64);
    ReadPush(p);
    return Ok(Push64(p));
  }

  /** `ldhsecret`: the secret of the other side's public key and one's private key. */
  function SecretOf(x: seq<Byte>, y: seq<Byte>): Result<seq<Byte>> {
    if |x| != 8 then Error("Invalid uint64 x")
    else if |y| != 8 then Error("Invalid uint64 y")
    else if Read64(x) == 0 || Read64(y) == 0 then Error("Can't be 0")
    else Ok(Push64(PowmodpOf(Read64(x), Read64(y))))
  }

  method DhSecret(x: seq<Byte>, y: seq<Byte>) returns (r: Result<seq<Byte>>)
    ensures r == SecretOf(x, y)
    ensures r.Error? <==> |x| != 8 || |y| != 8 || Read64(x) == 0 || Read64(y) == 0
    ensures r.Ok? ==> |r.value| == 8 && Read64(r.value) == PowmodpOf(Read64(x), Read64(y))
  {
    if |x| != 8 { return Error("Invalid uint64 x"); }
    if |y| != 8 { return Error("Invalid uint64 y"); }
    var xx, yy := Read64(x), Read64(y);
    if xx == 0 || yy == 0 { return Error("Can't be 0"); }
    var p := Powmodp(xx, yy);
    ReadPush(p);
    return Ok(Push64(p));
  }

  // the inverse of 5 modulo P
  const G_INVERSE: nat := 0x6666_6666_6666_664f

  /** A public key is never 0: 5 has an inverse modulo P. */
  lemma PublicNonZero(n: nat)
    ensures Pow(G, n) % P != 0
  {
    SelfSame(1);
    SameBy(G * G_INVERSE, 1, G * G_INVERSE / P);
    PowSame(G * G_INVERSE, 1, n);
    PowOne(n);
    PowProduct(G, G_INVERSE, n);
    if Pow(G, n) % P == 0 {
      SameMod(Pow(G, n));
      SelfSame(Pow(G_INVERSE, n));
      SameTimes(0, Pow(G_INVERSE, n), Pow(G, n), Pow(G_INVERSE, n));
      SameTrans(0, Pow(G * G_INVERSE, n), 1);
      SameSmall(0, 1);
    }
  }

  lemma {:induction false} PowOne(n: nat)
    ensures Pow(1, n) == 1
  {
    if n > 0 { PowOne(n - 1); }
  }

  lemma {:induction false} PowProduct(a: int, b: int, n: nat)
    ensures Pow(a * b, n) == Pow(a, n) * Pow(b, n)
  {
    if n > 0 {
      PowProduct(a, b, n - 1);
      Exchange(a, b, Pow(a, n - 1), Pow(b, n - 1));
    }
  }

  lemma Exchange(a: int, b: int, x: int, y: int)
    ensures (a * b) * (x * y) == (a * x) * (b * y)
  {
    assert (a * b) * (x * y) == a * (b * (x * y));
    assert b * (x * y) == x * (b * y);
    assert a * (x * (b * y)) == (a * x) * (b * y);
  }

  /** G to the product of both private keys. */
  function SharedSecret(x: nat, y: nat): U64 { Pow(G, x * y) % P }

  /** Both sides of the exchange get the same secret, for all non-zero private keys. */
  lemma SameSecret(x: seq<Byte>, y: seq<Byte>)
    requires |x| == |y| == 8 && Read64(x) != 0 && Read64(y) != 0
    ensures ExchangeOf(x).Ok? && ExchangeOf(y).Ok?
    ensures var secret := Ok(Push64(SharedSecret(Read64(x), Read64(y))));
            SecretOf(ExchangeOf(x).value, y) == secret && SecretOf(ExchangeOf(y).value, x) == secret
  {
    hide PowmodpOf, Push64, Read64, SharedSecret, Pow;
    SharedBoth(Read64(x), Read64(y));
    OneSide(Read64(x), Read64(y));
    OneSide(Read64(y), Read64(x));
    ReadPush(PowmodpOf(G, Read64(x)));
    ReadPush(PowmodpOf(G, Read64(y)));
  }

  lemma SharedBoth(x: nat, y: nat)
    ensures SharedSecret(x, y) == SharedSecret(y, x)
  {
    assert x * y == y * x;
  }

  lemma OneSide(x: U64, y: U64)
    requires x >= 1 && y >= 1
    ensures var public := PowmodpOf(G, x);
            0 < public < P && PowmodpOf(public, y) == SharedSecret(x, y)
  {
    var public := PowmodpOf(G, x);
    PublicNonZero(x);
    SameMod(Pow(G, x));
    PowSame(public, Pow(G, x), y);
    PowPow(G, x, y);
    SameMod(Pow(public, y));
    SameTrans(Pow(public, y) % P, Pow(public, y), Pow(G, x * y));
    SameSmall(Pow(public, y) % P, Pow(G, x * y));
  }
}
