/** The scaling around the division: powers of five from a shared list of squares, and the
    shift that leaves four zero bits on top of the divisor. */
module DtoaScale {
  import opened DtoaWords
  import opened DtoaBigint

  function Five(k: nat): (p: nat)
    ensures p > 0
  {
    if k == 0 then 1 else 5 * Five(k - 1)
  }

  lemma {:induction false} FiveAdd(i: nat, j: nat)
    ensures Five(i + j) == Five(i) * Five(j)
  {
    if i > 0 {
      FiveAdd(i - 1, j);
      Regroup(5, Five(i - 1), Five(j));
    }
  }

  /** The square of a level. */
  function Sq(level: nat): nat { Five(4 * Two(level)) }

  lemma FirstSquare()
    ensures Sq(0) == 625
  {
    assert Two(0) == 1;
    assert Five(2) == 25;
    FiveAdd(2, 2);
  }

  lemma NextSquare(level: nat)
    ensures Sq(level + 1) == Sq(level) * Sq(level)
  {
    FiveAdd(4 * Two(level), 4 * Two(level));
    assert 4 * Two(level + 1) == 4 * Two(level) + 4 * Two(level);
  }

  /** The squares 625, 625^2, 625^4, ... that were needed so far. */
  class Squares {
    var p5s: seq<Bigint>
    ghost var Repr: set<object>

    ghost predicate Valid() reads this, Repr {
      forall i :: 0 <= i < |p5s| ==>
        p5s[i] in Repr && p5s[i].x in Repr && p5s[i].Is(Sq(i))
    }

    constructor ()
      ensures Valid() && p5s == [] && Repr == {}
    {
      p5s := [];
      Repr := {};
    }

    method MakeSquare(level: nat) returns (next: Bigint)
      requires Valid() && level == |p5s|
      ensures fresh(next) && fresh(next.x) && next.Is(Sq(level))
    {
      hide Sq, Val;
      if level == 0 {
        FirstSquare();
        next := I2b(625);
      } else {
        NextSquare(level - 1);
        next := Mult(p5s[level - 1], p5s[level - 1]);
      }
    }

    /** The next square, made when it is first needed. */
    method Square(level: nat) returns (p5: Bigint)
      requires Valid() && level <= |p5s|
      modifies this
      ensures Valid() && level < |p5s| && p5 == p5s[level] && fresh(Repr - old(Repr))
      ensures p5.Is(Sq(level))
    {
      hide Sq, Bigint.Is;
      if level == |p5s| {
        var next := MakeSquare(level);
        p5s := p5s + [next];
        Repr := Repr + {next, next.x};
      }
      p5 := p5s[level];
    }
  }

  /** One bit of the exponent. */
  lemma ExponentBit(k: nat, level: nat)
    ensures Five(4 * (Two(level) * k)) ==
            (if k % 2 == 1 then Sq(level) else 1) * Five(4 * (Two(level + 1) * (k / 2)))
  {
    var t, h := Two(level), k / 2;
    assert Two(level + 1) * h == t * (2 * h) by { Regroup(t, 2, h); Swap(2, t); }
    if k % 2 == 1 {
      assert t * k == t + t * (2 * h);
      FiveAdd(4 * t, 4 * (t * (2 * h)));
    } else {
      assert k == 2 * h;
    }
  }

  /** `b * 5^k`: the two low bits by a small factor, the others by squares. */
  method Pow5mult(s: Squares, b: Bigint, k: nat) returns (r: Bigint)
    requires s.Valid() && b.Valid() && b.wds > 0 && b !in s.Repr && b.x !in s.Repr
    modifies s, b, b.x
    ensures s.Valid() && r.Valid() && r.Value() == old(b.Value()) * Five(k)
  {
    hide Five, Two, Val;
    r := b;
    ghost var value := b.Value();
    var i := k % 4;
    SmallFives();
    if i != 0 {
      var small: Word := if i == 1 then 5 else if i == 2 then 25 else 125;
      r := Multadd(b, small, 0);
    }
    var rest := k / 4;
    ghost var done := r.Value();
    assert value * Five(k) == done * Five(4 * rest) by {
      FiveAdd(i, 4 * rest);
      Regroup(value, Five(i), Five(4 * rest));
    }
    if rest == 0 { return; }
    r := BySquares(s, r, rest);
  }

  lemma SmallFives()
    ensures Five(0) == 1 && Five(1) == 5 && Five(2) == 25 && Five(3) == 125
  {
  }

  /** The loop of `Pow5mult` over the other bits. */
  method BySquares(s: Squares, b: Bigint, k: nat) returns (r: Bigint)
    requires s.Valid() && b.Valid() && k > 0
    modifies s
    ensures s.Valid() && r.Valid() && r.Value() == old(b.Value()) * Five(4 * k)
  {
    hide Five, Two, Sq, Val, Squares.Valid;
    ghost var goal := b.Value() * Five(4 * k);
    r := b;
    var rest, level := k, 0;
    TwoZero();
    var p5 := s.Square(0);
    while true
      invariant s.Valid() && r.Valid() && 0 <= level < |s.p5s| && rest > 0
      invariant p5.Is(Sq(level))
      invariant r.Value() * Five(4 * (Two(level) * rest)) == goal
      decreases rest
    {
      ghost var v, f, g := r.Value(), Sq(level), Five(4 * (Two(level + 1) * (rest / 2)));
      ExponentBit(rest, level);
      Regroup(v, f, g);
      if rest % 2 == 1 { r := Mult(r, p5); }
      rest := rest / 2;
      if rest == 0 {
        NoMore(Two(level + 1));
        break;
      }
      level := level + 1;
      p5 := s.Square(level);
    }
  }

  lemma NoMore(t: nat)
    ensures Five(4 * (t * 0)) == 1
  {
  }

  /* ---------- leading zero bits ---------- */

  lemma MoreBits(x: nat, k: nat, d: nat, y: nat)
    requires y == x * Two(k)
    ensures y * Two(d) == x * Two(k + d)
  {
    TwoAdd(k, d);
    Regroup(x, Two(k), Two(d));
  }

  lemma SmallTwos()
    ensures Two(0) == 1 && Two(1) == 2 && Two(2) == 4 && Two(4) == 16 && Two(8) == 256 && Two(16) == 0x1_0000
  {
    assert Two(4) == 16;
    TwoAdd(4, 4);
    TwoAdd(8, 8);
  }

  /** The number of leading zero bits of a word, or 32. A mask that finds nothing is a
      bound, and a shift that loses nothing a product. */
  method Hi0bits(x: Word) returns (k: nat)
    ensures x == 0 ==> k == 32
    ensures x != 0 ==> k < 32 && 0x8000_0000 <= x * Two(k) < BASE
  {
    SmallTwos();
    hide Two;
    k := 0;
    var y: Word := x;
    if y < 0x1_0000 {
      MoreBits(x, k, 16, y);
      k := 16;
      y := y * 0x1_0000;
    }
    assert y == x * Two(k) && k <= 16 && (x != 0 ==> y >= 0x1_0000);
    if y < 0x100_0000 {
      MoreBits(x, k, 8, y);
      k := k + 8;
      y := y * 256;
    }
    assert y == x * Two(k) && k <= 24 && (x != 0 ==> y >= 0x100_0000);
    if y < 0x1000_0000 {
      MoreBits(x, k, 4, y);
      k := k + 4;
      y := y * 16;
    }
    assert y == x * Two(k) && k <= 28 && (x != 0 ==> y >= 0x1000_0000);
    if y < 0x4000_0000 {
      MoreBits(x, k, 2, y);
      k := k + 2;
      y := y * 4;
    }
    assert y == x * Two(k) && k <= 30 && (x != 0 ==> y >= 0x4000_0000);
    if y < 0x8000_0000 {
      MoreBits(x, k, 1, y);
      k := k + 1;
      if y < 0x4000_0000 {
        return 32;
      }
    }
  }

  /** The shift for a divisor that will be shifted by `p2` as well: the two together leave
      four zero bits on top. */
  method Dshift(b: Bigint, p2: nat) returns (rv: nat, ghost words: nat)
    requires b.Valid() && b.wds > 0 && b.x[b.wds - 1] != 0
    ensures rv < 32
    ensures 0x800_0000 * Pow(words) <= b.Value() * Two(p2 + rv) < 0x1000_0000 * Pow(words)
  {
    var bits := Hi0bits(b.x[b.wds - 1]);
    rv := (bits as int - 4 - p2) % 32;
    words := FourZeros(b.Words(), bits, p2, rv);
  }

  /** A word shifted to the top of its place: the value of the whole, shifted as far. */
  lemma TopShifted(v: nat, top: nat, p: nat, m: nat, r: nat)
    requires top * p <= v < (top + 1) * p && m * r == BASE && r > 0 && m > 0
    requires 0x8000_0000 <= top * m < BASE
    ensures 0x8000_0000 * p <= v * m < BASE * p
  {
    assert top < r by { if top >= r { TimesLe(r, top, m); Swap(r, m); } }
    calc {
      0x8000_0000 * p;
    <= { TimesLe(0x8000_0000, top * m, p); }
      top * m * p;
    == { Exchange(top, m, p); }
      top * p * m;
    <= { TimesLe(top * p, v, m); }
      v * m;
    }
    calc {
      v * m;
    < { Strict(v, (top + 1) * p, m); }
      (top + 1) * p * m;
    == { Exchange(top + 1, p, m); }
      (top + 1) * m * p;
    <= { TimesLe(top + 1, r, m); Swap(r, m); TimesLe((top + 1) * m, BASE, p); }
      BASE * p;
    }
  }

  lemma Exchange(a: int, b: int, c: int)
    ensures a * b * c == a * c * b
  {
    Regroup(a, b, c);
    Regroup(a, c, b);
    Swap(b, c);
  }

  lemma Strict(a: nat, b: nat, c: nat)
    requires a < b && c > 0
    ensures a * c < b * c
  {
    Succ(a, b, c);
  }

  lemma FourZeros(s: seq<Word>, bits: nat, p2: nat, rv: nat) returns (words: nat)
    requires s != [] && bits < 32 && 0x8000_0000 <= s[|s| - 1] * Two(bits) < BASE
    requires rv == (bits as int - 4 - p2) % 32
    ensures 0x800_0000 * Pow(words) <= Val(s) * Two(p2 + rv) < 0x1000_0000 * Pow(words)
  {
    var more := (p2 + rv + 4 - bits) / 32;
    assert p2 + rv + 4 == bits + 32 * more;
    words := |s| - 1 + more;
    var v, p, m := Val(s), Pow(|s| - 1), Two(bits);
    ValTop(s);
    Two32();
    hide *;
    TwoAdd(bits, 32 - bits);
    TopShifted(v, s[|s| - 1], p, m, Two(32 - bits));
    TwoAdd(p2 + rv, 4);
    TwoAdd(bits, 32 * more);
    TwoPow(more);
    PowAdd(|s| - 1, more);
    var t, q := Two(p2 + rv), Pow(more);
    assert 16 * (v * t) == v * m * q by {
      Regroup(v, t, 16);
      Swap(v * t, 16);
      Regroup(v, m, q);
    }
    TimesLe(0x8000_0000 * p, v * m, q);
    Strict(v * m, BASE * p, q);
    Regroup(0x8000_0000, p, q);
    Regroup(BASE, p, q);
  }

  /** So the divisor, shifted by both, is as `FourBits` needs it. */
  lemma FourZerosTop(s: seq<Word>, words: nat)
    requires s != [] && s[|s| - 1] != 0
    requires 0x800_0000 * Pow(words) <= Val(s) < 0x1000_0000 * Pow(words)
    ensures |s| == words + 1 && 0x800_0000 <= s[|s| - 1] < 0x1000_0000
  {
    var k, t: int := |s| - 1, s[|s| - 1];
    ValTop(s);
    ValBound(s);
    TopWord(s);
    if k > words {
      PowUp(words + 1, k);
    } else if k < words {
      PowUp(k + 1, words);
    }
    var p := Pow(words);
    hide Pow, Val;
    assert k == words;
    if t < 0x800_0000 { TimesLe(t + 1, 0x800_0000, p); }
    if t >= 0x1000_0000 { TimesLe(0x1000_0000, t, p); }
  }
}
