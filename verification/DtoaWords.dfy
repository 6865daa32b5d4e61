/** Integers as little-endian sequences of 32-bit words, and the word loops over them. */
module DtoaWords {

  const BASE: int := 0x1_0000_0000
  const WIDE: int := 0x1_0000_0000_0000_0000

  type Word = w: int | 0 <= w < 0x1_0000_0000 witness 0

  function Pow(n: nat): (p: nat)
    ensures p > 0
  {
    if n == 0 then 1 else BASE * Pow(n - 1)
  }

  function Val(s: seq<Word>): (v: nat) {
    if s == [] then 0 else Val(s[..|s| - 1]) + s[|s| - 1] * Pow(|s| - 1)
  }

  lemma ValSnoc(s: seq<Word>, w: Word)
    ensures Val(s + [w]) == Val(s) + w * Pow(|s|)
  {
    assert (s + [w])[..|s|] == s;
  }

  lemma TimesLe(a: nat, b: nat, c: nat)
    requires a <= b
    ensures a * c <= b * c
  {
  }

  lemma {:induction false} ValBound(s: seq<Word>)
    ensures Val(s) < Pow(|s|)
  {
    if s != [] {
      var k := |s| - 1;
      ValBound(s[..k]);
      var t: int := s[k];
      TimesLe(t + 1, BASE, Pow(k));
      assert (s[k] + 1) * Pow(k) == s[k] * Pow(k) + Pow(k);
    }
  }

  /** The top word bounds the value from both sides. */
  lemma ValTop(s: seq<Word>)
    requires s != []
    ensures var k := |s| - 1; s[k] * Pow(k) <= Val(s) < (s[k] + 1) * Pow(k)
  {
    var k := |s| - 1;
    ValBound(s[..k]);
    assert (s[k] + 1) * Pow(k) == s[k] * Pow(k) + Pow(k);
  }

  /** Zero words on top do not count. */
  lemma ValZero(s: seq<Word>)
    requires s != [] && s[|s| - 1] == 0
    ensures Val(s) == Val(s[..|s| - 1])
  {
    assert 0 * Pow(|s| - 1) == 0;
  }

  /* ---------- multiply and add: one word ---------- */

  lemma MulAddWord(v: nat, u: nat, x: nat, m: nat, a: nat, carry: nat, y: nat, p: nat)
    requires v + carry * p == u * m + a && y == x * m + carry
    ensures (v + y % BASE * p) + y / BASE * (BASE * p) == (u + x * p) * m + a
  {
    var d, c := y % BASE, y / BASE;
    assert y == d + BASE * c;
    assert d * p + c * (BASE * p) == (d + BASE * c) * p by { Spread(d, BASE, c, p); }
    assert (x * m + carry) * p == x * p * m + carry * p by { Spread2(x, m, carry, p); }
    assert (u + x * p) * m == u * m + x * p * m;
  }

  lemma Spread(d: int, b: int, c: int, p: int)
    ensures d * p + c * (b * p) == (d + b * c) * p
  {
    assert c * (b * p) == (b * c) * p;
  }

  lemma Spread2(x: int, m: int, carry: int, p: int)
    ensures (x * m + carry) * p == x * p * m + carry * p
  {
    assert (x * m) * p == x * p * m;
  }

  lemma ProductFits(x: Word, m: Word, carry: Word, more: Word)
    ensures 0 <= x * m + carry + more < WIDE
    ensures (x * m + carry + more) / BASE < BASE
  {
    assert x * m <= (BASE - 1) * (BASE - 1) by {
      TimesLe(x, BASE - 1, m);
      TimesLe(m, BASE - 1, BASE - 1);
    }
  }

  /* ---------- subtract with borrow: one word ---------- */

  /** The 64-bit difference: its bit 32 is the borrow, its low word the digit. */
  function Narrow(y: int): int { y % WIDE }

  lemma Borrowed(y: int)
    requires -BASE <= y < BASE
    ensures Narrow(y) / BASE % 2 == if y < 0 then 1 else 0
    ensures Narrow(y) % BASE == if y < 0 then y + BASE else y
  {
    if y < 0 {
      assert Narrow(y) == y + WIDE;
    } else {
      assert Narrow(y) == y;
    }
  }

  /** One word of `b - q * s`, with the carry of the product and the borrow so far. */
  lemma SubWord(v: int, u: int, t: int, b: int, s: int, q: int, carry: int, borrow: int, c: int, d: int, p: int)
    requires v == u - q * t + (carry + borrow) * p
    requires d == b - (s * q + carry - BASE * c) - borrow
    ensures v + d * p == (u + b * p) - q * (t + s * p) + c * (BASE * p)
    ensures v + (d + BASE) * p == (u + b * p) - q * (t + s * p) + (c + 1) * (BASE * p)
  {
    assert d * p == b * p - (s * q) * p - carry * p + (BASE * c) * p - borrow * p;
    assert (carry + borrow) * p == carry * p + borrow * p;
    assert q * (t + s * p) == q * t + q * (s * p);
    assert q * (s * p) == (s * q) * p;
    assert (BASE * c) * p == c * (BASE * p);
    assert (d + BASE) * p == d * p + BASE * p;
    assert (c + 1) * (BASE * p) == c * (BASE * p) + BASE * p;
  }

  /** A number of `n` words has a top word exactly when it does not fit in `n - 1`. */
  lemma TopWord(s: seq<Word>)
    requires s != []
    ensures s[|s| - 1] != 0 <==> Val(s) >= Pow(|s| - 1)
  {
    var k := |s| - 1;
    ValTop(s);
    if s[k] == 0 {
      assert (0 + 1) * Pow(k) == Pow(k);
    } else {
      TimesLe(1, s[k], Pow(k));
    }
  }

  lemma {:induction false} PowAdd(i: nat, j: nat)
    ensures Pow(i + j) == Pow(i) * Pow(j)
  {
    if i > 0 {
      PowAdd(i - 1, j);
      assert Pow(i + j) == BASE * Pow(i - 1 + j);
      assert BASE * (Pow(i - 1) * Pow(j)) == BASE * Pow(i - 1) * Pow(j);
    }
  }

  /** One word of a row of the product. */
  lemma RowWord(v: int, u: int, t: int, x: int, c: int, y: int, carry: int, p: int, q: int)
    requires v + carry * (p * q) == u + y * t * q
    ensures var z := x * y + c + carry;
            (v + z % BASE * (p * q)) + z / BASE * (BASE * (p * q)) == (u + c * (p * q)) + y * (t + x * p) * q
  {
    var z, r := x * y + c + carry, p * q;
    Spread(z % BASE, BASE, z / BASE, r);
    assert z == z % BASE + BASE * (z / BASE);
    assert z * r == x * y * r + c * r + carry * r by { Spread3(x * y, c, carry, r); }
    assert y * (t + x * p) * q == y * t * q + x * y * r by { Spread4(y, t, x, p, q); }
  }

  lemma Spread3(a: int, b: int, c: int, r: int)
    ensures (a + b + c) * r == a * r + b * r + c * r
  {
  }

  lemma Spread4(y: int, t: int, x: int, p: int, q: int)
    ensures y * (t + x * p) * q == y * t * q + x * y * (p * q)
  {
    assert y * (t + x * p) == y * t + y * (x * p);
    assert (y * t + y * (x * p)) * q == y * t * q + y * (x * p) * q;
    assert y * (x * p) * q == x * y * (p * q) by {
      assert y * (x * p) == x * y * p;
      assert (x * y * p) * q == x * y * (p * q);
    }
  }

  /* ---------- powers of two, and shifts ---------- */

  function Two(k: nat): (p: nat)
    ensures p > 0
  {
    if k == 0 then 1 else 2 * Two(k - 1)
  }

  lemma {:induction false} TwoAdd(i: nat, j: nat)
    ensures Two(i + j) == Two(i) * Two(j)
  {
    if i > 0 {
      TwoAdd(i - 1, j);
      assert Two(i + j) == 2 * Two(i - 1 + j);
      assert 2 * (Two(i - 1) * Two(j)) == 2 * Two(i - 1) * Two(j);
    }
  }

  lemma Two32()
    ensures Two(4) == 16 && Two(27) == 0x800_0000 && Two(28) == 0x1000_0000 && Two(31) == 0x8000_0000 && Two(32) == BASE
  {
    assert Two(4) == 16;
    TwoAdd(4, 4);
    TwoAdd(8, 8);
    TwoAdd(16, 8);
    assert Two(24) == 0x100_0000;
    assert Two(3) == 8;
    TwoAdd(24, 3);
    TwoAdd(24, 4);
    TwoAdd(28, 3);
    TwoAdd(28, 4);
  }

  lemma {:induction false} TwoPow(n: nat)
    ensures Two(32 * n) == Pow(n)
  {
    if n > 0 {
      TwoPow(n - 1);
      Two32();
      TwoAdd(32, 32 * (n - 1));
    }
  }

  /** A word shifted left by some bits, over what came out of the word below: the bits do
      not meet, so `|` is `+`. */
  lemma ShiftWord(x: nat, m: nat, r: nat, z: nat)
    requires m * r == BASE && z < m && m > 0 && r > 0
    ensures x * m % BASE + z == (x * m + z) % BASE && x / r == (x * m + z) / BASE
  {
    var h, l := x / r, x % r;
    assert x == r * h + l;
    assert x * m == BASE * h + l * m by {
      assert (r * h + l) * m == (r * h) * m + l * m;
      assert (r * h) * m == (m * r) * h;
    }
    TimesLe(l + 1, r, m);
    assert (l + 1) * m == l * m + m;
    assert l * m >= 0;
    DivMod(x * m, h, l * m);
    DivMod(x * m + z, h, l * m + z);
  }

  lemma DivMod(v: int, h: int, l: int)
    requires v == BASE * h + l && 0 <= l < BASE
    ensures v / BASE == h && v % BASE == l
  {
  }

  lemma {:induction false} ValShifted(low: seq<Word>, s: seq<Word>)
    requires Val(low) == 0
    ensures Val(low + s) == Val(s) * Pow(|low|)
  {
    if s == [] {
      assert low + s == low;
    } else {
      hide Pow, Val;
      var n, t := |s| - 1, s[|s| - 1];
      ValShifted(low, s[..n]);
      assert low + s == (low + s[..n]) + [t] && s == s[..n] + [t];
      ValSnoc(low + s[..n], t);
      ValSnoc(s[..n], t);
      PowAdd(n, |low|);
      Distribute(Val(s[..n]), t, Pow(n), Pow(|low|));
    }
  }

  lemma Distribute(a: int, t: int, p: int, q: int)
    ensures (a + t * p) * q == a * q + t * (p * q)
  {
    Regroup(t, p, q);
  }

  /* ---------- the quotient estimate ---------- */

  /** The top words alone give the quotient, or one less: dividing by one more than the top
      word never gives too much, and when the estimate is below the top word it gives at
      most one too little. */
  lemma Estimate(b: nat, s: nat, bt: nat, st: nat, p: nat)
    requires bt * p <= b < (bt + 1) * p && st * p <= s < (st + 1) * p
    requires bt / (st + 1) < st
    ensures var q := bt / (st + 1); q * s <= b < (q + 2) * s
  {
    var q := bt / (st + 1);
    EstimateLow(b, s, bt, st, p, q) by { DivBounds(bt, st + 1); }
    EstimateHigh(b, s, bt, st, p, q) by { DivBounds(bt, st + 1); }
  }

  lemma DivBounds(x: nat, d: nat)
    requires d > 0
    ensures x / d * d <= x < (x / d + 1) * d
  {
    assert x == x / d * d + x % d;
    assert (x / d + 1) * d == x / d * d + d;
  }

  lemma EstimateLow(b: nat, s: nat, bt: nat, st: nat, p: nat, q: nat)
    requires bt * p <= b && s < (st + 1) * p && q * (st + 1) <= bt
    ensures q * s <= b
  {
    calc {
      q * s;
    <= { TimesLe(s, (st + 1) * p, q); Swap(s, q); Swap((st + 1) * p, q); }
      q * ((st + 1) * p);
    == { Regroup(q, st + 1, p); }
      q * (st + 1) * p;
    <= { TimesLe(q * (st + 1), bt, p); }
      bt * p;
    }
  }

  lemma EstimateHigh(b: nat, s: nat, bt: nat, st: nat, p: nat, q: nat)
    requires b < (bt + 1) * p && st * p <= s && bt < (q + 1) * (st + 1) && q < st
    ensures b < (q + 2) * s
  {
    assert (q + 1) * (st + 1) == q * st + q + st + 1;
    assert (q + 2) * st == q * st + 2 * st;
    calc {
      (bt + 1) * p;
    <= { TimesLe(bt + 1, (q + 2) * st, p); }
      (q + 2) * st * p;
    == { Regroup(q + 2, st, p); }
      (q + 2) * (st * p);
    <= { TimesLe(st * p, s, q + 2); Swap(s, q + 2); Swap(st * p, q + 2); }
      (q + 2) * s;
    }
  }

  lemma Swap(a: int, b: int)
    ensures a * b == b * a
  {
  }

  lemma Regroup(a: int, b: int, c: int)
    ensures a * (b * c) == a * b * c
  {
  }

  lemma Succ(a: nat, b: nat, s: nat)
    requires a < b
    ensures b * s >= a * s + s
  {
    TimesLe(a + 1, b, s);
    assert (a + 1) * s == a * s + s;
  }

  /** A top word of 17 bits or more is always large enough for that. */
  lemma EstimateSmall(bt: Word, st: nat)
    requires 0x1_0000 <= st
    ensures bt / (st + 1) < st && 0 <= bt / (st + 1) < BASE - 1
  {
    TimesLe(0x1_0000, st, st + 1);
    DivBounds(bt, st + 1);
    var q := bt / (st + 1);
    TimesLe(2, st + 1, q);
    Swap(st + 1, q);
    if q >= st { TimesLe(st, q, st + 1); }
  }

  lemma QuotientUnique(b: nat, s: nat, q: nat, r: nat)
    requires b == q * s + r && r < s
    ensures b / s == q && b % s == r
  {
    DivBounds(b, s);
    if q < b / s { Succ(q, b / s, s); } else if b / s < q { Succ(b / s, q, s); }
    assert b == b / s * s + b % s;
  }
}
