/** Big integers: multiply, subtract, shift, compare, and divide by an estimate of one word. */
module DtoaBigint {
  import opened DtoaWords

  class Bigint {
    const x: array<Word>
    const k: nat
    var wds: nat
    var sign: nat

    ghost predicate Valid() reads this, x { x.Length == Two(k) && wds <= x.Length }

    ghost function Words(): seq<Word>
      requires Valid()
      reads this, x
    {
      x[..wds]
    }

    ghost function Value(): nat
      requires Valid()
      reads this, x
    {
      Val(Words())
    }

    /** The number is there, and this is its value. */
    ghost predicate Is(v: nat) reads this, x { Valid() && Value() == v }

    /** No zero word on top, except the one word of a zero. */
    ghost predicate Normal()
      requires Valid()
      reads this, x
    {
      wds <= 1 || x[wds - 1] != 0
    }

    /** Room for `1 << k` words, whatever they hold. */
    constructor Balloc(k: nat)
      ensures Valid() && fresh(x) && this.k == k && wds == 0 && sign == 0
    {
      this.k := k;
      wds, sign := 0, 0;
      x := new Word[Two(k)](_ => 0);
    }
  }

  method Bcopy(to: Bigint, from: Bigint)
    requires to.Valid() && from.Valid() && from.wds <= to.x.Length && to.x != from.x
    modifies to, to.x
    ensures to.Valid() && to.Words() == from.Words() && to.sign == from.sign && to.wds == from.wds
  {
    to.sign := from.sign;
    to.wds := from.wds;
    for i := 0 to from.wds
      invariant to.sign == from.sign && to.wds == from.wds && to.x[..i] == from.x[..i]
    {
      to.x[i] := from.x[i];
      assert to.x[..i + 1] == to.x[..i] + [to.x[i]] && from.x[..i + 1] == from.x[..i] + [from.x[i]];
    }
  }

  /** The word loop of `Multadd`: it runs at least once. */
  method MultaddWords(x: array<Word>, n: nat, m: Word, a: Word) returns (carry: Word)
    requires 0 < n <= x.Length
    modifies x
    ensures Val(x[..n]) + carry * Pow(n) == Val(old(x[..n])) * m + a
    ensures x[n..] == old(x[n..])
  {
    ghost var was := x[..];
    var i := 0;
    carry := a;
    assert Val(x[..0]) + carry * Pow(0) == Val(was[..0]) * m + a;
    while i < n
      invariant i <= n && x[i..] == was[i..]
      invariant Val(x[..i]) + carry * Pow(i) == Val(was[..i]) * m + a
    {
      ProductFits(x[i], m, carry, 0);
      var y := x[i] * m + carry;
      assert x[i] == was[i];
      MulAddWord(Val(x[..i]), Val(was[..i]), was[i], m, a, carry, y, Pow(i));
      Prefixes(x[..], i, y % BASE);
      Prefixes(was, i, was[i]);
      PowStep(i);
      ghost var next := x[..][i := y % BASE];
      carry, x[i] := y / BASE, y % BASE;
      assert x[..] == next && was[i := was[i]] == was;
      i := i + 1;
    }
    assert was[..n] == old(x[..n]) && was[n..] == old(x[n..]);
  }

  /** `b * m + a`, in place, or in a number of twice the room when a word is added to a full
      one. A zero of no words is only multiplied. */
  method Multadd(b: Bigint, m: Word, a: Word) returns (r: Bigint)
    requires b.Valid() && (b.wds == 0 ==> a == 0 && b.x.Length > 0 && b.x[0] == 0)
    modifies b, b.x
    ensures r.Valid() && r.Value() == old(b.Value()) * m + a
    ensures r == b || (fresh(r) && fresh(r.x))
    ensures r.sign == old(b.sign) && (old(b.wds) > 0 ==> r.wds > 0)
    ensures old(b.wds > 0 && b.x[b.wds - 1] != 0) && m > 0 ==> r.wds > 0 && r.x[r.wds - 1] != 0
  {
    hide Val, Pow, Two;
    ghost var was := b.Words();
    var wds := b.wds;
    DoubleTwo(b.k);
    var carry := MultaddWords(b.x, if wds == 0 then 1 else wds, m, a);
    r := b;
    if wds == 0 {
      NoWords(b.x[..1], old(b.x[..1]), carry, m);
      assert b.Words() == [] && was == [];
      return;
    }
    if carry != 0 {
      ghost var low := b.Words();
      if wds >= b.x.Length {
        r := new Bigint.Balloc(b.k + 1);
        Bcopy(r, b);
      }
      ValSnoc(low, carry);
      assert r.x[..wds] == low;
      r.x[wds] := carry;
      r.wds := wds + 1;
      assert r.Words() == low + [carry];
    } else {
      assert carry * Pow(wds) == 0;
      if was[wds - 1] != 0 && m > 0 {
        TopWord(was);
        TopWord(r.Words());
        TimesLe(1, m, Val(was));
      }
    }
  }

  /** What has been done of a row: `i` words, and a carry. */
  ghost predicate RowDone(c: seq<Word>, was: seq<Word>, v: seq<Word>, j: nat, i: nat, y: Word, carry: Word) {
    && j + i <= |c| == |was| && i <= |v| && c[j + i..] == was[j + i..]
    && Val(c[..j + i]) + carry * Pow(j + i) == Val(was[..j + i]) + y * Val(v[..i]) * Pow(j)
  }

  lemma RowStep(c: seq<Word>, was: seq<Word>, v: seq<Word>, j: nat, i: nat, y: Word, carry: Word)
    requires RowDone(c, was, v, j, i, y, carry) && j + i < |c| && i < |v|
    ensures var z := v[i] * y + c[j + i] + carry;
            0 <= z < WIDE && z / BASE < BASE &&
            RowDone(c[j + i := z % BASE], was, v, j, i + 1, y, z / BASE)
  {
    hide Val, Pow;
    var z := v[i] * y + c[j + i] + carry;
    ProductFits(v[i], y, carry, c[j + i]);
    assert c[j + i] == was[j + i] by { assert c[j + i..][0] == was[j + i..][0]; }
    PowAdd(i, j);
    RowWord(Val(c[..j + i]), Val(was[..j + i]), Val(v[..i]), v[i], was[j + i], y, carry, Pow(i), Pow(j));
    Prefixes(c, j + i, z % BASE);
    Prefixes(was, j + i, was[j + i]);
    Prefixes(v, i, v[i]);
    PowStep(j + i);
    assert was[j + i := was[j + i]] == was && v[i := v[i]] == v;
    assert c[j + i + 1..] == c[j + i..][1..] && was[j + i + 1..] == was[j + i..][1..];
  }

  lemma RowStart(c: seq<Word>, v: seq<Word>, j: nat, y: Word)
    requires j <= |c|
    ensures RowDone(c, c, v, j, 0, y, 0)
  {
  }

  /** The last carry goes on top. */
  lemma RowEnd(c: seq<Word>, was: seq<Word>, v: seq<Word>, j: nat, n: nat, y: Word, carry: Word)
    requires RowDone(c, was, v, j, n, y, carry) && j + n < |c|
    ensures var next := c[j + n := carry];
            Val(next[..j + n + 1]) == Val(was[..j + n]) + y * Val(v[..n]) * Pow(j) && next[j + n + 1..] == was[j + n + 1..]
  {
    hide Val, Pow;
    Prefixes(c, j + n, carry);
    assert c[j + n + 1..] == c[j + n..][1..] && was[j + n + 1..] == was[j + n..][1..];
  }

  /** One row of a product: a word times a number, added at a place. */
  method MultRow(c: array<Word>, j: nat, x: array<Word>, n: nat, y: Word)
    requires 0 < n <= x.Length && j + n < c.Length && c != x && c[j + n] == 0
    modifies c
    ensures Val(c[..j + n + 1]) == Val(old(c[..j + n])) + y * Val(x[..n]) * Pow(j)
    ensures c[j + n + 1..] == old(c[j + n + 1..])
  {
    hide Val, Pow, RowDone;
    ghost var was, v := c[..], x[..];
    var i := 0;
    var carry: Word := 0;
    RowStart(was, v, j, y);
    while i < n
      invariant i <= n && RowDone(c[..], was, v, j, i, y, carry)
    {
      RowStep(c[..], was, v, j, i, y, carry);
      var z := x[i] * y + c[j + i] + carry;
      ghost var next := c[..][j + i := z % BASE];
      carry, c[j + i] := z / BASE, z % BASE;
      assert c[..] == next;
      i := i + 1;
    }
    RowEnd(c[..], was, v, j, n, y, carry);
    ghost var next := c[..][j + n := carry];
    c[j + n] := carry;
    assert c[..] == next;
    assert was[..j + n] == old(c[..j + n]) && v[..n] == x[..n] && was[j + n + 1..] == old(c[j + n + 1..]);
    assert c[..j + n + 1] == next[..j + n + 1] && c[j + n + 1..] == next[j + n + 1..];
  }

  /** All the rows, over zeros; a word that is zero has no row. */
  method MultRows(c: array<Word>, x: array<Word>, wa: nat, y: array<Word>, wb: nat)
    requires wb <= wa <= x.Length && wb <= y.Length && wa + wb <= c.Length && c != x && c != y
    requires forall h :: 0 <= h < wa + wb ==> c[h] == 0
    modifies c
    ensures Val(c[..wa + wb]) == Val(x[..wa]) * Val(y[..wb])
  {
    hide Val, Pow;
    ghost var va, ys := Val(x[..wa]), y[..wb];
    AllZero(c[..wa]);
    AllZero(ys[..0]);
    for j := 0 to wb
      invariant Val(c[..wa + j]) == va * Val(ys[..j])
      invariant forall h :: wa + j <= h < wa + wb ==> c[h] == 0
    {
      ghost var before := c[..];
      MultRowValue(va, ys, j);
      if y[j] != 0 {
        MultRow(c, j, x, wa, y[j]);
        assert j + wa == wa + j;
        forall h | wa + j + 1 <= h < wa + wb ensures c[h] == 0 {
          assert c[h] == c[j + wa + 1..][h - (j + wa + 1)] == before[j + wa + 1..][h - (j + wa + 1)];
        }
      } else {
        ValZero(c[..wa + j + 1]);
        assert c[..wa + j + 1][..wa + j] == c[..wa + j];
      }
    }
    assert ys[..wb] == ys;
  }

  /** Drops the zero words on top. */
  method Trimmed(c: array<Word>, n: nat) returns (wc: nat)
    requires n <= c.Length
    ensures wc <= n && Val(c[..wc]) == Val(c[..n]) && (wc > 0 ==> c[wc - 1] != 0)
    ensures Val(c[..n]) > 0 ==> wc > 0
  {
    wc := n;
    assert c[..0] == [];
    while wc > 0 && c[wc - 1] == 0
      invariant wc <= n && Val(c[..wc]) == Val(c[..n])
    {
      ValZero(c[..wc]);
      assert c[..wc][..wc - 1] == c[..wc - 1];
      wc := wc - 1;
    }
  }

  /** The product, in a new number: row by row, without the words that are zero. */
  method Mult(first: Bigint, second: Bigint) returns (c: Bigint)
    requires first.Valid() && second.Valid()
    ensures fresh(c) && fresh(c.x) && c.Valid() && c.Value() == first.Value() * second.Value()
    ensures c.wds > 0 ==> c.x[c.wds - 1] != 0
  {
    hide Val, Pow, Two;
    var a, b := first, second;
    if a.wds < b.wds { a, b := b, a; }
    var k, wa, wb := a.k, a.wds, b.wds;
    var wc := wa + wb;
    if wc > a.x.Length { k := k + 1; }
    DoubleTwo(a.k);
    c := new Bigint.Balloc(k);
    for i := 0 to wc
      invariant forall h :: 0 <= h < i ==> c.x[h] == 0
      modifies c.x
    {
      c.x[i] := 0;
    }
    MultRows(c.x, a.x, wa, b.x, wb);
    wc := Trimmed(c.x, wc);
    c.wds := wc;
  }

  lemma MultRowValue(va: nat, b: seq<Word>, j: nat)
    requires j < |b|
    ensures va * Val(b[..j + 1]) == va * Val(b[..j]) + b[j] * va * Pow(j)
  {
    assert b[..j + 1] == b[..j] + [b[j]];
    ValSnoc(b[..j], b[j]);
    var y := b[j];
    assert va * (Val(b[..j]) + y * Pow(j)) == va * Val(b[..j]) + va * (y * Pow(j));
    assert va * (y * Pow(j)) == y * va * Pow(j);
  }

  lemma {:induction false} AllZero(s: seq<Word>)
    requires forall h :: 0 <= h < |s| ==> s[h] == 0
    ensures Val(s) == 0
  {
    if s != [] {
      AllZero(s[..|s| - 1]);
      ValZero(s);
    }
  }

  lemma {:induction false} SameTop(s: seq<Word>, t: seq<Word>, k: nat)
    requires k <= |s| == |t| && s[k..] == t[k..]
    ensures Val(s) - Val(t) == Val(s[..k]) - Val(t[..k])
    decreases |s|
  {
    var n := |s| - 1;
    if k == |s| {
      assert s[..k] == s && t[..k] == t;
    } else {
      assert s[n] == s[k..][n - k] == t[k..][n - k] == t[n];
      assert s[..n][k..] == s[k..][..n - k] && t[..n][k..] == t[k..][..n - k];
      SameTop(s[..n], t[..n], k);
      assert s[..n][..k] == s[..k] && t[..n][..k] == t[..k];
    }
  }

  /** The highest word that differs decides. */
  lemma HighestDecides(s: seq<Word>, t: seq<Word>, k: nat)
    requires k < |s| == |t| && s[k + 1..] == t[k + 1..] && s[k] < t[k]
    ensures Val(s) < Val(t)
  {
    SameTop(s, t, k + 1);
    ValTop(s[..k + 1]);
    ValTop(t[..k + 1]);
    var a: int, b: int := s[k], t[k];
    TimesLe(a + 1, b, Pow(k));
  }

  lemma LongerIsLarger(s: seq<Word>, t: seq<Word>)
    requires |s| > |t| && s[|s| - 1] != 0
    ensures Val(s) > Val(t)
  {
    ValBound(t);
    TopWord(s);
    PowUp(|t|, |s| - 1);
  }

  lemma {:induction false} PowUp(i: nat, j: nat)
    requires i <= j
    ensures Pow(i) <= Pow(j)
    decreases j
  {
    if i < j { PowUp(i, j - 1); }
  }

  /** The order of two numbers. One without words must not meet another without words, nor
      the longer one have a zero on top. */
  method Cmp(a: Bigint, b: Bigint) returns (r: int)
    requires a.Valid() && b.Valid()
    requires a.wds == b.wds ==> a.wds > 0
    requires a.wds > b.wds ==> a.x[a.wds - 1] != 0
    requires a.wds < b.wds ==> b.x[b.wds - 1] != 0
    ensures r < 0 <==> a.Value() < b.Value()
    ensures r == 0 <==> a.Value() == b.Value()
  {
    hide Val, Pow;
    r := a.wds - b.wds;
    if r != 0 {
      if r > 0 { LongerIsLarger(a.Words(), b.Words()); } else { LongerIsLarger(b.Words(), a.Words()); }
      return;
    }
    var j := b.wds;
    ghost var s, t := a.Words(), b.Words();
    while j > 0
      invariant 0 <= j <= b.wds && s[j..] == t[j..]
    {
      j := j - 1;
      if a.x[j] != b.x[j] {
        assert s[j] == a.x[j] && t[j] == b.x[j];
        if a.x[j] < b.x[j] {
          HighestDecides(s, t, j);
          return -1;
        }
        HighestDecides(t, s, j);
        return 1;
      }
      assert s[j..] == [s[j]] + s[j + 1..] && t[j..] == [t[j]] + t[j + 1..];
    }
    assert s[0..] == s && t[0..] == t;
    r := 0;
  }

  /** What has been done of `b - q * s`: `i` words, a carry and a borrow. */
  ghost predicate Subtracted(c: seq<Word>, b: seq<Word>, s: seq<Word>, i: nat, q: Word, carry: Word, borrow: nat) {
    && i <= |c| && i <= |b| && i <= |s| && borrow <= 1
    && Val(c[..i]) == Val(b[..i]) - q * Val(s[..i]) + (carry + borrow) * Pow(i)
  }

  predicate Untouched(c: seq<Word>, b: seq<Word>, i: nat) { i <= |c| == |b| && c[i..] == b[i..] }

  lemma SubtractStep(c: seq<Word>, b: seq<Word>, s: seq<Word>, i: nat, q: Word, carry: Word, borrow: nat)
    requires Subtracted(c, b, s, i, q, carry, borrow) && i < |c| && i < |b| && i < |s|
    ensures var ys := s[i] * q + carry;
            var y := Narrow(b[i] - ys % BASE - borrow);
            && 0 <= ys < WIDE && ys / BASE < BASE && 0 <= y / BASE % 2 && 0 <= y % BASE < BASE
            && Subtracted(c[i := y % BASE], b, s, i + 1, q, ys / BASE, y / BASE % 2)
            && c[i := y % BASE][i + 1..] == c[i + 1..]
  {
    hide Val, Pow, Narrow;
    var ys := s[i] * q + carry;
    var y := Narrow(b[i] - ys % BASE - borrow);
    ProductFits(s[i], q, carry, 0);
    Borrowed(b[i] - ys % BASE - borrow);
    SubWord(Val(c[..i]), Val(b[..i]), Val(s[..i]), b[i], s[i], q, carry, borrow, ys / BASE, b[i] - ys % BASE - borrow, Pow(i));
    PowStep(i);
    Prefixes(c, i, y % BASE);
    Prefixes(b, i, b[i]);
    Prefixes(s, i, s[i]);
    assert b[i := b[i]] == b && s[i := s[i]] == s;
  }

  lemma SubtractStart(b: seq<Word>, s: seq<Word>, q: Word)
    ensures Subtracted(b, b, s, 0, q, 0, 0) && Untouched(b, b, 0)
  {
  }

  /** The word loop of `Quorem`: `b - q * s`, in place. */
  method SubtractMultiple(b: array<Word>, s: array<Word>, n: nat, q: Word)
    requires n <= b.Length && n <= s.Length && b != s
    requires q * Val(s[..n]) <= Val(b[..n])
    modifies b
    ensures Val(b[..n]) == Val(old(b[..n])) - q * Val(s[..n])
    ensures b[n..] == old(b[n..])
  {
    hide Val, Pow, Narrow, Subtracted;
    ghost var was, t := b[..], s[..];
    var i, borrow := 0, 0;
    var carry: Word := 0;
    SubtractStart(was, t, q);
    while i < n
      invariant 0 <= i <= n && 0 <= borrow && Untouched(b[..], was, i)
      invariant Subtracted(b[..], was, t, i, q, carry, borrow)
    {
      SubtractStep(b[..], was, t, i, q, carry, borrow);
      assert b[..][i] == was[i] && Untouched(b[..][i := Narrow(was[i] - (t[i] * q + carry) % BASE - borrow) % BASE], was, i + 1) by {
        assert b[..][i..][0] == was[i..][0];
        assert b[..][i + 1..] == b[..][i..][1..] && was[i + 1..] == was[i..][1..];
      }
      var ys := s[i] * q + carry;
      carry := ys / BASE;
      var y := Narrow(b[i] - ys % BASE - borrow);
      borrow := y / BASE % 2;
      ghost var next := b[..][i := y % BASE];
      b[i] := y % BASE;
      assert b[..] == next;
      i := i + 1;
    }
    assert was[..n] == old(b[..n]) && t[..n] == s[..n] && b[..][..n] == b[..n] && was[n..] == old(b[n..]);
    NothingLeft(b[..], was, t, n, q, carry, borrow);
  }

  /** What is subtracted is not larger, so nothing is carried out. */
  lemma NothingLeft(c: seq<Word>, b: seq<Word>, s: seq<Word>, n: nat, q: Word, carry: Word, borrow: nat)
    requires Subtracted(c, b, s, n, q, carry, borrow) && q * Val(s[..n]) <= Val(b[..n])
    ensures Val(c[..n]) == Val(b[..n]) - q * Val(s[..n])
  {
    ValBound(c[..n]);
    if carry + borrow > 0 {
      TimesLe(1, carry + borrow, Pow(n));
    }
  }

  /** Drops zero words below a top word that became zero; one word stays when there was
      more than one, none when there was one. */
  method DropTop(x: array<Word>, top: nat) returns (n: nat)
    requires top < x.Length && x[top] == 0
    ensures n <= top && Val(x[..n]) == Val(x[..top + 1]) && (n <= 1 || x[n - 1] != 0)
  {
    hide Val;
    n := top;
    DropWord(x[..top + 1]);
    assert x[..top + 1][..top] == x[..top];
    var e: int := top - 1;
    while e > 0 && x[e] == 0
      invariant n <= top && e == n - 1 && Val(x[..n]) == Val(x[..top + 1])
      decreases e
    {
      DropWord(x[..n]);
      assert x[..n][..n - 1] == x[..n - 1];
      n := n - 1;
      e := e - 1;
    }
  }

  lemma DropWord(s: seq<Word>)
    requires s != [] && s[|s| - 1] == 0
    ensures Val(s) == Val(s[..|s| - 1])
  {
    ValZero(s);
  }

  /** Takes a multiple away from a number of as many words, and drops the zeros on top. */
  method TakeAway(b: Bigint, S: Bigint, q: Word) returns (n: nat)
    requires b.Valid() && S.Valid() && b != S && b.x != S.x && b.wds == S.wds > 0
    requires q * S.Value() <= b.Value()
    modifies b, b.x
    ensures b.Valid() && b.Value() == old(b.Value()) - q * S.Value()
    ensures n <= b.wds <= S.wds && (b.wds == S.wds || b.wds == n) && b.Normal()
    ensures b.wds == S.wds ==> n == S.wds - 1 && b.x[n] != 0
  {
    hide Val;
    n := S.wds - 1;
    SubtractMultiple(b.x, S.x, n + 1, q);
    if b.x[n] == 0 {
      n := DropTop(b.x, n);
      b.wds := n;
    }
  }

  /** The quotient and the remainder. */
  predicate IsQuotient(b: nat, s: nat, q: nat, r: nat) { b == q * s + r && r < s }

  /** There is only one of each: the rounded-down quotient, and what is left. */
  lemma QuotientIs(b: nat, s: nat, q: nat, r: nat)
    requires IsQuotient(b, s, q, r)
    ensures s > 0 && b / s == q && b % s == r
  {
    QuotientUnique(b, s, q, r);
  }

  /** The quotient of two numbers when it is small, and the remainder in place. The first
      estimate divides the top words; it is corrected by one. */
  method Quorem(b: Bigint, S: Bigint) returns (q: nat)
    requires b.Valid() && S.Valid() && b != S && b.x != S.x && b.Normal()
    requires 0 < S.wds && b.wds <= S.wds
    requires 0x1_0000 <= S.x[S.wds - 1] < BASE - 1
    modifies b, b.x
    ensures b.Valid() && b.Normal() && b.wds <= S.wds
    ensures IsQuotient(old(b.Value()), S.Value(), q, b.Value())
  {
    hide Val, Pow;
    ghost var was, divisor := b.Value(), S.Value();
    var n := S.wds;
    if b.wds < n {
      LongerIsLarger(S.Words(), b.Words());
      return 0;
    }
    n := n - 1;
    var bt, st := b.x[n], S.x[n];
    EstimateWords(b.Words(), S.Words(), bt, st);
    var estimate := bt / (st as int + 1);
    q := estimate;
    if q != 0 {
      n := TakeAway(b, S, estimate);
    }
    assert b.Value() == was - estimate * divisor < 2 * divisor by { assert (estimate + 2) * divisor == estimate * divisor + 2 * divisor; }
    var c := Cmp(b, S);
    if c >= 0 {
      if b.wds < S.wds { LongerIsLarger(S.Words(), b.Words()); }
      q := q + 1;
      n := TakeAway(b, S, 1);
      assert (estimate + 1) * divisor == estimate * divisor + divisor;
    }
  }

  lemma EstimateWords(b: seq<Word>, s: seq<Word>, bt: nat, st: nat)
    requires |b| == |s| > 0 && bt == b[|b| - 1] && st == s[|s| - 1] && 0x1_0000 <= st
    ensures var q := bt / (st + 1); 0 <= q < BASE - 1 && q * Val(s) <= Val(b) < (q + 2) * Val(s)
  {
    ValTop(b);
    ValTop(s);
    EstimateSmall(bt, st);
    Estimate(Val(b), Val(s), bt, st, Pow(|s| - 1));
  }

  /** Four leading zero bits in the divisor, and a quotient below 16: then the numbers are
      as `Quorem` needs them, and the quotient is a digit. */
  lemma FourBits(b: seq<Word>, s: seq<Word>)
    requires s != [] && 0x800_0000 <= s[|s| - 1] < 0x1000_0000
    requires |b| <= 1 || b[|b| - 1] != 0
    requires Val(b) < 16 * Val(s)
    ensures |b| <= |s| && 0x1_0000 <= s[|s| - 1] < BASE - 1 && Val(b) / Val(s) < 16
  {
    var k := |s| - 1;
    ValTop(s);
    var t: int := s[k];
    TimesLe(t + 1, 0x1000_0000, Pow(k));
    assert 16 * Val(s) < Pow(k + 1);
    if |b| > |s| {
      TopWord(b);
      PowUp(|s|, |b| - 1);
    }
    TimesLe(1, t, Pow(k));
    assert Val(s) > 0;
    DivBounds(Val(b), Val(s));
    if Val(b) / Val(s) >= 16 { TimesLe(16, Val(b) / Val(s), Val(s)); }
  }

  method I2b(i: Word) returns (b: Bigint)
    ensures fresh(b) && fresh(b.x) && b.Valid() && b.Value() == i && b.wds == 1
  {
    DoubleTwo(0);
    b := new Bigint.Balloc(1);
    b.x[0] := i;
    b.wds := 1;
    assert b.Words() == [i];
    OneWord(i);
  }

  lemma OneWord(w: Word)
    ensures Val([w]) == w
  {
    assert [w][..0] == [];
  }

  /** What has been done of `a - b`, the words of `b` above its top being zero. */
  ghost predicate Differs(c: seq<Word>, a: seq<Word>, b: seq<Word>, i: nat, borrow: nat) {
    && i <= |c| && i <= |a| && borrow <= 1
    && Val(c[..i]) == Val(a[..i]) - Val(if i <= |b| then b[..i] else b) + borrow * Pow(i)
  }

  lemma DiffersStep(c: seq<Word>, a: seq<Word>, b: seq<Word>, i: nat, borrow: nat)
    requires Differs(c, a, b, i, borrow) && i < |c| && i < |a|
    ensures var y := Narrow(a[i] - (if i < |b| then b[i] else 0) - borrow);
            && 0 <= y / BASE % 2 && 0 <= y % BASE < BASE
            && Differs(c[i := y % BASE], a, b, i + 1, y / BASE % 2)
  {
    hide Val, Pow, Narrow;
    var w: Word := if i < |b| then b[i] else 0;
    var d := a[i] - w - borrow;
    Borrowed(d);
    Prefixes(c, i, Narrow(d) % BASE);
    Prefixes(a, i, a[i]);
    assert a[i := a[i]] == a;
    PowStep(i);
    var t := Val(if i <= |b| then b[..i] else b);
    if i < |b| {
      Prefixes(b, i, w);
      assert b[i := w] == b;
    } else {
      if i == |b| { assert b[..i] == b; }
      assert 0 * Pow(i) == 0;
    }
    assert Val(if i + 1 <= |b| then b[..i + 1] else b) == t + w * Pow(i);
    SubWord(Val(c[..i]), Val(a[..i]), t, a[i], w, 1, 0, borrow, 0, d, Pow(i));
  }

  /** The word loops of `Diff`. */
  method DiffWords(c: array<Word>, a: array<Word>, wa: nat, b: array<Word>, wb: nat)
    requires 0 < wb <= wa <= a.Length && wb <= b.Length && wa <= c.Length && c != a && c != b
    requires Val(b[..wb]) <= Val(a[..wa])
    modifies c
    ensures Val(c[..wa]) == Val(a[..wa]) - Val(b[..wb])
  {
    ghost var s, t := a[..wa], b[..wb];
    var i, borrow := 0, 0;
    assert Differs(c[..], s, t, 0, borrow);
    hide *;
    while i < wb
      invariant 0 <= i <= wb && 0 <= borrow && Differs(c[..], s, t, i, borrow)
    {
      assert a[i] == s[i] && b[i] == t[i];
      DiffersStep(c[..], s, t, i, borrow);
      var y := Narrow(a[i] as int - b[i] - borrow);
      ghost var next := c[..][i := y % BASE];
      borrow, c[i] := y / BASE % 2, y % BASE;
      assert c[..] == next;
      i := i + 1;
    }
    while i < wa
      invariant wb <= i <= wa && 0 <= borrow && Differs(c[..], s, t, i, borrow)
    {
      assert a[i] == s[i];
      DiffersStep(c[..], s, t, i, borrow);
      var y := Narrow(a[i] as int - borrow);
      ghost var next := c[..][i := y % BASE];
      borrow, c[i] := y / BASE % 2, y % BASE;
      assert c[..] == next;
      i := i + 1;
    }
    NoBorrow(c[..], s, t, wa, borrow);
    assert c[..][..wa] == c[..wa];
  }

  lemma NoBorrow(c: seq<Word>, a: seq<Word>, b: seq<Word>, n: nat, borrow: nat)
    requires Differs(c, a, b, n, borrow) && |b| <= n == |a| && Val(b) <= Val(a)
    ensures Val(c[..n]) == Val(a) - Val(b)
  {
    ValBound(c[..n]);
    assert a[..n] == a && (n == |b| ==> b[..n] == b);
    if borrow > 0 { TimesLe(1, borrow, Pow(n)); }
  }

  /** The larger number less the smaller. */
  method DiffOrdered(a: Bigint, b: Bigint, sign: nat) returns (c: Bigint)
    requires a.Valid() && b.Valid() && a.wds > 0 && b.wds > 0 && b.wds <= a.wds && a.Value() > b.Value()
    ensures fresh(c) && fresh(c.x) && c.Valid() && c.wds > 0 && c.x[c.wds - 1] != 0
    ensures c.Value() == a.Value() - b.Value() && c.sign == sign
  {
    hide Val, Pow, Two;
    c := new Bigint.Balloc(a.k);
    c.sign := sign;
    var wa := a.wds;
    DiffWords(c.x, a.x, wa, b.x, b.wds);
    wa := Trimmed(c.x, wa);
    c.wds := wa;
  }

  /** The difference without its sign, and the sign. */
  method Diff(a: Bigint, b: Bigint) returns (c: Bigint)
    requires a.Valid() && b.Valid() && a.wds > 0 && b.wds > 0 && a.Normal() && b.Normal()
    ensures fresh(c) && fresh(c.x) && c.Valid() && c.wds > 0 && c.Normal()
    ensures c.Value() == if a.Value() < b.Value() then b.Value() - a.Value() else a.Value() - b.Value()
    ensures c.sign == if a.Value() < b.Value() then 1 else 0
  {
    hide Val, Pow, Two;
    TwoZero();
    var i := Cmp(a, b);
    if i == 0 {
      c := new Bigint.Balloc(0);
      c.wds := 1;
      c.x[0] := 0;
      assert c.Words() == [0];
      OneWord(0);
    } else if i < 0 {
      if b.wds < a.wds { LongerIsLarger(a.Words(), b.Words()); }
      c := DiffOrdered(b, a, 1);
    } else {
      if a.wds < b.wds { LongerIsLarger(b.Words(), a.Words()); }
      c := DiffOrdered(a, b, 0);
    }
  }

  /** What has been done of a shift by less than a word. */
  ghost predicate ShiftedLeft(s: seq<Word>, x: seq<Word>, i: nat, m: nat, z: nat) {
    i <= |x| && i <= |s| && z < m && Val(s[..i]) + z * Pow(i) == Val(x[..i]) * m
  }

  lemma ShiftStep(s: seq<Word>, x: seq<Word>, i: nat, m: nat, r: nat, z: nat)
    requires ShiftedLeft(s, x, i, m, z) && i < |s| && i < |x| && m * r == BASE && r > 0
    ensures var w := x[i] * m % BASE + z;
            && 0 <= w < BASE && 0 <= x[i] / r < m
            && ShiftedLeft(s[i := w], x, i + 1, m, x[i] / r)
  {
    hide Val, Pow;
    ShiftWord(x[i], m, r, z);
    var y := x[i] * m + z;
    MulAddWord(Val(s[..i]), Val(x[..i]), x[i], m, 0, z, y, Pow(i));
    Prefixes(s, i, y % BASE);
    Prefixes(x, i, x[i]);
    assert x[i := x[i]] == x;
    PowStep(i);
    DivBounds(x[i], r);
    if x[i] / r >= m { TimesLe(m, x[i] / r, r); }
  }

  /** The word loop of `Lshift`: words above `n`, each over what came out of the word below. */
  method ShiftWords(to: array<Word>, n: nat, x: array<Word>, wds: nat, k: nat) returns (z: Word)
    requires 0 < k < 32 && wds <= x.Length && n + wds <= to.Length && to != x
    requires forall h :: 0 <= h < n ==> to[h] == 0
    modifies to
    ensures forall h :: 0 <= h < n ==> to[h] == 0
    ensures Val(to[n..n + wds]) + z * Pow(wds) == Val(x[..wds]) * Two(k)
  {
    ghost var v := x[..wds];
    var m, r := Two(k), Two(32 - k);
    Two32();
    TwoAdd(k, 32 - k);
    var i := 0;
    z := 0;
    assert ShiftedLeft(to[n..], v, 0, m, 0);
    assert m <= BASE by { TimesLe(1, r, m); Swap(r, m); }
    while i < wds
      invariant 0 <= i <= wds && ShiftedLeft(to[n..], v, i, m, z)
      invariant forall h :: 0 <= h < n ==> to[h] == 0
    {
      assert v[i] == x[i];
      ShiftStep(to[n..], v, i, m, r, z);
      ghost var next := to[n..][i := x[i] * m % BASE + z];
      to[n + i] := x[i] * m % BASE + z;
      z := x[i] / r;
      assert to[n..] == next;
      i := i + 1;
    }
    assert to[n..][..wds] == to[n..n + wds] && v[..wds] == x[..wds];
  }

  method CopyWords(to: array<Word>, n: nat, x: array<Word>, wds: nat)
    requires wds <= x.Length && n + wds <= to.Length && to != x
    modifies to
    ensures to[n..n + wds] == x[..wds] && to[..n] == old(to[..n])
  {
    for i := 0 to wds
      invariant to[n..n + i] == x[..i] && to[..n] == old(to[..n])
    {
      to[n + i] := x[i];
      assert to[n..n + i + 1] == to[n..n + i] + [to[n + i]] && x[..i + 1] == x[..i] + [x[i]];
    }
  }

  /** Shifts by less than a word, above `n` zero words; `n1` is one more than the words used. */
  method ShiftBits(to: array<Word>, n: nat, x: array<Word>, wds: nat, bits: nat) returns (n1: nat)
    requires bits < 32 && 0 < wds <= x.Length && n + wds < to.Length && to != x
    requires forall h :: 0 <= h < n ==> to[h] == 0
    modifies to
    ensures forall h :: 0 <= h < n ==> to[h] == 0
    ensures n + wds + 1 <= n1 <= n + wds + 2 && n1 - 1 <= to.Length
    ensures Val(to[n..n1 - 1]) == Val(x[..wds]) * Two(bits)
    ensures x[wds - 1] != 0 ==> to[n1 - 2] != 0
  {
    hide Val, Pow, Two;
    n1 := n + wds + 1;
    TwoZero();
    ghost var low, v := to[..n], x[..wds];
    ghost var s;
    if bits != 0 {
      var z := ShiftWords(to, n, x, wds, bits);
      s := to[n..n + wds];
      to[n + wds] := z;
      assert to[n..n + wds + 1] == s + [z] && to[n..n + wds] == s;
      ValSnoc(s, z);
      if z != 0 {
        n1 := n1 + 1;
        return;
      }
      assert z * Pow(wds) == 0;
    } else {
      CopyWords(to, n, x, wds);
      s := to[n..n + wds];
      forall h | 0 <= h < n ensures to[h] == 0 { assert to[h] == to[..n][h] == low[h]; }
    }
    assert s == to[n..n1 - 1];
    if x[wds - 1] != 0 {
      TopWord(v);
      TopWord(s);
      TimesLe(1, Two(bits), Val(v));
      Swap(Two(bits), Val(v));
    }
  }

  /** The number shifted left, in a new one with room for a word more. */
  method Lshift(b: Bigint, k: nat) returns (b1: Bigint)
    requires b.Valid() && b.wds > 0
    ensures fresh(b1) && fresh(b1.x) && b1.Valid() && b1.Value() == b.Value() * Two(k)
    ensures b1.wds > 0 && (b.x[b.wds - 1] != 0 ==> b1.x[b1.wds - 1] != 0)
  {
    hide Val, Pow, Two;
    var n := k / 32;
    var k1 := b.k;
    var n1 := n + b.wds + 1;
    var i := b.x.Length;
    DoubleTwo(k1);
    while n1 > i
      invariant i == Two(k1) > 0
      decreases n1 - i
    {
      DoubleTwo(k1);
      k1 := k1 + 1;
      i := i * 2;
    }
    b1 := new Bigint.Balloc(k1);
    for h := 0 to n
      invariant forall g :: 0 <= g < h ==> b1.x[g] == 0
      modifies b1.x
    {
      b1.x[h] := 0;
    }
    n1 := ShiftBits(b1.x, n, b.x, b.wds, k % 32);
    b1.wds := n1 - 1;
    ShiftedValue(b1.Words(), n, b.Value(), k);
  }

  lemma ShiftedValue(s: seq<Word>, n: nat, value: nat, k: nat)
    requires n <= |s| && n == k / 32 && (forall h :: 0 <= h < n ==> s[h] == 0) && Val(s[n..]) == value * Two(k % 32)
    ensures Val(s) == value * Two(k)
  {
    hide Val, Pow, Two;
    AllZero(s[..n]);
    assert s == s[..n] + s[n..];
    ValShifted(s[..n], s[n..]);
    TwoPow(n);
    TwoAdd(k % 32, 32 * n);
    assert k == k % 32 + 32 * n;
    Regroup(value, Two(k % 32), Pow(n));
  }

  lemma TwoZero()
    ensures Two(0) == 1
  {
  }

  lemma DoubleTwo(k: nat)
    ensures Two(k + 1) == 2 * Two(k) && Two(k) >= 1
  {
  }

  lemma PowStep(i: nat)
    ensures Pow(i + 1) == BASE * Pow(i)
  {
  }

  /** A word more of an array, as it is changed. */
  lemma Prefixes(x: seq<Word>, i: nat, w: Word)
    requires i < |x|
    ensures Val(x[i := w][..i + 1]) == Val(x[..i]) + w * Pow(i)
    ensures x[i := w][i + 1..] == x[i + 1..]
  {
    assert x[i := w][..i + 1] == x[..i] + [w];
    ValSnoc(x[..i], w);
  }

  lemma NoWords(x: seq<Word>, was: seq<Word>, carry: Word, m: Word)
    requires |x| == |was| == 1 && was[0] == 0 && Val(x) + carry * Pow(1) == Val(was) * m
    ensures Val([]) == 0
  {
  }
}
