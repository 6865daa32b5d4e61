/** The block cipher of lua-crypt. Its tables and its key schedule are arbitrary here:
    decoding undoes encoding whatever they are. */
module CryptDes {

  type Word = bv32
  type Byte = bv8
  type Bytes = seq<Byte>
  type Pair = (Word, Word)

  /** The eight substitution tables: entry `x` of table `n`. */
  type Boxes = (nat, Word) -> Word

  /* ---------- permutations ---------- */

  function Xor(a: Word, b: Word): Word { a ^ b }

  function Up(t: Word, k: Word): Word
    requires k <= 32
  {
    t << k
  }

  /** The bits of `mask` in which `y` differs from those `k` places higher in `x`. */
  function Differing(x: Word, y: Word, k: Word, mask: Word): Word
    requires k <= 32
  {
    ((x >> k) ^ y) & mask
  }

  /** Exchanges the bits of `mask` in `y` with those `k` places higher in `x`. */
  function SwapBits(x: Word, y: Word, k: Word, mask: Word): Pair
    requires k <= 32
  {
    var t := Differing(x, y, k, mask);
    (Xor(x, Up(t, k)), Xor(y, t))
  }

  function RotateLeft(x: Word): Word { (x << 1) | (x >> 31) }

  function RotateRight(x: Word): Word { (x << 31) | (x >> 1) }

  lemma Rotated(x: Word)
    ensures RotateRight(RotateLeft(x)) == x && RotateLeft(RotateRight(x)) == x
  {
  }

  lemma XorTwice(l: Word, t: Word)
    ensures Xor(Xor(l, t), t) == l
  {
  }

  /** After the exchange, the same bits differ. */
  lemma SwapTwice(x: Word, y: Word, k: Word, mask: Word)
    requires k <= 32
    requires var t := Differing(x, y, k, mask); Differing(Xor(x, Up(t, k)), Xor(y, t), k, mask) == t
    ensures var (x', y') := SwapBits(x, y, k, mask); SwapBits(x', y', k, mask) == (x, y)
  {
    hide Xor, Up, Differing;
    var t := Differing(x, y, k, mask);
    XorTwice(x, Up(t, k));
    XorTwice(y, t);
  }

  lemma Same4(x: Word, y: Word)
    ensures var t := Differing(x, y, 4, 0x0F0F0F0F); Differing(Xor(x, Up(t, 4)), Xor(y, t), 4, 0x0F0F0F0F) == t
  {
  }

  lemma Same16(x: Word, y: Word)
    ensures var t := Differing(x, y, 16, 0x0000FFFF); Differing(Xor(x, Up(t, 16)), Xor(y, t), 16, 0x0000FFFF) == t
  {
  }

  lemma Same2(x: Word, y: Word)
    ensures var t := Differing(x, y, 2, 0x33333333); Differing(Xor(x, Up(t, 2)), Xor(y, t), 2, 0x33333333) == t
  {
  }

  lemma Same8(x: Word, y: Word)
    ensures var t := Differing(x, y, 8, 0x00FF00FF); Differing(Xor(x, Up(t, 8)), Xor(y, t), 8, 0x00FF00FF) == t
  {
  }

  lemma Same0(x: Word, y: Word)
    ensures var t := Differing(x, y, 0, 0xAAAAAAAA); Differing(Xor(x, Up(t, 0)), Xor(y, t), 0, 0xAAAAAAAA) == t
  {
  }

  lemma Swap4(x: Word, y: Word)
    ensures var (x', y') := SwapBits(x, y, 4, 0x0F0F0F0F); SwapBits(x', y', 4, 0x0F0F0F0F) == (x, y)
  {
    hide Xor, Up, Differing, SwapBits;
    Same4(x, y);
    SwapTwice(x, y, 4, 0x0F0F0F0F);
  }

  lemma Swap16(x: Word, y: Word)
    ensures var (x', y') := SwapBits(x, y, 16, 0x0000FFFF); SwapBits(x', y', 16, 0x0000FFFF) == (x, y)
  {
    hide Xor, Up, Differing, SwapBits;
    Same16(x, y);
    SwapTwice(x, y, 16, 0x0000FFFF);
  }

  lemma Swap2(x: Word, y: Word)
    ensures var (x', y') := SwapBits(x, y, 2, 0x33333333); SwapBits(x', y', 2, 0x33333333) == (x, y)
  {
    hide Xor, Up, Differing, SwapBits;
    Same2(x, y);
    SwapTwice(x, y, 2, 0x33333333);
  }

  lemma Swap8(x: Word, y: Word)
    ensures var (x', y') := SwapBits(x, y, 8, 0x00FF00FF); SwapBits(x', y', 8, 0x00FF00FF) == (x, y)
  {
    hide Xor, Up, Differing, SwapBits;
    Same8(x, y);
    SwapTwice(x, y, 8, 0x00FF00FF);
  }

  lemma Swap0(x: Word, y: Word)
    ensures var (x', y') := SwapBits(x, y, 0, 0xAAAAAAAA); SwapBits(x', y', 0, 0xAAAAAAAA) == (x, y)
  {
    hide Xor, Up, Differing, SwapBits;
    Same0(x, y);
    SwapTwice(x, y, 0, 0xAAAAAAAA);
  }

  /** `DES_IP` */
  function Initial(x: Word, y: Word): Pair {
    var (x, y) := SwapBits(x, y, 4, 0x0F0F0F0F);
    var (x, y) := SwapBits(x, y, 16, 0x0000FFFF);
    var (y, x) := SwapBits(y, x, 2, 0x33333333);
    var (y, x) := SwapBits(y, x, 8, 0x00FF00FF);
    var y := RotateLeft(y);
    var (x, y) := SwapBits(x, y, 0, 0xAAAAAAAA);
    (RotateLeft(x), y)
  }

  /** `DES_FP` */
  function Final(x: Word, y: Word): Pair {
    var x := RotateRight(x);
    var (x, y) := SwapBits(x, y, 0, 0xAAAAAAAA);
    var y := RotateRight(y);
    var (y, x) := SwapBits(y, x, 8, 0x00FF00FF);
    var (y, x) := SwapBits(y, x, 2, 0x33333333);
    var (x, y) := SwapBits(x, y, 16, 0x0000FFFF);
    SwapBits(x, y, 4, 0x0F0F0F0F)
  }

  /** The final permutation undoes the initial one. */
  lemma FinalInitial(x: Word, y: Word)
    ensures var (x', y') := Initial(x, y); Final(x', y') == (x, y)
  {
    hide SwapBits, RotateLeft, RotateRight;
    var (x1, y1) := SwapBits(x, y, 4, 0x0F0F0F0F);
    var (x2, y2) := SwapBits(x1, y1, 16, 0x0000FFFF);
    var (y3, x3) := SwapBits(y2, x2, 2, 0x33333333);
    var (y4, x4) := SwapBits(y3, x3, 8, 0x00FF00FF);
    var (x5, y5) := SwapBits(x4, RotateLeft(y4), 0, 0xAAAAAAAA);
    Rotated(x5);
    Swap0(x4, RotateLeft(y4));
    Rotated(y4);
    Swap8(y3, x3);
    Swap2(y2, x2);
    Swap16(x1, y1);
    Swap4(x, y);
  }

  /** And the other way round. */
  lemma InitialFinal(x: Word, y: Word)
    ensures var (x', y') := Final(x, y); Initial(x', y') == (x, y)
  {
    hide SwapBits, RotateLeft, RotateRight;
    var (x1, y1) := SwapBits(RotateRight(x), y, 0, 0xAAAAAAAA);
    var (y2, x2) := SwapBits(RotateRight(y1), x1, 8, 0x00FF00FF);
    var (y3, x3) := SwapBits(y2, x2, 2, 0x33333333);
    var (x4, y4) := SwapBits(x3, y3, 16, 0x0000FFFF);
    Swap4(x4, y4);
    Swap16(x3, y3);
    Swap2(y2, x2);
    Swap8(RotateRight(y1), x1);
    Rotated(y1);
    Swap0(RotateRight(x), y);
    Rotated(x);
  }

  /* ---------- rounds ---------- */

  function Xor8(a: Word, b: Word, c: Word, d: Word, e: Word, f: Word, g: Word, h: Word): Word {
    a ^ b ^ c ^ d ^ e ^ f ^ g ^ h
  }

  /** Six bits of a word. */
  function Piece(w: Word, at: Word): Word
    requires at <= 32
  {
    (w >> at) & 0x3F
  }

  function Turned(x: Word): Word { (x << 28) | (x >> 4) }

  /** What `DES_ROUND` adds to one half, from the other half and two subkeys. */
  function RoundOf(box: Boxes, x: Word, k0: Word, k1: Word): Word {
    var t, u := Xor(k0, x), Xor(k1, Turned(x));
    Xor8(box(8, Piece(t, 0)), box(6, Piece(t, 8)), box(4, Piece(t, 16)), box(2, Piece(t, 24)),
         box(7, Piece(u, 0)), box(5, Piece(u, 8)), box(3, Piece(u, 16)), box(1, Piece(u, 24)))
  }

  /** Rounds with pairs of subkeys; the halves change places in each of them. */
  function Rounds(box: Boxes, keys: seq<Pair>, l: Word, r: Word): Pair
    decreases |keys|
  {
    if keys == [] then (l, r)
    else Rounds(box, keys[1..], r, Xor(l, RoundOf(box, r, keys[0].0, keys[0].1)))
  }

  lemma {:induction false} RoundsConcat(box: Boxes, a: seq<Pair>, b: seq<Pair>, l: Word, r: Word)
    ensures var (l', r') := Rounds(box, a, l, r); Rounds(box, a + b, l, r) == Rounds(box, b, l', r')
    decreases |a|
  {
    hide RoundOf;
    if a == [] {
      assert a + b == b;
    } else {
      assert (a + b)[1..] == a[1..] + b;
      RoundsConcat(box, a[1..], b, r, Xor(l, RoundOf(box, r, a[0].0, a[0].1)));
    }
  }

  function Reversed(keys: seq<Pair>): (r: seq<Pair>)
    ensures |r| == |keys|
  {
    if keys == [] then [] else Reversed(keys[1..]) + [keys[0]]
  }

  lemma {:induction false} ReversedAt(keys: seq<Pair>, i: nat)
    requires i < |keys|
    ensures Reversed(keys)[i] == keys[|keys| - 1 - i]
  {
    if i < |keys| - 1 { ReversedAt(keys[1..], i); }
  }

  lemma {:induction false} ReversedTwice(keys: seq<Pair>)
    ensures Reversed(Reversed(keys)) == keys
  {
    forall i | 0 <= i < |keys| ensures Reversed(Reversed(keys))[i] == keys[i] {
      ReversedAt(Reversed(keys), i);
      ReversedAt(keys, |keys| - 1 - i);
    }
  }

  /** The rounds, with the halves exchanged and the subkeys reversed, undo themselves. */
  lemma {:induction false} RoundsUndone(box: Boxes, keys: seq<Pair>, l: Word, r: Word)
    ensures var (l', r') := Rounds(box, keys, l, r); Rounds(box, Reversed(keys), r', l') == (r, l)
    decreases |keys|
  {
    if keys != [] {
      hide RoundOf, Rounds, Reversed, Xor;
      var t := RoundOf(box, r, keys[0].0, keys[0].1);
      var m := Xor(l, t);
      XorTwice(l, t);
      FirstRound(box, keys, l, r);
      RoundsUndone(box, keys[1..], r, m);
      var p := Rounds(box, keys[1..], r, m);
      RoundsConcat(box, Reversed(keys[1..]), [keys[0]], p.1, p.0);
      OneRound(box, keys[0], m, r);
    }
  }

  lemma FirstRound(box: Boxes, keys: seq<Pair>, l: Word, r: Word)
    requires keys != []
    ensures Rounds(box, keys, l, r) == Rounds(box, keys[1..], r, Xor(l, RoundOf(box, r, keys[0].0, keys[0].1)))
    ensures Reversed(keys) == Reversed(keys[1..]) + [keys[0]]
  {
    hide RoundOf;
  }

  lemma OneRound(box: Boxes, k: Pair, l: Word, r: Word)
    ensures Rounds(box, [k], l, r) == (r, Xor(l, RoundOf(box, r, k.0, k.1)))
  {
    hide RoundOf;
    assert [k][1..] == [];
  }

  /* ---------- blocks ---------- */

  /** `GET_UINT32` */
  function GetWord(b0: Byte, b1: Byte, b2: Byte, b3: Byte): Word {
    ((b0 as Word) << 24) | ((b1 as Word) << 16) | ((b2 as Word) << 8) | (b3 as Word)
  }

  function LowByte(n: Word): Byte { (n & 0xFF) as Byte }

  /** `PUT_UINT32` */
  function PutWord(n: Word): (s: Bytes)
    ensures |s| == 4
  {
    [LowByte(n >> 24), LowByte(n >> 16), LowByte(n >> 8), LowByte(n)]
  }

  /** The first byte is the highest. */
  lemma WordBytes(b0: Byte, b1: Byte, b2: Byte, b3: Byte)
    ensures var w := GetWord(b0, b1, b2, b3);
            && w >> 24 == b0 as Word && (w >> 16) & 0xFF == b1 as Word
            && (w >> 8) & 0xFF == b2 as Word && w & 0xFF == b3 as Word
  {
  }

  lemma GetPut(n: Word)
    ensures var s := PutWord(n); GetWord(s[0], s[1], s[2], s[3]) == n
  {
  }

  lemma PutGet(b0: Byte, b1: Byte, b2: Byte, b3: Byte)
    ensures PutWord(GetWord(b0, b1, b2, b3)) == [b0, b1, b2, b3]
  {
  }

  /** The pairs of the 32 subkeys. */
  function Pairs(sk: seq<Word>): (r: seq<Pair>)
    requires |sk| == 32
    ensures |r| == 16
  {
    seq(16, i requires 0 <= i < 16 => (sk[2 * i], sk[2 * i + 1]))
  }

  /** `des_crypt`, as a value. */
  function CryptOf(box: Boxes, keys: seq<Pair>, s: Bytes): (r: Bytes)
    requires |s| == 8
    ensures |r| == 8
  {
    var (x, y) := Initial(GetWord(s[0], s[1], s[2], s[3]), GetWord(s[4], s[5], s[6], s[7]));
    var (x, y) := Rounds(box, keys, x, y);
    var (y, x) := Final(y, x);
    PutWord(y) + PutWord(x)
  }

  /** Two rounds, as the source writes them. */
  method TwoRounds(box: Boxes, sk: seq<Word>, i: nat, x0: Word, y0: Word) returns (x: Word, y: Word)
    requires |sk| == 32 && 4 * i + 4 <= 32
    ensures (x, y) == Rounds(box, Pairs(sk)[2 * i..2 * i + 2], x0, y0)
  {
    hide RoundOf, Rounds, Xor;
    var keys := Pairs(sk)[2 * i..2 * i + 2];
    FirstRound(box, keys, x0, y0);
    assert keys[1..] == [keys[1]];
    OneRound(box, keys[1], y0, Xor(x0, RoundOf(box, y0, keys[0].0, keys[0].1)));
    x, y := x0, y0;
    x := Xor(x, RoundOf(box, y, sk[4 * i], sk[4 * i + 1]));
    y := Xor(y, RoundOf(box, x, sk[4 * i + 2], sk[4 * i + 3]));
  }

  method DesCrypt(box: Boxes, sk: seq<Word>, input: Bytes, output: array<Byte>, at: nat)
    requires |sk| == 32 && |input| == 8 && at + 8 <= output.Length
    modifies output
    ensures output[at..at + 8] == CryptOf(box, Pairs(sk), input)
    ensures output[..at] == old(output[..at]) && output[at + 8..] == old(output[at + 8..])
  {
    hide Initial, Final, GetWord, PutWord, Rounds;
    var x, y := GetWord(input[0], input[1], input[2], input[3]), GetWord(input[4], input[5], input[6], input[7]);
    var p := Initial(x, y);
    x, y := p.0, p.1;
    ghost var x0, y0 := x, y;
    NoRounds(box, x, y);
    for i := 0 to 8
      invariant (x, y) == Rounds(box, Pairs(sk)[..2 * i], x0, y0)
      modifies {}
    {
      RoundsConcat(box, Pairs(sk)[..2 * i], Pairs(sk)[2 * i..2 * i + 2], x0, y0);
      assert Pairs(sk)[..2 * (i + 1)] == Pairs(sk)[..2 * i] + Pairs(sk)[2 * i..2 * i + 2];
      x, y := TwoRounds(box, sk, i, x, y);
    }
    assert Pairs(sk)[..16] == Pairs(sk);
    p := Final(y, x);
    var block := PutWord(p.0) + PutWord(p.1);
    assert |block| == 8;
    PutBytes(output, at, block);
  }

  method PutBytes(output: array<Byte>, at: nat, s: Bytes)
    requires at + |s| <= output.Length
    modifies output
    ensures output[at..at + |s|] == s
    ensures output[..at] == old(output[..at]) && output[at + |s|..] == old(output[at + |s|..])
  {
    for i := 0 to |s|
      invariant forall k :: 0 <= k < i ==> output[at + k] == s[k]
      invariant forall k :: 0 <= k < at || at + |s| <= k < output.Length ==> output[k] == old(output[k])
    {
      output[at + i] := s[i];
    }
  }

  lemma NoRounds(box: Boxes, x: Word, y: Word)
    ensures Rounds(box, [], x, y) == (x, y)
  {
  }

  /** A block that was encrypted is decrypted by the same function with the subkeys in
      reverse order. */
  lemma CryptUndone(box: Boxes, keys: seq<Pair>, s: Bytes)
    requires |s| == 8
    ensures CryptOf(box, Reversed(keys), CryptOf(box, keys, s)) == s
  {
    hide Initial, Final, GetWord, PutWord, Rounds;
    var x0, y0 := GetWord(s[0], s[1], s[2], s[3]), GetWord(s[4], s[5], s[6], s[7]);
    var (x1, y1) := Initial(x0, y0);
    var (x2, y2) := Rounds(box, keys, x1, y1);
    var (y3, x3) := Final(y2, x2);
    InitialFinal(y2, x2);
    RoundsUndone(box, keys, x1, y1);
    FinalInitial(x0, y0);
    GetPut(y3);
    GetPut(x3);
    PutGet(s[0], s[1], s[2], s[3]);
    PutGet(s[4], s[5], s[6], s[7]);
    assert s == [s[0], s[1], s[2], s[3]] + [s[4], s[5], s[6], s[7]];
    var c := PutWord(y3) + PutWord(x3);
    assert c[4..] == PutWord(x3);
  }

  /* ---------- the standard ---------- */

  /** Bit `k` of each byte of a block, from the last byte to the first, as one byte; the
      standard calls it the column 8 - `k`. */
  function Column(x: Word, y: Word, k: Word): Word
    requires k < 8
  {
    Flag(y, k, 7) | Flag(y, k + 8, 6) | Flag(y, k + 16, 5) | Flag(y, k + 24, 4) |
    Flag(x, k, 3) | Flag(x, k + 8, 2) | Flag(x, k + 16, 1) | Flag(x, k + 24, 0)
  }

  function Flag(w: Word, k: Word, j: Word): Word
    requires k < 32 && j < 8
  {
    ((w >> k) & 1) << j
  }

  function Rows(b0: Word, b1: Word, b2: Word, b3: Word): Word { (b0 << 24) | (b1 << 16) | (b2 << 8) | b3 }

  /** The table of the initial permutation in FIPS 46: its rows are the columns 2, 4, 6, 8
      for the left half, and 1, 3, 5, 7 for the right half. */
  function Left(x: Word, y: Word): Word { Rows(Column(x, y, 6), Column(x, y, 4), Column(x, y, 2), Column(x, y, 0)) }

  function Right(x: Word, y: Word): Word { Rows(Column(x, y, 7), Column(x, y, 5), Column(x, y, 3), Column(x, y, 1)) }

  /** An exchange, as the bits that each word ends up with. */
  function High(x: Word, y: Word, k: Word, mask: Word): Word
    requires k <= 32
  {
    (x & !(mask << k)) | ((y & mask) << k)
  }

  function Low(x: Word, y: Word, k: Word, mask: Word): Word
    requires k <= 32
  {
    (y & !mask) | ((x >> k) & mask)
  }

  lemma Moved4(x: Word, y: Word)
    ensures var t := Differing(x, y, 4, 0x0F0F0F0F);
            Xor(x, Up(t, 4)) == High(x, y, 4, 0x0F0F0F0F) && Xor(y, t) == Low(x, y, 4, 0x0F0F0F0F)
  {
  }

  lemma Moved16(x: Word, y: Word)
    ensures var t := Differing(x, y, 16, 0x0000FFFF);
            Xor(x, Up(t, 16)) == High(x, y, 16, 0x0000FFFF) && Xor(y, t) == Low(x, y, 16, 0x0000FFFF)
  {
  }

  lemma Moved2(x: Word, y: Word)
    ensures var t := Differing(x, y, 2, 0x33333333);
            Xor(x, Up(t, 2)) == High(x, y, 2, 0x33333333) && Xor(y, t) == Low(x, y, 2, 0x33333333)
  {
  }

  lemma Moved8(x: Word, y: Word)
    ensures var t := Differing(x, y, 8, 0x00FF00FF);
            Xor(x, Up(t, 8)) == High(x, y, 8, 0x00FF00FF) && Xor(y, t) == Low(x, y, 8, 0x00FF00FF)
  {
  }

  lemma Moved0(x: Word, y: Word)
    ensures var t := Differing(x, y, 0, 0xAAAAAAAA);
            Xor(x, Up(t, 0)) == High(x, y, 0, 0xAAAAAAAA) && Xor(y, t) == Low(x, y, 0, 0xAAAAAAAA)
  {
  }

  lemma WiresLeft(x: Word, y: Word, x5: Word, y5: Word)
    requires
      var x1, y1 := High(x, y, 4, 0x0F0F0F0F), Low(x, y, 4, 0x0F0F0F0F);
      var x2, y2 := High(x1, y1, 16, 0x0000FFFF), Low(x1, y1, 16, 0x0000FFFF);
      var x3, y3 := Low(y2, x2, 2, 0x33333333), High(y2, x2, 2, 0x33333333);
      var x4, y4 := Low(y3, x3, 8, 0x00FF00FF), RotateLeft(High(y3, x3, 8, 0x00FF00FF));
      x5 == High(x4, y4, 0, 0xAAAAAAAA) && y5 == Low(x4, y4, 0, 0xAAAAAAAA)
    ensures x5 == Left(x, y)
  {
  }

  lemma WiresRight(x: Word, y: Word, x5: Word, y5: Word)
    requires
      var x1, y1 := High(x, y, 4, 0x0F0F0F0F), Low(x, y, 4, 0x0F0F0F0F);
      var x2, y2 := High(x1, y1, 16, 0x0000FFFF), Low(x1, y1, 16, 0x0000FFFF);
      var x3, y3 := Low(y2, x2, 2, 0x33333333), High(y2, x2, 2, 0x33333333);
      var x4, y4 := Low(y3, x3, 8, 0x00FF00FF), RotateLeft(High(y3, x3, 8, 0x00FF00FF));
      x5 == High(x4, y4, 0, 0xAAAAAAAA) && y5 == Low(x4, y4, 0, 0xAAAAAAAA)
    ensures RotateRight(y5) == Right(x, y)
  {
  }

  /** `Initial` is the initial permutation of FIPS 46, with both halves rotated by one. */
  lemma InitialStandard(x: Word, y: Word)
    ensures Initial(x, y) == (RotateLeft(Left(x, y)), RotateLeft(Right(x, y)))
  {
    hide RotateLeft, RotateRight, Xor, Up, Differing, High, Low, Left, Right;
    var x1, y1 := High(x, y, 4, 0x0F0F0F0F), Low(x, y, 4, 0x0F0F0F0F);
    var x2, y2 := High(x1, y1, 16, 0x0000FFFF), Low(x1, y1, 16, 0x0000FFFF);
    var x3, y3 := Low(y2, x2, 2, 0x33333333), High(y2, x2, 2, 0x33333333);
    var x4, y4 := Low(y3, x3, 8, 0x00FF00FF), RotateLeft(High(y3, x3, 8, 0x00FF00FF));
    var x5, y5 := High(x4, y4, 0, 0xAAAAAAAA), Low(x4, y4, 0, 0xAAAAAAAA);
    Moved4(x, y);
    Moved16(x1, y1);
    Moved2(y2, x2);
    Moved8(y3, x3);
    Moved0(x4, y4);
    WiresLeft(x, y, x5, y5);
    WiresRight(x, y, x5, y5);
    Rotated(y5);
  }

  /** Six bits in a row of a half, from bit `k + 1` on, around its end. */
  function Six(h: Word, k: Word): Word
    requires k <= 32
  {
    ((h << k) | (h >> (32 - k))) >> 26
  }

  /** The function of a round in FIPS 46: each box gets six bits of the half, from the bit in
      front of its four to the bit behind them, and six bits of the subkey: the boxes with
      odd numbers from the second word, those with even numbers from the first. */
  function Mixed(box: Boxes, h: Word, k0: Word, k1: Word): Word {
    RotateRight(Xor8(
      box(1, Xor(Six(h, 31), Piece(k1, 24))), box(2, Xor(Six(h, 3), Piece(k0, 24))),
      box(3, Xor(Six(h, 7), Piece(k1, 16))), box(4, Xor(Six(h, 11), Piece(k0, 16))),
      box(5, Xor(Six(h, 15), Piece(k1, 8))), box(6, Xor(Six(h, 19), Piece(k0, 8))),
      box(7, Xor(Six(h, 23), Piece(k1, 0))), box(8, Xor(Six(h, 27), Piece(k0, 0)))))
  }

  lemma PieceXor24(k: Word, x: Word)
    ensures Piece(Xor(k, x), 24) == Xor(Piece(x, 24), Piece(k, 24))
  {
  }

  lemma PieceXor16(k: Word, x: Word)
    ensures Piece(Xor(k, x), 16) == Xor(Piece(x, 16), Piece(k, 16))
  {
  }

  lemma PieceXor8(k: Word, x: Word)
    ensures Piece(Xor(k, x), 8) == Xor(Piece(x, 8), Piece(k, 8))
  {
  }

  lemma PieceXor0(k: Word, x: Word)
    ensures Piece(Xor(k, x), 0) == Xor(Piece(x, 0), Piece(k, 0))
  {
  }

  lemma EvenSix(h: Word)
    ensures Piece(RotateLeft(h), 24) == Six(h, 3) && Piece(RotateLeft(h), 16) == Six(h, 11)
    ensures Piece(RotateLeft(h), 8) == Six(h, 19) && Piece(RotateLeft(h), 0) == Six(h, 27)
  {
  }

  lemma OddSix(h: Word)
    ensures Piece(Turned(RotateLeft(h)), 24) == Six(h, 31) && Piece(Turned(RotateLeft(h)), 16) == Six(h, 7)
    ensures Piece(Turned(RotateLeft(h)), 8) == Six(h, 15) && Piece(Turned(RotateLeft(h)), 0) == Six(h, 23)
  {
  }

  lemma XorOrder(a: Word, b: Word, c: Word, d: Word, e: Word, f: Word, g: Word, h: Word)
    ensures Xor8(h, f, d, b, g, e, c, a) == Xor8(a, b, c, d, e, f, g, h)
  {
  }

  /** A round adds what the standard adds; both are kept rotated by one. */
  lemma RoundStandard(box: Boxes, h: Word, k0: Word, k1: Word)
    ensures RoundOf(box, RotateLeft(h), k0, k1) == RotateLeft(Mixed(box, h, k0, k1))
  {
    hide RotateLeft, RotateRight, Six, Piece, Xor, Xor8, Turned;
    PieceXor24(k0, RotateLeft(h));
    PieceXor16(k0, RotateLeft(h));
    PieceXor8(k0, RotateLeft(h));
    PieceXor0(k0, RotateLeft(h));
    EvenSix(h);
    PieceXor24(k1, Turned(RotateLeft(h)));
    PieceXor16(k1, Turned(RotateLeft(h)));
    PieceXor8(k1, Turned(RotateLeft(h)));
    PieceXor0(k1, Turned(RotateLeft(h)));
    OddSix(h);
    var t, u := Xor(k0, RotateLeft(h)), Xor(k1, Turned(RotateLeft(h)));
    XorOrder(box(1, Piece(u, 24)), box(2, Piece(t, 24)), box(3, Piece(u, 16)), box(4, Piece(t, 16)),
             box(5, Piece(u, 8)), box(6, Piece(t, 8)), box(7, Piece(u, 0)), box(8, Piece(t, 0)));
    Rotated(RoundOf(box, RotateLeft(h), k0, k1));
  }

  lemma RotatedXor(a: Word, b: Word)
    ensures Xor(RotateLeft(a), RotateLeft(b)) == RotateLeft(Xor(a, b))
  {
  }

  /** The halves after `n` rounds of the standard. */
  function Feistel(box: Boxes, sk: seq<Word>, p: Pair, n: nat): Pair
    requires |sk| == 32 && n <= 16
  {
    if n == 0 then p
    else
      var (l, r) := Feistel(box, sk, p, n - 1);
      (r, Xor(l, Mixed(box, r, sk[2 * n - 2], sk[2 * n - 1])))
  }

  function Turn(p: Pair): Pair { (RotateLeft(p.0), RotateLeft(p.1)) }

  lemma {:induction false} RoundsStandard(box: Boxes, sk: seq<Word>, p: Pair, n: nat)
    requires |sk| == 32 && n <= 16
    ensures Rounds(box, Pairs(sk)[..n], Turn(p).0, Turn(p).1) == Turn(Feistel(box, sk, p, n))
  {
    hide RoundOf, Mixed, RotateLeft, Xor, Rounds;
    var keys := Pairs(sk);
    if n == 0 {
      NoRounds(box, Turn(p).0, Turn(p).1);
    } else {
      var (l, r) := Feistel(box, sk, p, n - 1);
      RoundsStandard(box, sk, p, n - 1);
      assert keys[..n] == keys[..n - 1] + [keys[n - 1]];
      RoundsConcat(box, keys[..n - 1], [keys[n - 1]], Turn(p).0, Turn(p).1);
      OneRound(box, keys[n - 1], RotateLeft(l), RotateLeft(r));
      RoundStandard(box, r, keys[n - 1].0, keys[n - 1].1);
      RotatedXor(l, Mixed(box, r, keys[n - 1].0, keys[n - 1].1));
    }
  }

  function Words(s: Bytes): Pair
    requires |s| == 8
  {
    (GetWord(s[0], s[1], s[2], s[3]), GetWord(s[4], s[5], s[6], s[7]))
  }

  /** A block after the initial permutation of the standard. */
  function Halves(s: Bytes): Pair
    requires |s| == 8
  {
    var (x, y) := Words(s);
    (Left(x, y), Right(x, y))
  }

  /** No two blocks have the same halves. */
  lemma HalvesOnly(s: Bytes, t: Bytes)
    requires |s| == 8 == |t| && Halves(s) == Halves(t)
    ensures s == t
  {
    hide Left, Right, Initial, Final, RotateLeft, GetWord, PutWord;
    InitialStandard(Words(s).0, Words(s).1);
    InitialStandard(Words(t).0, Words(t).1);
    FinalInitial(Words(s).0, Words(s).1);
    FinalInitial(Words(t).0, Words(t).1);
    PutGet(s[0], s[1], s[2], s[3]);
    PutGet(s[4], s[5], s[6], s[7]);
    PutGet(t[0], t[1], t[2], t[3]);
    PutGet(t[4], t[5], t[6], t[7]);
    assert s == [s[0], s[1], s[2], s[3]] + [s[4], s[5], s[6], s[7]];
    assert t == [t[0], t[1], t[2], t[3]] + [t[4], t[5], t[6], t[7]];
  }

  /** A block is what FIPS 46 says: the halves of the result, under the same permutation, are
      those after 16 rounds, exchanged. */
  lemma BlockStandard(box: Boxes, sk: seq<Word>, s: Bytes)
    requires |sk| == 32 && |s| == 8
    ensures Halves(CryptOf(box, Pairs(sk), s)) == Exchanged(Feistel(box, sk, Halves(s), 16))
  {
    hide Left, Right, Initial, Final, RotateLeft, GetWord, PutWord, Rounds, Feistel;
    var (l, r) := Feistel(box, sk, Halves(s), 16);
    InitialStandard(Words(s).0, Words(s).1);
    RoundsStandard(box, sk, Halves(s), 16);
    assert Pairs(sk)[..16] == Pairs(sk);
    var (y, x) := Final(RotateLeft(r), RotateLeft(l));
    InitialFinal(RotateLeft(r), RotateLeft(l));
    InitialStandard(y, x);
    GetPut(y);
    GetPut(x);
    var c := CryptOf(box, Pairs(sk), s);
    assert c == PutWord(y) + PutWord(x);
    assert c[4] == PutWord(x)[0] && c[5] == PutWord(x)[1] && c[6] == PutWord(x)[2] && c[7] == PutWord(x)[3];
    Unrotated(Left(y, x), r);
    Unrotated(Right(y, x), l);
  }

  function Exchanged(p: Pair): Pair { (p.1, p.0) }

  lemma Unrotated(a: Word, b: Word)
    requires RotateLeft(a) == RotateLeft(b)
    ensures a == b
  {
    Rotated(a);
    Rotated(b);
  }

  /* ---------- texts ---------- */

  function Blocks(box: Boxes, keys: seq<Pair>, s: Bytes): (r: Bytes)
    requires |s| % 8 == 0
    ensures |r| == |s|
  {
    if s == [] then [] else CryptOf(box, keys, s[..8]) + Blocks(box, keys, s[8..])
  }

  lemma {:induction false} BlocksUndone(box: Boxes, keys: seq<Pair>, s: Bytes)
    requires |s| % 8 == 0
    ensures Blocks(box, Reversed(keys), Blocks(box, keys, s)) == s
    decreases |s|
  {
    if s != [] {
      hide CryptOf, Reversed;
      var c := Blocks(box, keys, s);
      BlocksUndone(box, keys, s[8..]);
      CryptUndone(box, keys, s[..8]);
      assert c[..8] == CryptOf(box, keys, s[..8]) && c[8..] == Blocks(box, keys, s[8..]);
    }
  }

  lemma {:induction false} BlocksSnoc(box: Boxes, keys: seq<Pair>, s: Bytes, b: Bytes)
    requires |s| % 8 == 0 && |b| == 8
    ensures Blocks(box, keys, s + b) == Blocks(box, keys, s) + CryptOf(box, keys, b)
    decreases |s|
  {
    hide CryptOf;
    if s == [] {
      assert s + b == b && b[..8] == b && b[8..] == [];
      assert Blocks(box, keys, b[8..]) == [];
    } else {
      BlocksSnoc(box, keys, s[8..], b);
      assert (s + b)[..8] == s[..8] && (s + b)[8..] == s[8..] + b;
    }
  }

  lemma SliceOfRest(s: Bytes, j: nat)
    requires 0 < j && 8 * j + 8 <= |s|
    ensures BlockAt(s[8..], j - 1) == BlockAt(s, j)
  {
  }

  lemma FirstBlock(box: Boxes, keys: seq<Pair>, s: Bytes)
    requires |s| % 8 == 0 && s != []
    ensures Blocks(box, keys, s)[8..] == Blocks(box, keys, s[8..])
    ensures BlockAt(Blocks(box, keys, s), 0) == CryptOf(box, keys, BlockAt(s, 0))
  {
    hide CryptOf;
    assert Blocks(box, keys, s) == CryptOf(box, keys, s[..8]) + Blocks(box, keys, s[8..]);
  }

  /** Each block is encrypted on its own. */
  lemma {:induction false} BlocksAt(box: Boxes, keys: seq<Pair>, s: Bytes, j: nat)
    requires |s| % 8 == 0 && 8 * j < |s|
    ensures BlockAt(Blocks(box, keys, s), j) == CryptOf(box, keys, BlockAt(s, j))
    decreases j
  {
    hide CryptOf, Blocks, BlockAt;
    FirstBlock(box, keys, s);
    if j > 0 {
      BlocksAt(box, keys, s[8..], j - 1);
      SliceOfRest(s, j);
      SliceOfRest(Blocks(box, keys, s), j);
    }
  }

  function BlockAt(s: Bytes, j: nat): (b: Bytes)
    requires 8 * j + 8 <= |s|
    ensures |b| == 8
  {
    s[8 * j..8 * j + 8]
  }

  function Zeros(n: nat): (s: Bytes)
    ensures |s| == n && forall i :: 0 <= i < n ==> s[i] == 0
  {
    seq(n, _ => 0)
  }

  /** A text with the end mark, and zeros up to the end of the block. */
  function Padded(text: Bytes): (s: Bytes)
    ensures |s| % 8 == 0 && |text| < |s| <= |text| + 8
    ensures text < s && s[|text|] == 0x80 && forall i :: |text| < i < |s| ==> s[i] == 0
  {
    text + [0x80] + Zeros(7 - |text| % 8)
  }

  /** `Outside`: the program reads in front of its buffer, and nothing more can be said. */
  datatype Result = Ok(bytes: Bytes) | Error(message: string) | Outside

  /** An `int`, converted to a size. */
  function SizeOf(i: int): int { if i < 0 then i + 0x1_0000_0000_0000_0000 else i }

  /** The search for the end mark, with `padding - 1` zeros behind it so far. The index is
      compared as a size, so the bound 0 is no bound. */
  function Unpadded(s: Bytes, padding: nat): Result
    requires |s| >= 8 && 1 <= padding <= 9
    decreases 9 - padding
  {
    var i := |s| - padding;
    if SizeOf(i) < |s| - 8 then Error("Invalid des crypt text")
    else if i < 0 then Outside
    else if s[i] == 0x80 then Ok(s[..i])
    else if s[i] != 0 then Error("Invalid des crypt text")
    else Unpadded(s, padding + 1)
  }

  predicate AllZero(s: Bytes) { forall i :: 0 <= i < |s| ==> s[i] == 0 }

  /** The search leaves the buffer exactly for a single block of zeros. */
  lemma {:induction false} OutsideIff(s: Bytes, padding: nat)
    requires |s| >= 8 && 1 <= padding <= 9 && forall i :: |s| - padding < i < |s| && i >= 0 ==> s[i] == 0
    ensures Unpadded(s, padding) == Outside <==> |s| == 8 && AllZero(s)
    decreases 9 - padding
  {
    var i := |s| - padding;
    if i >= 0 && i >= |s| - 8 && s[i] == 0 { OutsideIff(s, padding + 1); }
  }

  lemma {:induction false} PaddingFound(text: Bytes, padding: nat)
    requires 1 <= padding <= |Padded(text)| - |text|
    ensures Unpadded(Padded(text), padding) == Ok(text)
    decreases |Padded(text)| - padding
  {
    var s := Padded(text);
    if padding == |s| - |text| {
      assert s[|text|] == 0x80 && s[..|text|] == text;
    } else {
      assert s[|s| - padding] == 0;
      PaddingFound(text, padding + 1);
    }
  }

  /** The subkeys of a key are arbitrary. */
  type Schedule = f: Bytes -> seq<Word> | forall key :: |f(key)| == 32 witness Blank

  const Blank: Bytes -> seq<Word> := (_: Bytes) => seq(32, _ => 0)

  function EncodeOf(box: Boxes, schedule: Schedule, key: Bytes, text: Bytes): (r: Result)
    ensures r.Error? <==> |key| != 8
    ensures r.Ok? ==> |r.bytes| == |text| / 8 * 8 + 8
  {
    if |key| != 8 then Error("Invalid key size") else Ok(Blocks(box, Pairs(schedule(key)), Padded(text)))
  }

  function DecodeOf(box: Boxes, schedule: Schedule, key: Bytes, text: Bytes): Result {
    if |key| != 8 then Error("Invalid key size")
    else if |text| % 8 != 0 || |text| == 0 then Error("Invalid des crypt text length")
    else Unpadded(Blocks(box, Reversed(Pairs(schedule(key))), text), 1)
  }

  /** Decoding undoes encoding, for every key of 8 bytes and every text. */
  lemma RoundTrip(box: Boxes, schedule: Schedule, key: Bytes, text: Bytes)
    requires |key| == 8
    ensures EncodeOf(box, schedule, key, text).Ok?
    ensures DecodeOf(box, schedule, key, EncodeOf(box, schedule, key, text).bytes) == Ok(text)
  {
    hide Reversed, Unpadded, Blocks;
    BlocksUndone(box, Pairs(schedule(key)), Padded(text));
    PaddingFound(text, 1);
  }

  /** Every block of a code is what FIPS 46 makes of the block of the text, with these boxes
      and these subkeys. */
  predicate Standard(box: Boxes, sk: seq<Word>, s: Bytes, code: Bytes)
    requires |sk| == 32
  {
    |code| == |s| && forall j :: 0 <= j < |s| / 8 ==>
      Halves(BlockAt(code, j)) == Exchanged(Feistel(box, sk, Halves(BlockAt(s, j)), 16))
  }

  lemma BlocksStandard(box: Boxes, sk: seq<Word>, s: Bytes)
    requires |s| % 8 == 0 && |sk| == 32
    ensures Standard(box, sk, s, Blocks(box, Pairs(sk), s))
  {
    hide CryptOf, Blocks, Halves, Feistel, Pairs;
    forall j | 0 <= j < |s| / 8
      ensures Halves(BlockAt(Blocks(box, Pairs(sk), s), j)) == Exchanged(Feistel(box, sk, Halves(BlockAt(s, j)), 16))
    {
      BlocksAt(box, Pairs(sk), s, j);
      BlockStandard(box, sk, BlockAt(s, j));
    }
  }

  lemma EncodeStandard(box: Boxes, schedule: Schedule, key: Bytes, text: Bytes)
    requires |key| == 8
    ensures var r := EncodeOf(box, schedule, key, text); r.Ok? && Standard(box, schedule(key), Padded(text), r.bytes)
  {
    hide Blocks, Padded, Standard;
    BlocksStandard(box, schedule(key), Padded(text));
  }

  /** Decoding reads outside of its buffer exactly for a text of one block that decrypts to
      zeros; the encoding of a text never does. */
  lemma DecodeOutside(box: Boxes, schedule: Schedule, key: Bytes, code: Bytes)
    ensures DecodeOf(box, schedule, key, code) == Outside <==>
            Decodable(key, code) && |code| == 8 && AllZero(Blocks(box, Reversed(Pairs(schedule(key))), code))
  {
    hide Reversed, Unpadded, Blocks, AllZero, Pairs, DecodeOf;
    if Decodable(key, code) {
      DecodeIs(box, schedule, key, code);
      OutsideIff(Blocks(box, Reversed(Pairs(schedule(key))), code), 1);
    } else {
      DecodeRefused(box, schedule, key, code);
    }
  }

  predicate Decodable(key: Bytes, code: Bytes) { |key| == 8 && |code| % 8 == 0 && |code| >= 8 }

  lemma DecodeIs(box: Boxes, schedule: Schedule, key: Bytes, code: Bytes)
    requires Decodable(key, code)
    ensures DecodeOf(box, schedule, key, code) == Unpadded(Blocks(box, Reversed(Pairs(schedule(key))), code), 1)
  {
    hide Reversed, Unpadded, Blocks, Pairs;
  }

  lemma DecodeRefused(box: Boxes, schedule: Schedule, key: Bytes, code: Bytes)
    requires !Decodable(key, code)
    ensures DecodeOf(box, schedule, key, code).Error?
  {
    hide Reversed, Unpadded, Blocks, Pairs;
  }

  /** Such a text exists for every key: the zeros, encrypted as a block. */
  lemma OutsideText(box: Boxes, schedule: Schedule, key: Bytes) returns (code: Bytes)
    requires |key| == 8
    ensures |code| == 8 && DecodeOf(box, schedule, key, code) == Outside
  {
    hide Reversed, Unpadded, Blocks, Pairs;
    code := Blocks(box, Pairs(schedule(key)), Zeros(8));
    BlocksUndone(box, Pairs(schedule(key)), Zeros(8));
    DecodeOutside(box, schedule, key, code);
  }

  lemma {:induction false} UnpaddedOnly(s: Bytes, padding: nat)
    requires |s| >= 8 && |s| % 8 == 0 && 1 <= padding <= 9 && Unpadded(s, padding).Ok?
    requires forall i :: |s| - padding < i < |s| ==> s[i] == 0
    ensures Padded(Unpadded(s, padding).bytes) == s
    decreases 9 - padding
  {
    if s[|s| - padding] == 0x80 {
      var text := s[..|s| - padding];
      assert Padded(text) == text + [0x80] + Zeros(padding - 1);
      assert s == text + [0x80] + Zeros(padding - 1);
    } else {
      UnpaddedOnly(s, padding + 1);
    }
  }

  /** Only what encoding gives is decoded to a text: there is one encoding of each text. */
  lemma DecodedOnly(box: Boxes, schedule: Schedule, key: Bytes, code: Bytes)
    requires DecodeOf(box, schedule, key, code).Ok?
    ensures EncodeOf(box, schedule, key, DecodeOf(box, schedule, key, code).bytes) == Ok(code)
  {
    hide Reversed, Unpadded, Blocks, Padded;
    var keys := Pairs(schedule(key));
    BlocksUndone(box, Reversed(keys), code);
    ReversedTwice(keys);
    UnpaddedOnly(Blocks(box, Reversed(keys), code), 1);
  }

  /** `ldesencode` */
  method DesEncode(box: Boxes, schedule: Schedule, key: Bytes, text: Bytes) returns (r: Result)
    ensures r == EncodeOf(box, schedule, key, text)
  {
    hide CryptOf, Blocks;
    if |key| != 8 { return Error("Invalid key size"); }
    var sk := schedule(key);
    ghost var keys := Pairs(sk);
    var chunksz := (|text| + 8) / 8 * 8;
    var buffer := new Byte[chunksz](_ => 0);
    var i := |text| / 8 * 8;
    CryptBlocks(box, sk, text, i, buffer);
    var bytes := |text| - i;
    var tail := new Byte[8](_ => 0);
    for j := 0 to 8
      invariant forall k :: 0 <= k < j ==> tail[k] == TailByte(text[i..], k)
      modifies tail
    {
      tail[j] := if j < bytes then text[i + j] else if j == bytes then 0x80 else 0;
    }
    LastBlock(text, i, tail[..]);
    BlocksSnoc(box, keys, text[..i], tail[..]);
    DesCrypt(box, sk, tail[..], buffer, i);
    assert buffer[..] == buffer[..i] + buffer[i..i + 8];
    r := Ok(buffer[..]);
  }

  function TailByte(rest: Bytes, k: nat): Byte
    requires k < 8 && |rest| < 8
  {
    if k < |rest| then rest[k] else if k == |rest| then 0x80 else 0
  }

  lemma LastBlock(text: Bytes, i: nat, tail: Bytes)
    requires i % 8 == 0 && i <= |text| < i + 8 && |tail| == 8
    requires forall k :: 0 <= k < 8 ==> tail[k] == TailByte(text[i..], k)
    ensures text[..i] + tail == Padded(text) && |Padded(text)| == i + 8 == (|text| + 8) / 8 * 8
  {
  }

  lemma NoBlocks(box: Boxes, keys: seq<Pair>)
    ensures Blocks(box, keys, []) == []
  {
  }

  /** `ldesdecode` */
  method DesDecode(box: Boxes, schedule: Schedule, key: Bytes, text: Bytes) returns (r: Result)
    ensures r == DecodeOf(box, schedule, key, text)
  {
    hide CryptOf, Blocks, Reversed, Unpadded, Pairs;
    if |key| != 8 { return Error("Invalid key size"); }
    var esk := schedule(key);
    var sk := ReverseKeys(esk);
    if |text| % 8 != 0 || |text| == 0 { return Error("Invalid des crypt text length"); }
    var buffer := new Byte[|text|](_ => 0);
    CryptBlocks(box, sk, text, |text|, buffer);
    assert text[..|text|] == text && buffer[..|text|] == buffer[..];
    r := Unpad(buffer[..]);
  }

  /** The loop over the complete blocks among the first `n` bytes of a text. */
  method CryptBlocks(box: Boxes, sk: seq<Word>, text: Bytes, n: nat, buffer: array<Byte>)
    requires |sk| == 32 && n % 8 == 0 && n <= |text| && n <= buffer.Length
    modifies buffer
    ensures buffer[..n] == Blocks(box, Pairs(sk), text[..n])
  {
    hide CryptOf, Blocks;
    ghost var keys := Pairs(sk);
    var i := 0;
    NoBlocks(box, keys);
    assert buffer[..0] == [] && text[..0] == [];
    while i < n
      invariant 0 <= i <= n && i % 8 == 0 && buffer[..i] == Blocks(box, keys, text[..i])
    {
      BlocksSnoc(box, keys, text[..i], text[i..i + 8]);
      assert text[..i + 8] == text[..i] + text[i..i + 8];
      DesCrypt(box, sk, text[i..i + 8], buffer, i);
      assert buffer[..i + 8] == buffer[..i] + buffer[i..i + 8];
      i := i + 8;
    }
  }

  /** The search for the end mark, backwards through the last block. */
  method Unpad(s: Bytes) returns (r: Result)
    requires |s| >= 8
    ensures r == Unpadded(s, 1)
  {
    var padding := 1;
    var i := |s| - 1;
    while SizeOf(i) >= |s| - 8
      invariant 1 <= padding <= 9 && i == |s| - padding
      invariant Unpadded(s, 1) == Unpadded(s, padding)
      decreases i
    {
      if i < 0 { return Outside; }
      if s[i] == 0 {
        padding := padding + 1;
      } else if s[i] == 0x80 {
        break;
      } else {
        return Error("Invalid des crypt text");
      }
      i := i - 1;
    }
    if padding > 8 { return Error("Invalid des crypt text"); }
    r := Ok(s[..|s| - padding]);
  }

  method ReverseKeys(esk: seq<Word>) returns (sk: seq<Word>)
    requires |esk| == 32
    ensures |sk| == 32 && Pairs(sk) == Reversed(Pairs(esk))
  {
    hide Reversed;
    var a := new Word[32](_ => 0);
    for i := 0 to 16
      invariant forall k :: 0 <= k < i ==> a[2 * k] == esk[30 - 2 * k] && a[2 * k + 1] == esk[31 - 2 * k]
    {
      a[2 * i] := esk[30 - 2 * i];
      a[2 * i + 1] := esk[31 - 2 * i];
    }
    sk := a[..];
    forall k | 0 <= k < 16 ensures Pairs(sk)[k] == Reversed(Pairs(esk))[k] { ReversedAt(Pairs(esk), k); }
  }
}
