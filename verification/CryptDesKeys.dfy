/** The key schedule of the block cipher: what it computes in 32-bit words, and that this is
    the key schedule of FIPS 46. */
module CryptDesKeys {
  import opened CryptDes

  /* ---------- the first choice of bits ---------- */

  /** The tables `LHs` and `RHs`: four bits, each to the end of a byte. */
  function LeftTable(v: Word): Word {
    match v & 0xF
    case 0 => 0x00000000 case 1 => 0x00000001 case 2 => 0x00000100 case 3 => 0x00000101
    case 4 => 0x00010000 case 5 => 0x00010001 case 6 => 0x00010100 case 7 => 0x00010101
    case 8 => 0x01000000 case 9 => 0x01000001 case 10 => 0x01000100 case 11 => 0x01000101
    case 12 => 0x01010000 case 13 => 0x01010001 case 14 => 0x01010100 case _ => 0x01010101
  }

  function RightTable(v: Word): Word {
    match v & 0xF
    case 0 => 0x00000000 case 1 => 0x01000000 case 2 => 0x00010000 case 3 => 0x01010000
    case 4 => 0x00000100 case 5 => 0x01000100 case 6 => 0x00010100 case 7 => 0x01010100
    case 8 => 0x00000001 case 9 => 0x01000001 case 10 => 0x00010001 case 11 => 0x01010001
    case 12 => 0x00000101 case 13 => 0x01000101 case 14 => 0x00010101 case _ => 0x01010101
  }

  function Four(v: Word, a: Word, b: Word, c: Word, d: Word): Word
    requires a < 32 && b < 32 && c < 32 && d < 32
  {
    (((v >> 3) & 1) << a) | (((v >> 2) & 1) << b) | (((v >> 1) & 1) << c) | ((v & 1) << d)
  }

  lemma LeftFour(v: Word)
    ensures LeftTable(v) == Four(v, 24, 16, 8, 0)
  {
  }

  lemma RightFour(v: Word)
    ensures RightTable(v) == Four(v, 0, 8, 16, 24)
  {
  }

  /** Eight bytes with four bits each, side by side. */
  function Gather(a: Word, b: Word, c: Word, d: Word, e: Word, f: Word, g: Word, h: Word): Word {
    ((a << 7) | (b << 6) | (c << 5) | (d << 4) | (e << 3) | (f << 2) | (g << 1) | h) & 0x0FFF_FFFF
  }

  function LeftChoice(x: Word): Word {
    Gather(LeftTable(x >> 5), LeftTable(x >> 13), LeftTable(x >> 21), LeftTable(x >> 29),
           LeftTable(x), LeftTable(x >> 8), LeftTable(x >> 16), LeftTable(x >> 24))
  }

  function RightChoice(y: Word): Word {
    Gather(RightTable(y >> 4), RightTable(y >> 12), RightTable(y >> 20), RightTable(y >> 28),
           RightTable(y >> 1), RightTable(y >> 9), RightTable(y >> 17), RightTable(y >> 25))
  }

  /** The two registers of 28 bits at the start, as the program computes them. */
  function FirstRegisters(x: Word, y: Word): Pair {
    var (y, x) := SwapBits(y, x, 4, 0x0F0F0F0F);
    var (y, x) := SwapBits(y, x, 0, 0x10101010);
    (LeftChoice(x), RightChoice(y))
  }

  /** The first choice in FIPS 46: the columns 1, 2, 3 and one half of the column 4 for one
      register, the columns 7, 6, 5 and the other half for the other. */
  function LeftStart(x: Word, y: Word): Word {
    (Column(x, y, 7) << 20) | (Column(x, y, 6) << 12) | (Column(x, y, 5) << 4) | (Column(x, y, 4) >> 4)
  }

  function RightStart(x: Word, y: Word): Word {
    (Column(x, y, 1) << 20) | (Column(x, y, 2) << 12) | (Column(x, y, 3) << 4) | (Column(x, y, 4) & 0xF)
  }

  lemma MovedKey4(y: Word, x: Word)
    ensures var t := Differing(y, x, 4, 0x0F0F0F0F);
            Xor(y, Up(t, 4)) == High(y, x, 4, 0x0F0F0F0F) && Xor(x, t) == Low(y, x, 4, 0x0F0F0F0F)
  {
  }

  lemma MovedKey0(y: Word, x: Word)
    ensures var t := Differing(y, x, 0, 0x10101010);
            Xor(y, Up(t, 0)) == High(y, x, 0, 0x10101010) && Xor(x, t) == Low(y, x, 0, 0x10101010)
  {
  }

  function LeftWires(x: Word): Word {
    Gather(Four(x >> 5, 24, 16, 8, 0), Four(x >> 13, 24, 16, 8, 0), Four(x >> 21, 24, 16, 8, 0), Four(x >> 29, 24, 16, 8, 0),
           Four(x, 24, 16, 8, 0), Four(x >> 8, 24, 16, 8, 0), Four(x >> 16, 24, 16, 8, 0), Four(x >> 24, 24, 16, 8, 0))
  }

  function RightWires(y: Word): Word {
    Gather(Four(y >> 4, 0, 8, 16, 24), Four(y >> 12, 0, 8, 16, 24), Four(y >> 20, 0, 8, 16, 24), Four(y >> 28, 0, 8, 16, 24),
           Four(y >> 1, 0, 8, 16, 24), Four(y >> 9, 0, 8, 16, 24), Four(y >> 17, 0, 8, 16, 24), Four(y >> 25, 0, 8, 16, 24))
  }

  lemma LeftStartWires(x: Word, y: Word)
    ensures var y1, x1 := High(y, x, 4, 0x0F0F0F0F), Low(y, x, 4, 0x0F0F0F0F);
            var x2 := Low(y1, x1, 0, 0x10101010);
            LeftWires(x2) == LeftStart(x, y)
  {
  }

  lemma RightStartWires(x: Word, y: Word)
    ensures var y1, x1 := High(y, x, 4, 0x0F0F0F0F), Low(y, x, 4, 0x0F0F0F0F);
            var y2 := High(y1, x1, 0, 0x10101010);
            RightWires(y2) == RightStart(x, y)
  {
  }

  lemma LeftChosen(x: Word)
    ensures LeftChoice(x) == LeftWires(x)
  {
    hide LeftTable, Four, Gather;
    LeftFour(x >> 5);
    LeftFour(x >> 13);
    LeftFour(x >> 21);
    LeftFour(x >> 29);
    LeftFour(x);
    LeftFour(x >> 8);
    LeftFour(x >> 16);
    LeftFour(x >> 24);
  }

  lemma RightChosen(y: Word)
    ensures RightChoice(y) == RightWires(y)
  {
    hide RightTable, Four, Gather;
    RightFour(y >> 4);
    RightFour(y >> 12);
    RightFour(y >> 20);
    RightFour(y >> 28);
    RightFour(y >> 1);
    RightFour(y >> 9);
    RightFour(y >> 17);
    RightFour(y >> 25);
  }

  /** The registers start as FIPS 46 says. */
  lemma StartStandard(x: Word, y: Word)
    ensures FirstRegisters(x, y) == (LeftStart(x, y), RightStart(x, y))
  {
    hide Xor, Up, Differing, High, Low, LeftWires, RightWires, LeftChoice, RightChoice, LeftStart, RightStart;
    var y1, x1 := High(y, x, 4, 0x0F0F0F0F), Low(y, x, 4, 0x0F0F0F0F);
    var y2, x2 := High(y1, x1, 0, 0x10101010), Low(y1, x1, 0, 0x10101010);
    MovedKey4(y, x);
    MovedKey0(y1, x1);
    LeftChosen(x2);
    RightChosen(y2);
    LeftStartWires(x, y);
    RightStartWires(x, y);
  }

  /* ---------- the subkeys ---------- */

  function Turn1(w: Word): Word { ((w << 1) | (w >> 27)) & 0x0FFF_FFFF }

  function Turn2(w: Word): Word { ((w << 2) | (w >> 26)) & 0x0FFF_FFFF }

  /** The first word of a pair of subkeys. */
  function FirstWord(x: Word, y: Word): Word {
    ((x << 4) & 0x24000000) | ((x << 28) & 0x10000000) | ((x << 14) & 0x08000000) | ((x << 18) & 0x02080000) |
    ((x << 6) & 0x01000000) | ((x << 9) & 0x00200000) | ((x >> 1) & 0x00100000) | ((x << 10) & 0x00040000) |
    ((x << 2) & 0x00020000) | ((x >> 10) & 0x00010000) | ((y >> 13) & 0x00002000) | ((y >> 4) & 0x00001000) |
    ((y << 6) & 0x00000800) | ((y >> 1) & 0x00000400) | ((y >> 14) & 0x00000200) | (y & 0x00000100) |
    ((y >> 5) & 0x00000020) | ((y >> 10) & 0x00000010) | ((y >> 3) & 0x00000008) | ((y >> 18) & 0x00000004) |
    ((y >> 26) & 0x00000002) | ((y >> 24) & 0x00000001)
  }

  function SecondWord(x: Word, y: Word): Word {
    ((x << 15) & 0x20000000) | ((x << 17) & 0x10000000) | ((x << 10) & 0x08000000) | ((x << 22) & 0x04000000) |
    ((x >> 2) & 0x02000000) | ((x << 1) & 0x01000000) | ((x << 16) & 0x00200000) | ((x << 11) & 0x00100000) |
    ((x << 3) & 0x00080000) | ((x >> 6) & 0x00040000) | ((x << 15) & 0x00020000) | ((x >> 4) & 0x00010000) |
    ((y >> 2) & 0x00002000) | ((y << 8) & 0x00001000) | ((y >> 14) & 0x00000808) | ((y >> 9) & 0x00000400) |
    (y & 0x00000200) | ((y << 7) & 0x00000100) | ((y >> 7) & 0x00000020) | ((y >> 3) & 0x00000011) |
    ((y << 2) & 0x00000004) | ((y >> 21) & 0x00000002)
  }

  /** Bit `n` of a register; the standard counts from 1, the first of the 28. */
  function Nth(w: Word, n: Word): Word
    requires 1 <= n <= 28
  {
    (w >> (28 - n)) & 1
  }

  function Chosen(w: Word, a: Word, b: Word, c: Word, d: Word, e: Word, f: Word): Word
    requires 1 <= a <= 28 && 1 <= b <= 28 && 1 <= c <= 28 && 1 <= d <= 28 && 1 <= e <= 28 && 1 <= f <= 28
  {
    (Nth(w, a) << 5) | (Nth(w, b) << 4) | (Nth(w, c) << 3) | (Nth(w, d) << 2) | (Nth(w, e) << 1) | Nth(w, f)
  }

  /** The second choice in FIPS 46: the six bits of the subkey for each box, from the two
      registers; the numbers of the second register count from its own first bit. */
  predicate Subkey(p: Pair, k0: Word, k1: Word) {
    var (c, d) := p;
    && Piece(k1, 24) == Chosen(c, 14, 17, 11, 24, 1, 5)
    && Piece(k0, 24) == Chosen(c, 3, 28, 15, 6, 21, 10)
    && Piece(k1, 16) == Chosen(c, 23, 19, 12, 4, 26, 8)
    && Piece(k0, 16) == Chosen(c, 16, 7, 27, 20, 13, 2)
    && Piece(k1, 8) == Chosen(d, 13, 24, 3, 9, 19, 27)
    && Piece(k0, 8) == Chosen(d, 2, 12, 23, 17, 5, 20)
    && Piece(k1, 0) == Chosen(d, 16, 21, 11, 28, 6, 25)
    && Piece(k0, 0) == Chosen(d, 18, 14, 22, 8, 1, 4)
  }

  lemma FirstWordWires(c: Word, d: Word)
    ensures var k := FirstWord(c, d);
            && Piece(k, 24) == Chosen(c, 3, 28, 15, 6, 21, 10) && Piece(k, 16) == Chosen(c, 16, 7, 27, 20, 13, 2)
            && Piece(k, 8) == Chosen(d, 2, 12, 23, 17, 5, 20) && Piece(k, 0) == Chosen(d, 18, 14, 22, 8, 1, 4)
  {
  }

  lemma SecondWordWires(c: Word, d: Word)
    ensures var k := SecondWord(c, d);
            && Piece(k, 24) == Chosen(c, 14, 17, 11, 24, 1, 5) && Piece(k, 16) == Chosen(c, 23, 19, 12, 4, 26, 8)
            && Piece(k, 8) == Chosen(d, 13, 24, 3, 9, 19, 27) && Piece(k, 0) == Chosen(d, 16, 21, 11, 28, 6, 25)
  {
  }

  /** The registers of round `n`: both turn by one bit in the rounds 1, 2, 9 and 16, and by two
      bits in the others. */
  function Registers(key: Bytes, n: nat): Pair
    requires |key| == 8 && n <= 16
  {
    if n == 0 then (LeftStart(Words(key).0, Words(key).1), RightStart(Words(key).0, Words(key).1))
    else
      var (c, d) := Registers(key, n - 1);
      if n == 1 || n == 2 || n == 9 || n == 16 then (Turn1(c), Turn1(d)) else (Turn2(c), Turn2(d))
  }

  /** The subkeys of FIPS 46, in pairs of words: one for each of the 16 rounds. */
  predicate Scheduled(key: Bytes, sk: seq<Word>)
    requires |key| == 8
  {
    |sk| == 32 && forall i :: 0 <= i < 16 ==> Subkey(Registers(key, i + 1), sk[2 * i], sk[2 * i + 1])
  }

  /** `des_main_ks`, as a value: the subkeys of the first `n` rounds. */
  function KeysOf(key: Bytes, n: nat): (sk: seq<Word>)
    requires |key| == 8 && n <= 16
    ensures |sk| == 2 * n
  {
    if n == 0 then []
    else
      var (x, y) := Registers(key, n);
      KeysOf(key, n - 1) + [FirstWord(x, y), SecondWord(x, y)]
  }

  lemma {:induction false} KeysAt(key: Bytes, n: nat, i: nat)
    requires |key| == 8 && i < n <= 16
    ensures var (x, y) := Registers(key, i + 1);
            KeysOf(key, n)[2 * i] == FirstWord(x, y) && KeysOf(key, n)[2 * i + 1] == SecondWord(x, y)
  {
    hide FirstWord, SecondWord, Registers;
    if i < n - 1 { KeysAt(key, n - 1, i); }
  }

  /** The key schedule is that of FIPS 46. */
  lemma KeysStandard(key: Bytes)
    requires |key| == 8
    ensures Scheduled(key, KeysOf(key, 16))
  {
    hide FirstWord, SecondWord, Registers, Subkey, KeysOf;
    var sk := KeysOf(key, 16);
    forall i | 0 <= i < 16 ensures Subkey(Registers(key, i + 1), sk[2 * i], sk[2 * i + 1]) {
      KeysAt(key, 16, i);
      SubkeyStandard(Registers(key, i + 1));
    }
  }

  lemma SubkeyStandard(p: Pair)
    ensures Subkey(p, FirstWord(p.0, p.1), SecondWord(p.0, p.1))
  {
    hide FirstWord, SecondWord, Chosen, Piece;
    FirstWordWires(p.0, p.1);
    SecondWordWires(p.0, p.1);
  }

  /** `des_main_ks` */
  method DesMainKs(key: Bytes) returns (sk: seq<Word>)
    requires |key| == 8
    ensures sk == KeysOf(key, 16) && Scheduled(key, sk)
  {
    hide FirstWord, SecondWord, Turn1, Turn2, GetWord, FirstRegisters, LeftStart, RightStart, Scheduled;
    var x, y := GetWord(key[0], key[1], key[2], key[3]), GetWord(key[4], key[5], key[6], key[7]);
    StartStandard(x, y);
    var p := FirstRegisters(x, y);
    x, y := p.0, p.1;
    sk := [];
    for i := 0 to 16
      invariant (x, y) == Registers(key, i) && sk == KeysOf(key, i)
    {
      if i < 2 || i == 8 || i == 15 {
        x, y := Turn1(x), Turn1(y);
      } else {
        x, y := Turn2(x), Turn2(y);
      }
      sk := sk + [FirstWord(x, y), SecondWord(x, y)];
    }
    KeysStandard(key);
  }

  /** What is encoded with this schedule is, block by block, what FIPS 46 makes of the padded
      text: its choices of bits, its key schedule and its rounds. Only the contents of the
      boxes are open. */
  lemma CodeStandard(box: Boxes, schedule: Schedule, key: Bytes, text: Bytes)
    requires |key| == 8 && schedule(key) == KeysOf(key, 16)
    ensures Scheduled(key, schedule(key))
    ensures var r := EncodeOf(box, schedule, key, text); r.Ok? && Standard(box, schedule(key), Padded(text), r.bytes)
  {
    hide Scheduled, Standard, Padded, EncodeOf, KeysOf;
    KeysStandard(key);
    EncodeStandard(box, schedule, key, text);
  }
}
