/** Charsets as LPeg stores them: 256 bits in 32 bytes. The loops over the bytes compute
    what `LpegCode` and `LpegAnalysis` say about sets. */
module LpegCharset {
  import opened LpegTree
  import opened LpegCode

  const CHARSET_SIZE: nat := 32
  const BITS_PER_CHAR: nat := 8

  /** The bit of number `k` in a byte. */
  function Bit(k: nat): (b: bv8)
    requires k < 8
  {
    if k < 4 then (if k < 2 then (if k == 0 then 1 else 2) else (if k == 2 then 4 else 8))
    else (if k < 6 then (if k == 4 then 16 else 32) else (if k == 6 then 64 else 128))
  }

  predicate HasBit(b: bv8, k: nat)
    requires k < 8
  {
    b & Bit(k) != 0
  }

  /** `testchar` */
  predicate TestChar(cs: seq<bv8>, c: Byte)
    requires |cs| == CHARSET_SIZE
  {
    HasBit(cs[c / 8], c % 8)
  }

  /** The set that the bytes stand for. */
  function Members(cs: seq<bv8>): Charset
    requires |cs| == CHARSET_SIZE
  {
    set c: Byte | 0 <= c < 256 && TestChar(cs, c)
  }

  lemma MemberAt(cs: seq<bv8>, i: nat, k: nat)
    requires |cs| == CHARSET_SIZE && i < CHARSET_SIZE && k < 8
    ensures 0 <= 8 * i + k < 256
    ensures 8 * i + k in Members(cs) <==> HasBit(cs[i], k)
  {
    assert (8 * i + k) / 8 == i && (8 * i + k) % 8 == k;
  }

  lemma ByteFacts(b: bv8)
    ensures b == 0 <==> forall k :: 0 <= k < 8 ==> !HasBit(b, k)
    ensures b == 0xFF <==> forall k :: 0 <= k < 8 ==> HasBit(b, k)
  {
    if b != 0 { assert HasBit(b, 0) || HasBit(b, 1) || HasBit(b, 2) || HasBit(b, 3) || HasBit(b, 4) || HasBit(b, 5) || HasBit(b, 6) || HasBit(b, 7); }
    if b != 0xFF { assert !HasBit(b, 0) || !HasBit(b, 1) || !HasBit(b, 2) || !HasBit(b, 3) || !HasBit(b, 4) || !HasBit(b, 5) || !HasBit(b, 6) || !HasBit(b, 7); }
  }

  predicate OneBit(b: bv8) { b != 0 && b & (b - 1) == 0 }

  lemma OneBitSmall(b: bv8)
    requires OneBit(b)
    ensures b != 0 && b != 0xFF
  {
  }

  /** A byte with one bit, and the number of that bit. */
  method SingleBit(b0: bv8) returns (k: nat)
    requires OneBit(b0)
    ensures k < 8 && b0 == Bit(k)
  {
    OneBitCases(b0);
    var b := b0;
    k := 0;
    if b & 0xF0 != 0 { k, b := k + 4, b >> 4; }
    if b & 0x0C != 0 { k, b := k + 2, b >> 2; }
    if b & 0x02 != 0 { k := k + 1; }
  }

  lemma OneBitCases(b: bv8)
    requires b != 0
    ensures b & (b - 1) == 0 <==> b == 1 || b == 2 || b == 4 || b == 8 || b == 16 || b == 32 || b == 64 || b == 128
  {
  }

  /** Two bits of a byte that has more than one. */
  lemma TwoBits(b: bv8) returns (k: nat, m: nat)
    requires b != 0 && !OneBit(b)
    ensures k < 8 && m < 8 && k != m && HasBit(b, k) && HasBit(b, m)
  {
    OneBitCases(b);
    k := LowBit(b);
    assert b & (0xFF ^ Bit(k)) != 0;
    m := LowBit(b & (0xFF ^ Bit(k)));
    MaskBit(b, k, m);
  }

  lemma MaskBit(b: bv8, k: nat, m: nat)
    requires k < 8 && m < 8
    ensures HasBit(b & (0xFF ^ Bit(k)), m) <==> HasBit(b, m) && m != k
  {
  }

  lemma LowBit(b: bv8) returns (k: nat)
    requires b != 0
    ensures k < 8 && HasBit(b, k)
    ensures forall j :: 0 <= j < k ==> !HasBit(b, j)
  {
    if HasBit(b, 0) { k := 0; }
    else if HasBit(b, 1) { k := 1; }
    else if HasBit(b, 2) { k := 2; }
    else if HasBit(b, 3) { k := 3; }
    else if HasBit(b, 4) { k := 4; }
    else if HasBit(b, 5) { k := 5; }
    else if HasBit(b, 6) { k := 6; }
    else { k := 7; }
  }

  lemma BitOnly(k: nat, m: nat)
    requires k < 8 && m < 8
    ensures HasBit(Bit(k), m) <==> k == m
  {
  }

  /** A set with two members and a missing one is of the general kind. */
  lemma GeneralSet(cs: Charset, a: Byte, b: Byte, missing: Byte)
    requires a in cs && b in cs && a != b && missing !in cs
    ensures CharsetType(cs) == General
  {
    assert missing in FULL_SET;
  }

  /** `charsettype` */
  method CharsetTypeOf(cs: seq<bv8>) returns (r: SetType)
    requires |cs| == CHARSET_SIZE
    ensures r == CharsetType(Members(cs))
  {
    hide CharsetType, Members, HasBit, Bit, OneBit;
    var count := 0;       // number of characters in the set
    var candidate := -1;  // candidate position for the singleton char
    var i := 0;
    while i < CHARSET_SIZE
      invariant i <= CHARSET_SIZE && (count == 0 ==> candidate < 0)
      invariant
        || (count == 0 && forall j :: 0 <= j < i ==> cs[j] == 0)
        || (count == 1 && 0 <= candidate < i && OneBit(cs[candidate]) &&
            forall j :: 0 <= j < i && j != candidate ==> cs[j] == 0)
        || (i > 0 && count == i * BITS_PER_CHAR && forall j :: 0 <= j < i ==> cs[j] == 0xFF)
    {
      var b := cs[i];
      if b == 0 {
        if count > 1 {
          FullThenNot(cs, 0, i);
          return General;
        }
      } else if b == 0xFF {
        if count < i * BITS_PER_CHAR {
          if candidate == 0 { OneBitSmall(cs[0]); }
          FullThenNot(cs, i, 0);
          return General;
        } else {
          count := count + BITS_PER_CHAR;
        }
      } else if OneBit(b) {
        if count > 0 {
          OneBitSmall(b);
          if count == 1 {
            OneBitSmall(cs[candidate]);
            TwoBytes(cs, candidate, i);
          } else {
            FullThenNot(cs, 0, i);
          }
          return General;
        } else {
          count := count + 1;
          candidate := i;
        }
      } else {
        ManyBits(cs, i);
        return General;
      }
      i := i + 1;
    }
    if count == 0 {
      EmptyBytes(cs);
      r := Empty;
    } else if count == 1 {
      var k := SingleBit(cs[candidate]);
      SingletonBytes(cs, candidate, k);
      r := Singleton(candidate * BITS_PER_CHAR + k);
    } else {
      FullBytes(cs);
      r := Full;
    }
  }

  /** A full byte and one that is not full. */
  lemma FullThenNot(cs: seq<bv8>, i: nat, j: nat)
    requires |cs| == CHARSET_SIZE && i < CHARSET_SIZE && j < CHARSET_SIZE && cs[i] == 0xFF && cs[j] != 0xFF
    ensures CharsetType(Members(cs)) == General
  {
    hide CharsetType, Members, HasBit, Bit;
    ByteFacts(cs[i]);
    ByteFacts(cs[j]);
    var k :| 0 <= k < 8 && !HasBit(cs[j], k);
    MemberAt(cs, i, 0);
    MemberAt(cs, i, 1);
    MemberAt(cs, j, k);
    GeneralSet(Members(cs), 8 * i, 8 * i + 1, 8 * j + k);
  }

  /** Two bytes with one bit each. */
  lemma TwoBytes(cs: seq<bv8>, i: nat, j: nat)
    requires |cs| == CHARSET_SIZE && i < j < CHARSET_SIZE && cs[i] != 0 && cs[j] != 0 && cs[i] != 0xFF
    ensures CharsetType(Members(cs)) == General
  {
    hide CharsetType, Members, HasBit, Bit;
    ByteFacts(cs[i]);
    ByteFacts(cs[j]);
    var k :| 0 <= k < 8 && HasBit(cs[i], k);
    var m :| 0 <= m < 8 && HasBit(cs[j], m);
    var z :| 0 <= z < 8 && !HasBit(cs[i], z);
    MemberAt(cs, i, k);
    MemberAt(cs, j, m);
    MemberAt(cs, i, z);
    GeneralSet(Members(cs), 8 * i + k, 8 * j + m, 8 * i + z);
  }

  lemma ManyBits(cs: seq<bv8>, i: nat)
    requires |cs| == CHARSET_SIZE && i < CHARSET_SIZE && cs[i] != 0 && cs[i] != 0xFF && !OneBit(cs[i])
    ensures CharsetType(Members(cs)) == General
  {
    hide CharsetType, Members, HasBit, Bit;
    ByteFacts(cs[i]);
    var k, m := TwoBits(cs[i]);
    var z :| 0 <= z < 8 && !HasBit(cs[i], z);
    MemberAt(cs, i, k);
    MemberAt(cs, i, m);
    MemberAt(cs, i, z);
    GeneralSet(Members(cs), 8 * i + k, 8 * i + m, 8 * i + z);
  }

  lemma EmptyBytes(cs: seq<bv8>)
    requires |cs| == CHARSET_SIZE && forall j :: 0 <= j < CHARSET_SIZE ==> cs[j] == 0
    ensures CharsetType(Members(cs)) == Empty
  {
    forall c: Byte ensures c !in Members(cs) { ByteFacts(cs[c / 8]); }
  }

  lemma FullBytes(cs: seq<bv8>)
    requires |cs| == CHARSET_SIZE && forall j :: 0 <= j < CHARSET_SIZE ==> cs[j] == 0xFF
    ensures CharsetType(Members(cs)) == Full
  {
    forall c: Byte ensures c in Members(cs) { ByteFacts(cs[c / 8]); }
  }

  lemma SingletonBytes(cs: seq<bv8>, i: nat, k: nat)
    requires |cs| == CHARSET_SIZE && i < CHARSET_SIZE && k < 8 && cs[i] == Bit(k)
    requires forall j :: 0 <= j < CHARSET_SIZE && j != i ==> cs[j] == 0
    ensures CharsetType(Members(cs)) == Singleton(8 * i + k)
  {
    hide CharsetType, Bit;
    forall c: Byte ensures c in Members(cs) <==> c == 8 * i + k
    {
      BitOnly(k, c % 8);
      ByteFacts(cs[c / 8]);
    }
    assert Members(cs) == {8 * i + k};
    SingletonType(8 * i + k);
  }

  lemma SingletonType(c: Byte)
    ensures CharsetType({c}) == Singleton(c)
  {
    assert 0 in FULL_SET && 1 in FULL_SET;
  }

  // The loops over two charsets.

  /** `cs_complement`, in place. */
  method Complement(cs: array<bv8>)
    requires cs.Length == CHARSET_SIZE
    modifies cs
    ensures Members(cs[..]) == FULL_SET - Members(old(cs[..]))
  {
    for i := 0 to CHARSET_SIZE
      invariant forall j :: 0 <= j < i ==> cs[j] == 0xFF ^ old(cs[j])
      invariant forall j :: i <= j < CHARSET_SIZE ==> cs[j] == old(cs[j])
    {
      cs[i] := 0xFF ^ cs[i];
    }
    forall c: Byte ensures TestChar(cs[..], c) <==> !TestChar(old(cs[..]), c)
    {
      ComplementBit(old(cs[c / 8]), c % 8);
    }
  }

  lemma ComplementBit(b: bv8, k: nat)
    requires k < 8
    ensures HasBit(0xFF ^ b, k) <==> !HasBit(b, k)
  {
  }

  /** The union of two sets, into the first one. */
  method Union(cs: array<bv8>, aux: seq<bv8>)
    requires cs.Length == |aux| == CHARSET_SIZE
    modifies cs
    ensures Members(cs[..]) == Members(old(cs[..])) + Members(aux)
  {
    for i := 0 to CHARSET_SIZE
      invariant forall j :: 0 <= j < i ==> cs[j] == old(cs[j]) | aux[j]
      invariant forall j :: i <= j < CHARSET_SIZE ==> cs[j] == old(cs[j])
    {
      cs[i] := cs[i] | aux[i];
    }
    forall c: Byte ensures TestChar(cs[..], c) <==> TestChar(old(cs[..]), c) || TestChar(aux, c)
    {
      UnionBit(old(cs[c / 8]), aux[c / 8], c % 8);
    }
  }

  lemma UnionBit(a: bv8, b: bv8, k: nat)
    requires k < 8
    ensures HasBit(a | b, k) <==> HasBit(a, k) || HasBit(b, k)
  {
  }

  /** The intersection of two sets, into the first one. */
  method Intersection(cs: array<bv8>, aux: seq<bv8>)
    requires cs.Length == |aux| == CHARSET_SIZE
    modifies cs
    ensures Members(cs[..]) == Members(old(cs[..])) * Members(aux)
  {
    for i := 0 to CHARSET_SIZE
      invariant forall j :: 0 <= j < i ==> cs[j] == old(cs[j]) & aux[j]
      invariant forall j :: i <= j < CHARSET_SIZE ==> cs[j] == old(cs[j])
    {
      cs[i] := cs[i] & aux[i];
    }
    forall c: Byte ensures TestChar(cs[..], c) <==> TestChar(old(cs[..]), c) && TestChar(aux, c)
    {
      IntersectionBit(old(cs[c / 8]), aux[c / 8], c % 8);
    }
  }

  lemma IntersectionBit(a: bv8, b: bv8, k: nat)
    requires k < 8
    ensures HasBit(a & b, k) <==> HasBit(a, k) && HasBit(b, k)
  {
  }

  /** `cs_disjoint` */
  method Disjoint(cs1: seq<bv8>, cs2: seq<bv8>) returns (r: bool)
    requires |cs1| == |cs2| == CHARSET_SIZE
    ensures r <==> Members(cs1) !! Members(cs2)
  {
    for i := 0 to CHARSET_SIZE
      invariant forall j :: 0 <= j < i ==> cs1[j] & cs2[j] == 0
    {
      if cs1[i] & cs2[i] != 0 {
        CommonBit(cs1, cs2, i);
        return false;
      }
    }
    NoCommonBit(cs1, cs2);
    return true;
  }

  lemma CommonBit(cs1: seq<bv8>, cs2: seq<bv8>, i: nat)
    requires |cs1| == |cs2| == CHARSET_SIZE && i < CHARSET_SIZE && cs1[i] & cs2[i] != 0
    ensures !(Members(cs1) !! Members(cs2))
  {
    hide HasBit, Bit, Members;
    ByteFacts(cs1[i] & cs2[i]);
    var k :| 0 <= k < 8 && HasBit(cs1[i] & cs2[i], k);
    IntersectionBit(cs1[i], cs2[i], k);
    MemberAt(cs1, i, k);
    MemberAt(cs2, i, k);
    assert 8 * i + k in Members(cs1) * Members(cs2);
  }

  lemma NoCommonBit(cs1: seq<bv8>, cs2: seq<bv8>)
    requires |cs1| == |cs2| == CHARSET_SIZE && forall j :: 0 <= j < CHARSET_SIZE ==> cs1[j] & cs2[j] == 0
    ensures Members(cs1) !! Members(cs2)
  {
    hide HasBit, Bit;
    forall c: Byte ensures !(TestChar(cs1, c) && TestChar(cs2, c))
    {
      IntersectionBit(cs1[c / 8], cs2[c / 8], c % 8);
      ByteFacts(cs1[c / 8] & cs2[c / 8]);
    }
  }
}
