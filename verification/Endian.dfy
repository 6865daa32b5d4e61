/** Numbers as bytes, with the highest or the lowest byte first. */
module Endian {

  function BigEndian(s: seq<int>): int {
    if s == [] then 0 else 256 * BigEndian(s[..|s| - 1]) + s[|s| - 1]
  }

  function LittleEndian(s: seq<int>): int {
    if s == [] then 0 else s[0] + 256 * LittleEndian(s[1..])
  }

  lemma Snoc(s: seq<int>, b: int)
    ensures BigEndian(s + [b]) == 256 * BigEndian(s) + b
  {
    assert (s + [b])[..|s|] == s;
  }

  lemma Cons(b: int, s: seq<int>)
    ensures LittleEndian([b] + s) == b + 256 * LittleEndian(s)
  {
    assert ([b] + s)[1..] == s;
  }

  lemma TwoBytes(a: int, b: int)
    ensures BigEndian([a, b]) == 256 * a + b
  {
    Snoc([], a);
    Snoc([a], b);
    assert [] + [a] == [a] && [a] + [b] == [a, b];
  }

  lemma FourBytes(a: int, b: int, c: int, d: int)
    ensures BigEndian([a, b, c, d]) == 0x100_0000 * a + 0x1_0000 * b + 0x100 * c + d
  {
    TwoBytes(a, b);
    Snoc([a, b], c);
    Snoc([a, b, c], d);
    assert [a, b] + [c] == [a, b, c] && [a, b, c] + [d] == [a, b, c, d];
  }

  lemma FourLow(a: int, b: int, c: int, d: int, s: seq<int>)
    ensures LittleEndian([a, b, c, d] + s) == a + 0x100 * b + 0x1_0000 * c + 0x100_0000 * d + 0x1_0000_0000 * LittleEndian(s)
  {
    Cons(d, s);
    Cons(c, [d] + s);
    Cons(b, [c] + ([d] + s));
    Cons(a, [b] + ([c] + ([d] + s)));
    assert [a, b, c, d] + s == [a] + ([b] + ([c] + ([d] + s)));
  }

  lemma EightBytes(a: int, b: int, c: int, d: int, e: int, f: int, g: int, h: int)
    ensures LittleEndian([a, b, c, d, e, f, g, h]) ==
            a + 0x100 * b + 0x1_0000 * c + 0x100_0000 * d + 0x1_0000_0000 * (e + 0x100 * f + 0x1_0000 * g + 0x100_0000 * h)
  {
    FourLow(e, f, g, h, []);
    FourLow(a, b, c, d, [e, f, g, h]);
    assert [e, f, g, h] + [] == [e, f, g, h] && [a, b, c, d] + [e, f, g, h] == [a, b, c, d, e, f, g, h];
  }
}
