/** The gate: each connection has a list of the chunks that came, and packets with a header
    of two or four bytes are cut out of it. */
module ServiceGate {
  import Endian

  type Byte = x: int | 0 <= x < 256
  type Bytes = seq<Byte>

  const LIMIT: nat := 0x100_0000

  /* ---------- the meaning of a stream ---------- */

  predicate IsHeaderSize(n: nat) { n == 2 || n == 4 }

  /** Big-endian; four bytes make a signed `int`. */
  function HeaderOf(b: Bytes): int
    requires IsHeaderSize(|b|)
  {
    var b0: int, b1: int := b[0], b[1];
    if |b| == 2 then 0x100 * b0 + b1
    else
      var b2: int, b3: int := b[2], b[3];
      var u := 0x100_0000 * b0 + 0x1_0000 * b1 + 0x100 * b2 + b3;
      if u < 0x8000_0000 then u else u - 0x1_0000_0000
  }

  /** A stream goes on; or it is stalled for ever behind a negative header; or it has a packet
      that is too long, and is closed. */
  datatype End = Open | Stalled | Closed

  datatype Parsed = Parsed(packets: seq<Bytes>, rest: Bytes, end: End)

  /** The packets of a stream. A packet without data is skipped. */
  function Parse(s: Bytes, hs: nat): Parsed
    requires IsHeaderSize(hs)
    decreases |s|
  {
    if |s| < hs then Parsed([], s, Open)
    else
      var n := HeaderOf(s[..hs]);
      if n < 0 then Parsed([], s, Stalled)
      else if |s| - hs < n then Parsed([], s, Open)
      else if n >= LIMIT then Parsed([], [], Closed)
      else After(if n == 0 then [] else [s[hs..hs + n]], Parse(s[hs + n..], hs))
  }

  function After(packets: seq<Bytes>, p: Parsed): Parsed { p.(packets := packets + p.packets) }

  /** What a stream begins with: not all of a packet; or a negative size; or a packet that is
      too long; or a packet. */
  datatype First = Part | Negative | Long | Packet(n: nat)

  function FirstOf(s: Bytes, hs: nat): (f: First)
    requires IsHeaderSize(hs)
    ensures f.Packet? ==> hs + f.n <= |s| && f.n < LIMIT
  {
    if |s| < hs then Part
    else
      var n := HeaderOf(s[..hs]);
      if n < 0 then Negative else if |s| - hs < n then Part else if n >= LIMIT then Long else Packet(n)
  }

  lemma ParseFirst(s: Bytes, hs: nat)
    requires IsHeaderSize(hs)
    ensures match FirstOf(s, hs)
            case Part => Parse(s, hs) == Parsed([], s, Open)
            case Negative => Parse(s, hs) == Parsed([], s, Stalled)
            case Long => Parse(s, hs) == Parsed([], [], Closed)
            case Packet(n) => Parse(s, hs) == After(if n == 0 then [] else [s[hs..hs + n]], Parse(s[hs + n..], hs))
  {
    hide HeaderOf;
  }

  lemma Shorter(s: Bytes, hs: nat)
    requires IsHeaderSize(hs)
    ensures FirstOf(s, hs).Packet? ==> hs + FirstOf(s, hs).n <= |s| && |s[hs + FirstOf(s, hs).n..]| < |s|
  {
    hide HeaderOf;
  }

  /** A negative size is a header of four bytes whose first one is 128 or more. */
  lemma NegativeIff(s: Bytes, hs: nat)
    requires IsHeaderSize(hs)
    ensures FirstOf(s, hs).Negative? <==> hs == 4 && |s| >= 4 && s[0] >= 128
  {
  }

  /** More bytes do not change what a stream begins with, unless it was a part of a packet. */
  lemma FirstConcat(a: Bytes, b: Bytes, hs: nat)
    requires IsHeaderSize(hs) && !FirstOf(a, hs).Part?
    ensures FirstOf(a + b, hs) == FirstOf(a, hs)
  {
    hide HeaderOf;
    assert (a + b)[..hs] == a[..hs];
  }

  /** Parsing may stop anywhere, and go on with what is left, unless it is over. */
  lemma {:induction false} ParseConcat(a: Bytes, b: Bytes, hs: nat)
    requires IsHeaderSize(hs)
    ensures Parse(a + b, hs) == if Parse(a, hs).end.Closed? then Parse(a, hs)
                                else After(Parse(a, hs).packets, Parse(Parse(a, hs).rest + b, hs))
    decreases |a|
  {
    hide Parse, FirstOf;
    ParseFirst(a, hs);
    if !FirstOf(a, hs).Part? {
      FirstConcat(a, b, hs);
      ParseFirst(a + b, hs);
      if FirstOf(a, hs).Packet? {
        var n := FirstOf(a, hs).n;
        assert (a + b)[hs + n..] == a[hs + n..] + b && (a + b)[hs..hs + n] == a[hs..hs + n];
        ParseConcat(a[hs + n..], b, hs);
      }
    }
  }

  /** What is left is the beginning of a packet, or nothing is ever found behind it. */
  lemma {:induction false} RestOf(s: Bytes, hs: nat)
    requires IsHeaderSize(hs) && !Parse(s, hs).end.Closed?
    ensures FirstOf(Parse(s, hs).rest, hs) == if Parse(s, hs).end.Stalled? then Negative else Part
    decreases |s|
  {
    hide Parse, FirstOf;
    ParseFirst(s, hs);
    if FirstOf(s, hs).Packet? { RestOf(s[hs + FirstOf(s, hs).n..], hs); }
  }

  /** Behind a negative header nothing is ever found again. */
  lemma StalledForEver(a: Bytes, b: Bytes, hs: nat)
    requires IsHeaderSize(hs) && Parse(a, hs).end.Stalled?
    ensures Parse(a + b, hs).packets == Parse(a, hs).packets && Parse(a + b, hs).end.Stalled?
  {
    hide Parse, FirstOf;
    var rest := Parse(a, hs).rest;
    ParseConcat(a, b, hs);
    RestOf(a, hs);
    FirstConcat(rest, b, hs);
    ParseFirst(rest + b, hs);
  }

  /* ---------- packets as they are sent ---------- */

  function Header(n: nat, hs: nat): Bytes
    requires IsHeaderSize(hs) && n < LIMIT && (hs == 2 ==> n < 0x1_0000)
  {
    if hs == 2 then [n / 0x100, n % 0x100] else [0, n / 0x1_0000, n / 0x100 % 0x100, n % 0x100]
  }

  /** A header is the size, high byte first; with four bytes it is read as a two's complement. */
  lemma HeaderForm(b: Bytes)
    requires IsHeaderSize(|b|)
    ensures var n := Endian.BigEndian(b); HeaderOf(b) == if |b| == 4 && n >= 0x8000_0000 then n - 0x1_0000_0000 else n
  {
    if |b| == 2 {
      assert b == [b[0], b[1]];
      Endian.TwoBytes(b[0], b[1]);
    } else {
      assert b == [b[0], b[1], b[2], b[3]];
      Endian.FourBytes(b[0], b[1], b[2], b[3]);
    }
  }

  predicate CanSend(packets: seq<Bytes>, hs: nat) {
    forall i :: 0 <= i < |packets| ==> 0 < |packets[i]| < LIMIT && (hs == 2 ==> |packets[i]| < 0x1_0000)
  }

  function PackAll(packets: seq<Bytes>, hs: nat): Bytes
    requires IsHeaderSize(hs) && CanSend(packets, hs)
  {
    if packets == [] then [] else Header(|packets[0]|, hs) + packets[0] + PackAll(packets[1..], hs)
  }

  lemma HeaderBack(n: nat, hs: nat)
    requires IsHeaderSize(hs) && n < LIMIT && (hs == 2 ==> n < 0x1_0000)
    ensures |Header(n, hs)| == hs && HeaderOf(Header(n, hs)) == n
  {
  }

  lemma {:induction false} ParsePacked(packets: seq<Bytes>, hs: nat)
    requires IsHeaderSize(hs) && CanSend(packets, hs)
    ensures Parse(PackAll(packets, hs), hs) == Parsed(packets, [], Open)
    decreases |packets|
  {
    hide HeaderOf, Header, Parse;
    if packets == [] {
      ParseNothing(hs);
    } else {
      ParsePacked(packets[1..], hs);
      OnePacked(packets[0], PackAll(packets[1..], hs), hs);
      assert packets == [packets[0]] + packets[1..];
    }
  }

  lemma ParseNothing(hs: nat)
    requires IsHeaderSize(hs)
    ensures Parse([], hs) == Parsed([], [], Open)
  {
  }

  lemma OnePacked(first: Bytes, more: Bytes, hs: nat)
    requires IsHeaderSize(hs) && CanSend([first], hs)
    ensures |first| < LIMIT && (hs == 2 ==> |first| < 0x1_0000)
    ensures Parse(Header(|first|, hs) + first + more, hs) == After([first], Parse(more, hs))
  {
    hide HeaderOf, Header, Parse;
    assert 0 < |[first][0]| < LIMIT;
    var n := |first|;
    var s := Header(n, hs) + first + more;
    HeaderBack(n, hs);
    assert s[..hs] == Header(n, hs) && s[hs..hs + n] == first && s[hs + n..] == more;
    ParseFirst(s, hs);
  }

  /* ---------- chunks ---------- */

  /** What is left of a connection, what it delivered, and how often it was closed. */
  datatype Line = Line(rest: Bytes, out: seq<Bytes>, closes: nat)

  function Step(l: Line, chunk: Bytes, hs: nat): Line
    requires IsHeaderSize(hs)
  {
    var p := Parse(l.rest + chunk, hs);
    Line(p.rest, l.out + p.packets, l.closes + if p.end.Closed? then 1 else 0)
  }

  function Run(chunks: seq<Bytes>, hs: nat): Line
    requires IsHeaderSize(hs)
  {
    if chunks == [] then Line([], [], 0) else Step(Run(chunks[..|chunks| - 1], hs), chunks[|chunks| - 1], hs)
  }

  function Flat(chunks: seq<Bytes>): Bytes {
    if chunks == [] then [] else Flat(chunks[..|chunks| - 1]) + chunks[|chunks| - 1]
  }

  /** However the stream is cut into chunks, the packets are those of the whole stream. With
      a packet that is too long, the same packets are delivered in front of it, and the
      connection is closed. */
  lemma {:induction false} Framing(chunks: seq<Bytes>, hs: nat)
    requires IsHeaderSize(hs)
    ensures var l, p := Run(chunks, hs), Parse(Flat(chunks), hs);
            && (l.closes == 0 <==> !p.end.Closed?)
            && (l.closes == 0 ==> l.out == p.packets && l.rest == p.rest)
            && p.packets <= l.out
  {
    if chunks != [] {
      var before, chunk := chunks[..|chunks| - 1], chunks[|chunks| - 1];
      Framing(before, hs);
      ParseConcat(Flat(before), chunk, hs);
      hide Parse;
    }
  }

  /** Behind a close everything begins anew. */
  lemma {:induction false} RunAgain(a: seq<Bytes>, b: seq<Bytes>, hs: nat)
    requires IsHeaderSize(hs) && Run(a, hs).rest == []
    ensures var l, m := Run(a, hs), Run(b, hs);
            Run(a + b, hs) == Line(m.rest, l.out + m.out, l.closes + m.closes)
  {
    if b == [] {
      assert a + b == a && Run(a, hs).out + [] == Run(a, hs).out;
    } else {
      hide Run, Step;
      var before, chunk := b[..|b| - 1], b[|b| - 1];
      RunAgain(a, before, hs);
      assert b == before + [chunk] && a + b == (a + before) + [chunk];
      RunSnoc(before, chunk, hs);
      RunSnoc(a + before, chunk, hs);
      StepOut(Run(before, hs), Run(a, hs), chunk, hs);
    }
  }

  lemma RunSnoc(chunks: seq<Bytes>, chunk: Bytes, hs: nat)
    requires IsHeaderSize(hs)
    ensures Run(chunks + [chunk], hs) == Step(Run(chunks, hs), chunk, hs)
  {
    hide Step;
    assert (chunks + [chunk])[..|chunks|] == chunks;
  }

  /** What was delivered before does not matter for a step. */
  lemma StepOut(l: Line, before: Line, chunk: Bytes, hs: nat)
    requires IsHeaderSize(hs)
    ensures var m := Step(l, chunk, hs);
            Step(Line(l.rest, before.out + l.out, before.closes + l.closes), chunk, hs) ==
            Line(m.rest, before.out + m.out, before.closes + m.closes)
  {
    hide Parse;
    var p := Parse(l.rest + chunk, hs);
    assert (before.out + l.out) + p.packets == before.out + (l.out + p.packets);
  }

  /** The exact run across the first close: the packets in front of the one that is too long,
      and then those of the later chunks as of a new stream. */
  lemma FirstClose(a: seq<Bytes>, b: seq<Bytes>, hs: nat)
    requires IsHeaderSize(hs) && a != [] && Run(a[..|a| - 1], hs).closes == 0 < Run(a, hs).closes
    ensures var m := Run(b, hs);
            Run(a + b, hs) == Line(m.rest, Parse(Flat(a), hs).packets + m.out, 1 + m.closes)
  {
    hide Parse;
    var before, chunk := a[..|a| - 1], a[|a| - 1];
    Framing(before, hs);
    ParseConcat(Flat(before), chunk, hs);
    ClosedRest(Run(before, hs).rest + chunk, hs);
    RunAgain(a, b, hs);
  }

  lemma {:induction false} ClosedRest(s: Bytes, hs: nat)
    requires IsHeaderSize(hs)
    ensures Parse(s, hs).end.Closed? ==> Parse(s, hs).rest == []
    decreases |s|
  {
    hide Parse, FirstOf;
    ParseFirst(s, hs);
    Shorter(s, hs);
    if FirstOf(s, hs).Packet? { ClosedRest(s[hs + FirstOf(s, hs).n..], hs); }
  }

  /** What the sender packed arrives, and nothing is left. */
  lemma Delivered(chunks: seq<Bytes>, packets: seq<Bytes>, hs: nat)
    requires IsHeaderSize(hs) && CanSend(packets, hs) && Flat(chunks) == PackAll(packets, hs)
    ensures Run(chunks, hs) == Line([], packets, 0)
  {
    hide Parse;
    Framing(chunks, hs);
    ParsePacked(packets, hs);
  }

  /** After the close, a chunk that was on its way is taken for the start of a new stream. */
  lemma AfterClose(long: Bytes, x: Byte)
    requires |long| == LIMIT
    ensures var chunks := [[1, 0, 0, 0] + long, [0, 0, 0, 1, x]];
            Run(chunks, 4).out == [[x]] && Parse(Flat(chunks), 4).packets == []
  {
    hide Parse, HeaderOf;
    var a, b := [1, 0, 0, 0] + long, [0, 0, 0, 1, x];
    var chunks := [a, b];
    var none: Bytes, nothing: seq<Bytes> := [], [];
    LongOne(long);
    ShortOne(x);
    assert chunks[..1] == [a] && [a][..0] == nothing && none + a == a && none + b == b;
    assert Run([a], 4) == Line([], [], 1);
    assert Flat([a]) == a;
    ParseConcat(a, b, 4);
  }

  lemma LongOne(long: Bytes)
    requires |long| == LIMIT
    ensures Parse([1, 0, 0, 0] + long, 4) == Parsed([], [], Closed)
  {
    var s := [1, 0, 0, 0] + long;
    assert s[..4] == [1, 0, 0, 0] && HeaderOf(s[..4]) == LIMIT;
    hide Parse, HeaderOf;
    ParseFirst(s, 4);
  }

  lemma ShortOne(x: Byte)
    ensures Parse([0, 0, 0, 1, x], 4) == Parsed([[x]], [], Open)
  {
    var s := [0, 0, 0, 1, x];
    assert s[..4] == [0, 0, 0, 1] && HeaderOf(s[..4]) == 1 && s[4..5] == [x] && |s[5..]| == 0;
    hide Parse, HeaderOf;
    ParseFirst(s, 4);
    ParseFirst(s[5..], 4);
  }

  /* ---------- the list of chunks ---------- */

  /** All the bytes of the list, from the head on. */
  function Joined(messages: seq<Bytes>): Bytes {
    if messages == [] then [] else messages[0] + Joined(messages[1..])
  }

  lemma {:induction false} JoinedSnoc(messages: seq<Bytes>, m: Bytes)
    ensures Joined(messages + [m]) == Joined(messages) + m
  {
    if messages == [] {
      assert [m][1..] == [];
    } else {
      JoinedSnoc(messages[1..], m);
      assert (messages + [m])[1..] == messages[1..] + [m];
    }
  }

  lemma JoinedNone()
    ensures Joined([]) == []
  {
  }

  /** From an offset in the first message on: what is left of it, and the others; or, when
      only `sz` bytes of it are taken, these and the bytes from there on. */
  lemma JoinedHead(messages: seq<Bytes>, offset: nat, sz: nat)
    requires messages != [] && offset <= |messages[0]|
    ensures |messages[0]| <= |Joined(messages)|
    ensures Joined(messages)[offset..] == messages[0][offset..] + Joined(messages[1..])
    ensures offset + sz <= |messages[0]| ==>
              Joined(messages)[offset..] == messages[0][offset..offset + sz] + Joined(messages)[offset + sz..]
  {
  }

  lemma Together(all: Bytes, front: Bytes, back: Bytes)
    requires all == front + back
    ensures front == all[..|front|] && back == all[|front|..]
  {
  }

  class DataBuffer {
    var header: int
    var offset: nat
    var size: nat
    var messages: seq<Bytes>      // from the head to the tail
    ghost var plen: Bytes         // the bytes of the header that was read

    ghost predicate Linked() reads this`offset, this`messages {
      && (if messages == [] then offset == 0 else offset <= |messages[0]|)
      && offset <= |Joined(messages)|
    }

    /** The bytes that are in the list. */
    ghost function Contents(): Bytes
      requires Linked()
      reads this`offset, this`messages
    {
      Joined(messages)[offset..]
    }

    ghost predicate Valid() reads this {
      && Linked() && size == |Contents()|
      && (header != 0 ==> IsHeaderSize(|plen|) && HeaderOf(plen) == header)
    }

    /** The bytes of the stream that belong to no packet yet. */
    ghost function Rest(): Bytes
      requires Valid()
      reads this
    {
      (if header == 0 then [] else plen) + Contents()
    }

    constructor ()
      ensures Valid() && Rest() == [] && header == 0
    {
      header, offset, size, messages, plen := 0, 0, 0, [], [];
    }

    /** `_return_message` */
    method ReturnMessage()
      requires messages != []
      modifies this`messages
      ensures messages == old(messages[1..])
    {
      messages := messages[1..];
    }

    /** The next bytes, as far as they are in the message at the head. */
    method ReadHead(sz: nat) returns (part: Bytes)
      requires Linked() && 0 < sz <= |Contents()|
      modifies this`offset, this`messages
      ensures Linked() && old(Contents()) == part + Contents() && |part| <= sz
      ensures |part| < sz ==> |messages| < old(|messages|)
    {
      JoinedNone();
      hide Joined;
      var current := messages[0];
      var bsz := |current| - offset;
      JoinedHead(messages, offset, sz);
      if bsz > sz {
        part := current[offset..offset + sz];
        offset := offset + sz;
      } else {
        part := current[offset..];
        ReturnMessage();
        offset := 0;
        assert Joined(messages)[0..] == Joined(messages);
      }
    }

    /** `databuffer_read`: the next bytes, from as many messages as they are in. */
    method Read(count: nat) returns (buffer: Bytes)
      requires Valid() && 0 < count <= size
      modifies this`size, this`offset, this`messages
      ensures Valid() && buffer == old(Contents())[..count] && Contents() == old(Contents())[count..]
    {
      hide Joined, Linked, Contents;
      ghost var all := Contents();
      size := size - count;
      buffer := [];
      var sz := count;
      while true
        invariant 0 < sz <= count && |buffer| == count - sz && size == |all| - count
        invariant Linked() && buffer + Contents() == all
        decreases |messages|
      {
        var part := ReadHead(sz);
        buffer := buffer + part;
        sz := sz - |part|;
        if sz == 0 {
          Together(all, buffer, Contents());
          return;
        }
      }
    }

    /** `databuffer_push` */
    method Push(data: Bytes)
      requires Valid()
      modifies this`size, this`messages
      ensures Valid() && Contents() == old(Contents()) + data
    {
      JoinedSnoc(messages, data);
      size := size + |data|;
      messages := messages + [data];
    }

    /** `databuffer_readheader`: the size of the next packet when all of it is there, 0 for a
        packet without data, or a negative number. */
    method ReadHeader(hs: nat) returns (n: int)
      requires Valid() && IsHeaderSize(hs) && (header != 0 ==> |plen| == hs)
      modifies this
      ensures Valid() && (header != 0 ==> |plen| == hs)
      ensures n < 0 || (n == 0 && header == 0) || (n > 0 && header == n)
      ensures match FirstOf(old(Rest()), hs)
              case Part => n < 0 && Rest() == old(Rest())
              case Negative => n < 0 && Rest() == old(Rest())
              case Long => n >= LIMIT && Rest() == old(Rest())
              case Packet(size) => n == size && Rest() == if n == 0 then old(Rest())[hs..] else old(Rest())
    {
      hide HeaderOf;
      ghost var all := Rest();
      if header == 0 {
        if size < hs { return -1; }
        var bytes := Read(hs);
        header, plen := HeaderOf(bytes), bytes;
        assert all == bytes + Contents();
      }
      assert all[..hs] == plen && all[hs..] == Contents();
      if size < header { return -1; }
      n := header;
    }

    /** `_forward` to whoever is there: the packet behind the header that was read. */
    method Forward(n: nat, ghost hs: nat) returns (packet: Bytes)
      requires Valid() && IsHeaderSize(hs) && 0 < n == header <= size && |plen| == hs
      modifies this
      ensures Valid() && header == 0
      ensures packet == old(Rest())[hs..hs + n] && Rest() == old(Rest())[hs + n..]
    {
      hide HeaderOf, Joined;
      ghost var all := Rest();
      assert all[hs..] == Contents();
      packet := Read(n);
      Reset();
    }

    method Reset()
      modifies this`header
      ensures header == 0
    {
      header := 0;
    }

    method Clear()
      modifies this
      ensures Valid() && Rest() == [] && header == 0
    {
      while messages != [] { ReturnMessage(); }
      header, offset, size := 0, 0, 0;
    }

    /** `dispatch_message`: a chunk came. Complete packets are forwarded; a packet that is too
        long closes the connection. */
    method Dispatch(data: Bytes, hs: nat) returns (sent: seq<Bytes>, closed: bool)
      requires Valid() && IsHeaderSize(hs) && (header != 0 ==> |plen| == hs)
      modifies this
      ensures Valid() && (header != 0 ==> |plen| == hs)
      ensures Parse(old(Rest()) + data, hs) == Parsed(sent, Rest(), Parse(old(Rest()) + data, hs).end)
      ensures closed <==> Parse(old(Rest()) + data, hs).end.Closed?
    {
      hide HeaderOf, Joined, Parse, FirstOf, Linked, Contents, Valid, Rest;
      ghost var all := Rest() + data;
      Accept(data, hs);
      sent := [];
      while true
        invariant Valid() && (header != 0 ==> |plen| == hs)
        invariant Parse(all, hs) == After(sent, Parse(Rest(), hs))
        decreases |Rest()|
      {
        ParseFirst(Rest(), hs);
        Shorter(Rest(), hs);
        var packets, more;
        ghost var before := sent;
        packets, more, closed := DispatchOne(hs);
        sent := sent + packets;
        AfterAfter(before, packets, Parse(Rest(), hs));
        if !more { return; }
      }
    }

    /** The chunk is at the end of what is there. */
    method Accept(data: Bytes, ghost hs: nat)
      requires Valid() && (header != 0 ==> |plen| == hs)
      modifies this`size, this`messages
      ensures Valid() && (header != 0 ==> |plen| == hs) && Rest() == old(Rest()) + data
    {
      hide HeaderOf, Linked, Contents;
      Push(data);
    }

    /** One round of its loop. */
    method DispatchOne(hs: nat) returns (packets: seq<Bytes>, more: bool, closed: bool)
      requires Valid() && IsHeaderSize(hs) && (header != 0 ==> |plen| == hs)
      modifies this
      ensures Valid() && (header != 0 ==> |plen| == hs)
      ensures match FirstOf(old(Rest()), hs)
              case Part => !more && !closed && packets == [] && Rest() == old(Rest())
              case Negative => !more && !closed && packets == [] && Rest() == old(Rest())
              case Long => !more && closed && packets == [] && Rest() == []
              case Packet(n) =>
                && more && !closed && packets == (if n == 0 then [] else [old(Rest())[hs..hs + n]])
                && Rest() == old(Rest())[hs + n..]
    {
      hide HeaderOf, Joined, Linked, Contents, FirstOf;
      packets, closed := [], false;
      var size := ReadHeader(hs);
      more := size >= 0;
      if size > 0 {
        if size >= LIMIT {
          Clear();
          more, closed := false, true;
        } else {
          var packet := Forward(size, hs);
          packets := [packet];
        }
      }
    }
  }

  lemma AfterAfter(a: seq<Bytes>, b: seq<Bytes>, p: Parsed)
    ensures After(a, After(b, p)) == After(a + b, p) && a + [] == a && After([], p) == p
  {
    assert a + (b + p.packets) == (a + b) + p.packets;
  }

  /** A whole connection. */
  method RunGate(chunks: seq<Bytes>, hs: nat) returns (out: seq<Bytes>, closes: nat)
    requires IsHeaderSize(hs)
    ensures out == Run(chunks, hs).out && closes == Run(chunks, hs).closes
  {
    hide Parse;
    var buffer := new DataBuffer();
    out, closes := [], 0;
    for k := 0 to |chunks|
      invariant fresh(buffer) && buffer.Valid() && (buffer.header != 0 ==> |buffer.plen| == hs)
      invariant Run(chunks[..k], hs) == Line(buffer.Rest(), out, closes)
    {
      assert chunks[..k + 1][..k] == chunks[..k];
      var sent, closed := buffer.Dispatch(chunks[k], hs);
      out := out + sent;
      closes := closes + if closed then 1 else 0;
    }
    assert chunks[..|chunks|] == chunks;
  }
}
