/** Framed packets on a stream. A packet is two bytes with its size, high byte first, and
    its data. Chunks of many connections come in any order and cut packets anywhere; what
    is unfinished is kept per connection, in a table of chains. */
module LuaNetpack {
  import opened RingBuffer
  import Endian

  const QUEUESIZE: nat := 1024
  const HASHSIZE: nat := 4096

  type Byte = x: int | 0 <= x < 256
  type Bytes = seq<Byte>

  /* ---------- the meaning of a stream ---------- */

  function ReadSize(b0: Byte, b1: Byte): (n: nat)
    ensures n < 0x1_0000
  {
    256 * b0 + b1
  }

  datatype Parsed = Parsed(packets: seq<Bytes>, rest: Bytes)

  /** Does a stream begin with a complete packet? */
  predicate Complete(s: Bytes) { |s| >= 2 && |s| - 2 >= ReadSize(s[0], s[1]) }

  /** The packets of a whole stream, and the beginning of the next one. */
  function Parse(s: Bytes): (r: Parsed)
    ensures !Complete(r.rest) && |r.rest| <= |s|
    ensures r.packets == [] ==> r.rest == s
    decreases |s|
  {
    if !Complete(s) then Parsed([], s)
    else
      var n := ReadSize(s[0], s[1]);
      var next := Parse(s[2 + n..]);
      Parsed([s[2..2 + n]] + next.packets, next.rest)
  }

  lemma ParseOne(s: Bytes)
    requires Complete(s)
    ensures var n := ReadSize(s[0], s[1]);
            2 + n <= |s| && Parse(s) == Parsed([s[2..2 + n]] + Parse(s[2 + n..]).packets, Parse(s[2 + n..]).rest)
  {
    hide ReadSize;
  }

  lemma ParseNone(s: Bytes)
    requires !Complete(s)
    ensures Parse(s) == Parsed([], s)
  {
  }

  /** Parsing may stop anywhere, and go on with what it kept. */
  lemma {:induction false} ParseConcat(a: Bytes, b: Bytes)
    ensures Parse(a + b) == Parsed(Parse(a).packets + Parse(Parse(a).rest + b).packets, Parse(Parse(a).rest + b).rest)
    decreases |a|
  {
    hide Parse, ReadSize;
    if Complete(a) {
      var n := ReadSize(a[0], a[1]);
      assert (a + b)[0] == a[0] && (a + b)[1] == a[1];
      ParseOne(a);
      ParseOne(a + b);
      assert (a + b)[2 + n..] == a[2 + n..] + b;
      assert (a + b)[2..2 + n] == a[2..2 + n];
      ParseConcat(a[2 + n..], b);
      var more := Parse(Parse(a).rest + b);
      assert [a[2..2 + n]] + (Parse(a[2 + n..]).packets + more.packets) == Parse(a).packets + more.packets;
    } else {
      ParseNone(a);
    }
  }

  /** `lpack`: the bytes of a packet. Longer data is refused. */
  datatype Result = Ok(bytes: Bytes) | Error(message: string)

  function Pack(data: Bytes): (r: Result)
    ensures r.Error? <==> |data| >= 0x1_0000
  {
    if |data| >= 0x1_0000 then Error("Invalid size (too long) of data")
    else Ok([|data| / 256, |data| % 256] + data)
  }

  /** In front of the data is its size, high byte first. */
  lemma PackForm(data: Bytes)
    requires |data| < 0x1_0000
    ensures var b := Pack(data).bytes; |b| == 2 + |data| && Endian.BigEndian(b[..2]) == |data| && b[2..] == data
  {
    Endian.TwoBytes(|data| / 256, |data| % 256);
    assert Pack(data).bytes[..2] == [|data| / 256, |data| % 256];
  }

  function PackAll(all: seq<Bytes>): Bytes
    requires forall d :: d in all ==> Pack(d).Ok?
  {
    if all == [] then [] else Pack(all[0]).bytes + PackAll(all[1..])
  }

  /** Packets that were packed one behind the other are found again. */
  lemma {:induction false} ParsePacked(all: seq<Bytes>)
    requires forall d :: d in all ==> Pack(d).Ok?
    ensures Parse(PackAll(all)) == Parsed(all, [])
  {
    if all != [] {
      var p := Pack(all[0]).bytes;
      ParsePacked(all[1..]);
      ParseConcat(p, PackAll(all[1..]));
      ParseOne(p);
      ParseNone([]);
      assert p[2..] == all[0] && p[2 + |all[0]|..] == [];
      assert Parse(p).rest + PackAll(all[1..]) == PackAll(all[1..]);
    }
  }

  /* ---------- runs ---------- */

  datatype Event = Data(fd: int, bytes: Bytes) | Close(fd: int)

  datatype Packet = Packet(fd: int, data: Bytes)

  function Tagged(fd: int, packets: seq<Bytes>): (r: seq<Packet>)
    ensures |r| == |packets| && forall k :: 0 <= k < |r| ==> r[k] == Packet(fd, packets[k])
  {
    seq(|packets|, k requires 0 <= k < |packets| => Packet(fd, packets[k]))
  }

  /** What is kept of the connections between two events. */
  type Pending = map<int, Bytes>

  function Kept(p: Pending, fd: int): Bytes { if fd in p then p[fd] else [] }

  /** The packets that came out, with their connections, and what is kept. */
  datatype Net = Net(pending: Pending, out: seq<Packet>)

  function Step(n: Net, e: Event): Net {
    match e
    case Data(fd, bytes) =>
      var r := Parse(Kept(n.pending, fd) + bytes);
      Net(n.pending[fd := r.rest], n.out + Tagged(fd, r.packets))
    case Close(fd) => n.(pending := n.pending[fd := []])
  }

  function Run(events: seq<Event>): Net {
    if events == [] then Net(map[], [])
    else Step(Run(events[..|events| - 1]), events[|events| - 1])
  }

  /** The packets of one connection. */
  function Of(out: seq<Packet>, fd: int): seq<Bytes> {
    if out == [] then []
    else
      var last := out[|out| - 1];
      Of(out[..|out| - 1], fd) + if last.fd == fd then [last.data] else []
  }

  /** The bytes of a connection since it was closed last. */
  function Stream(events: seq<Event>, fd: int): Bytes {
    if events == [] then []
    else
      var before := Stream(events[..|events| - 1], fd);
      match events[|events| - 1]
      case Data(fd', bytes) => if fd' == fd then before + bytes else before
      case Close(fd') => if fd' == fd then [] else before
  }

  /** The packets of the streams that a connection had before, all of them closed. */
  function Closed(events: seq<Event>, fd: int): seq<Bytes> {
    if events == [] then []
    else
      var init := events[..|events| - 1];
      if events[|events| - 1] == Close(fd) then Closed(init, fd) + Parse(Stream(init, fd)).packets else Closed(init, fd)
  }

  lemma {:induction false} OfTagged(out: seq<Packet>, packets: seq<Bytes>, fd: int, other: int)
    ensures Of(out + Tagged(other, packets), fd) == Of(out, fd) + if fd == other then packets else []
    decreases |packets|
  {
    var n := |packets| - 1;
    if packets == [] {
      assert out + Tagged(other, packets) == out;
    } else {
      OfTagged(out, packets[..n], fd, other);
      var all := out + Tagged(other, packets);
      assert all[..|all| - 1] == out + Tagged(other, packets[..n]);
      assert packets == packets[..n] + [packets[n]];
    }
  }

  /** Framing does not depend on the chunks or on the other connections: at any time, the
      packets of a connection are those of its whole stream, and what is kept of it is
      the unfinished end of this stream. */
  lemma {:induction false} Framing(events: seq<Event>, fd: int)
    ensures Of(Run(events).out, fd) == Closed(events, fd) + Parse(Stream(events, fd)).packets
    ensures Kept(Run(events).pending, fd) == Parse(Stream(events, fd)).rest
  {
    hide Parse, Step;
    if events == [] {
      ParseNone([]);
    } else {
      var init, e := events[..|events| - 1], events[|events| - 1];
      Framing(init, fd);
      FramingStep(Run(init), e, fd, Closed(init, fd), Stream(init, fd));
      ParseNone([]);
    }
  }

  lemma FramingStep(n: Net, e: Event, fd: int, closed: seq<Bytes>, stream: Bytes)
    requires Of(n.out, fd) == closed + Parse(stream).packets && Kept(n.pending, fd) == Parse(stream).rest
    ensures var n' := Step(n, e);
            if e == Close(fd) then Of(n'.out, fd) == closed + Parse(stream).packets && Kept(n'.pending, fd) == []
            else
              var stream' := if e.Data? && e.fd == fd then stream + e.bytes else stream;
              Of(n'.out, fd) == closed + Parse(stream').packets && Kept(n'.pending, fd) == Parse(stream').rest
  {
    hide Parse, Of, Tagged;
    if e.Data? {
      var r := Parse(Kept(n.pending, e.fd) + e.bytes);
      OfTagged(n.out, r.packets, fd, e.fd);
      if e.fd == fd { ParseConcat(stream, e.bytes); }
    }
  }

  /** Two runs in which a connection gets the same bytes, cut and mixed with others in
      different ways, give the same packets for it. */
  lemma SameBytesSamePackets(a: seq<Event>, b: seq<Event>, fd: int)
    requires Stream(a, fd) == Stream(b, fd) && Closed(a, fd) == Closed(b, fd)
    ensures Of(Run(a).out, fd) == Of(Run(b).out, fd) && Kept(Run(a).pending, fd) == Kept(Run(b).pending, fd)
  {
    Framing(a, fd);
    Framing(b, fd);
  }

  /** The receiver gets what the sender packed. */
  lemma Delivered(events: seq<Event>, fd: int, all: seq<Bytes>)
    requires forall d :: d in all ==> Pack(d).Ok?
    requires Stream(events, fd) == PackAll(all) && Close(fd) !in events
    ensures Of(Run(events).out, fd) == all && Kept(Run(events).pending, fd) == []
  {
    Framing(events, fd);
    NeverClosed(events, fd);
    ParsePacked(all);
  }

  lemma {:induction false} NeverClosed(events: seq<Event>, fd: int)
    requires Close(fd) !in events
    ensures Closed(events, fd) == []
  {
    if events != [] { NeverClosed(events[..|events| - 1], fd); }
  }

  /* ---------- the table of unfinished packets ---------- */

  /** An unfinished packet: `data` are the `read` bytes that arrived of the `size` bytes of
      its buffer; or only the first byte of its size arrived, then `read` is -1. */
  datatype Uncomplete = Uncomplete(fd: int, size: nat, read: int, header: Byte, data: Bytes)

  predicate Sound(u: Uncomplete) {
    if u.read < 0 then u.read == -1 && u.data == []
    else |u.data| == u.read < u.size < 0x1_0000
  }

  /** The bytes of the stream that an unfinished packet stands for. */
  function BytesOf(u: Uncomplete): Bytes
    requires Sound(u)
  {
    if u.read < 0 then [u.header] else [u.size / 256, u.size % 256] + u.data
  }

  function HashFd(fd: int): (h: nat)
    ensures h < HASHSIZE
  {
    (fd / 0x100_0000 + fd / 0x1000 + fd) % 0x1_0000_0000 % HASHSIZE
  }

  /** A chain: sound entries of the bucket `h`, one for each connection at most. */
  predicate ChainOk(chain: seq<Uncomplete>, h: nat) {
    && (forall i :: 0 <= i < |chain| ==> Sound(chain[i]) && HashFd(chain[i].fd) == h)
    && (forall i, j :: 0 <= i < j < |chain| ==> chain[i].fd != chain[j].fd)
  }

  /** What a chain keeps of a connection. */
  function Find(chain: seq<Uncomplete>, fd: int): (r: Bytes)
    requires forall i :: 0 <= i < |chain| ==> Sound(chain[i])
    ensures r == [] <==> forall i :: 0 <= i < |chain| ==> chain[i].fd != fd
  {
    if chain == [] then []
    else if chain[0].fd == fd then BytesOf(chain[0])
    else Find(chain[1..], fd)
  }

  lemma ChainTail(chain: seq<Uncomplete>, h: nat)
    requires ChainOk(chain, h) && chain != []
    ensures ChainOk(chain[1..], h)
  {
    hide Sound, HashFd;
  }

  lemma ChainKept(chain: seq<Uncomplete>, h: nat, i: nat)
    requires ChainOk(chain, h) && i < |chain|
    ensures ChainOk(Without(chain, i), h)
  {
    hide Sound, HashFd, Without;
  }

  lemma FindStep(u: Uncomplete, chain: seq<Uncomplete>, fd: int)
    requires Sound(u) && forall i :: 0 <= i < |chain| ==> Sound(chain[i])
    ensures Find([u] + chain, fd) == if u.fd == fd then BytesOf(u) else Find(chain, fd)
  {
    hide BytesOf, Sound;
    assert ([u] + chain)[1..] == chain;
  }

  lemma WithoutStep(u: Uncomplete, tail: seq<Uncomplete>, i: nat)
    requires i <= |tail|
    ensures Without([u] + tail, i) == if i == 0 then tail else [u] + Without(tail, i - 1)
  {
  }

  lemma {:induction false} FindAt(chain: seq<Uncomplete>, h: nat, i: nat, fd: int)
    requires ChainOk(chain, h) && i < |chain|
    ensures Find(chain, chain[i].fd) == BytesOf(chain[i])
    ensures ChainOk(Without(chain, i), h)
    ensures Find(Without(chain, i), fd) == if fd == chain[i].fd then [] else Find(chain, fd)
    decreases i
  {
    hide BytesOf, Sound, HashFd, Find, Without, ChainOk;
    ChainKept(chain, h, i);
    ChainTail(chain, h);
    ChainSound(chain, h);
    var u, tail := chain[0], chain[1..];
    assert chain == [u] + tail;
    ChainSound(tail, h);
    FindStep(u, tail, fd);
    FindStep(u, tail, chain[i].fd);
    WithoutStep(u, tail, i);
    if i > 0 {
      FindAt(tail, h, i - 1, fd);
      ChainSound(Without(tail, i - 1), h);
      FindStep(u, Without(tail, i - 1), fd);
    }
  }

  lemma ChainSound(chain: seq<Uncomplete>, h: nat)
    requires ChainOk(chain, h)
    ensures forall i :: 0 <= i < |chain| ==> Sound(chain[i])
    ensures forall i, j :: 0 <= i < j < |chain| ==> chain[i].fd != chain[j].fd
  {
    hide Sound, HashFd;
  }

  function Without(chain: seq<Uncomplete>, i: nat): (r: seq<Uncomplete>)
    requires i < |chain|
    ensures |r| == |chain| - 1
    ensures forall k :: 0 <= k < |r| ==> r[k] == chain[if k < i then k else k + 1]
  {
    chain[..i] + chain[i + 1..]
  }

  lemma ChainWithout(chain: seq<Uncomplete>, h: nat, i: nat)
    requires ChainOk(chain, h) && i < |chain|
    ensures ChainOk(Without(chain, i), h) && Find(chain, chain[i].fd) == BytesOf(chain[i])
    ensures forall fd :: Find(Without(chain, i), fd) == if fd == chain[i].fd then [] else Find(chain, fd)
  {
    hide Find, BytesOf, Without, Sound, HashFd;
    FindAt(chain, h, i, 0);
    forall fd ensures Find(Without(chain, i), fd) == if fd == chain[i].fd then [] else Find(chain, fd) {
      FindAt(chain, h, i, fd);
    }
  }

  datatype Option = None | Some(value: Uncomplete)

  datatype Outcome =
    | Nothing              // no packet is complete
    | OnePacket(data: Bytes)
    | More                 // packets are in the queue

  class Netpack {
    const hash: array<seq<Uncomplete>>
    var queue: array<Packet>
    var cap: nat
    var head: nat
    var tail: nat

    ghost predicate Valid() reads this, hash {
      cap == queue.Length && head < cap && tail < cap && hash.Length == HASHSIZE &&
      forall h :: 0 <= h < HASHSIZE ==> ChainOk(hash[h], h)
    }

    /** What is kept of a connection. */
    ghost function KeptOf(fd: int): Bytes
      requires Valid()
      reads this, hash
    {
      Find(hash[HashFd(fd)], fd)
    }

    /** Packets that wait in the queue. */
    ghost function Queued(): seq<Packet>
      requires Valid()
      reads this, hash, queue
    {
      Ring(queue[..], head, tail)
    }

    constructor ()
      ensures Valid() && fresh(queue) && fresh(hash)
      ensures Queued() == [] && forall fd :: KeptOf(fd) == []
    {
      cap, head, tail := QUEUESIZE, 0, 0;
      hash := new seq<Uncomplete>[HASHSIZE](_ => []);
      queue := new Packet[QUEUESIZE](_ => Packet(0, []));
    }

    /** `find_uncomplete`: takes the entry of a connection out of its chain. */
    method FindUncomplete(fd: int) returns (uc: Option)
      requires Valid()
      modifies hash
      ensures Valid() && KeptOf(fd) == [] && Queued() == old(Queued())
      ensures forall other :: other != fd ==> KeptOf(other) == old(KeptOf(other))
      ensures uc.None? <==> old(KeptOf(fd)) == []
      ensures uc.Some? ==> Sound(uc.value) && uc.value.fd == fd && BytesOf(uc.value) == old(KeptOf(fd))
    {
      hide BytesOf, Sound, HashFd, Ring;
      var h := HashFd(fd);
      var chain := hash[h];
      var i := 0;
      while i < |chain|
        invariant 0 <= i <= |chain| && forall j :: 0 <= j < i ==> chain[j].fd != fd
      {
        if chain[i].fd == fd {
          ChainWithout(chain, h, i);
          hash[h] := Without(chain, i);
          return Some(chain[i]);
        }
        i := i + 1;
      }
      uc := None;
    }

    /** `save_uncomplete`: a new entry at the front of its chain. */
    method SaveUncomplete(u: Uncomplete)
      requires Valid() && Sound(u) && KeptOf(u.fd) == []
      modifies hash
      ensures Valid() && KeptOf(u.fd) == BytesOf(u) && Queued() == old(Queued())
      ensures forall other :: other != u.fd ==> KeptOf(other) == old(KeptOf(other))
    {
      hide BytesOf, Sound, HashFd, Ring;
      var h := HashFd(u.fd);
      ghost var chain := hash[h];
      hash[h] := [u] + hash[h];
      assert hash[h][1..] == chain;
    }

    /** `expand_queue`: a full queue moves into a larger one. */
    method ExpandQueue()
      requires cap == queue.Length > 0 && head < cap && head == tail
      modifies this
      ensures cap == queue.Length == old(cap) + QUEUESIZE && head < cap && tail < cap && fresh(queue)
      ensures Ring(queue[..], head, tail) == old(Full(queue[..], head))
    {
      ghost var was := queue[..];
      var newQueue := new Packet[cap + QUEUESIZE](_ => Packet(0, []));
      FullLength(was, head);
      for i := 0 to cap
        invariant unchanged(this) && queue[..] == was
        invariant newQueue[..i] == Full(was, head)[..i]
      {
        FullAt(was, head, i);
        newQueue[i] := queue[(head + i) % cap];
        assert newQueue[..i + 1] == newQueue[..i] + [newQueue[i]];
      }
      head := 0;
      tail := cap;
      cap := cap + QUEUESIZE;
      queue := newQueue;
    }

    method PushData(fd: int, data: Bytes)
      requires Valid()
      modifies this, queue
      ensures Valid() && (queue == old(queue) || fresh(queue)) && Queued() == old(Queued()) + [Packet(fd, data)]
      ensures forall other :: KeptOf(other) == old(KeptOf(other))
    {
      hide Ring, Full, Find, ChainOk;
      RingAppend(queue[..], head, tail, Packet(fd, data));
      ghost var next := queue[..][tail := Packet(fd, data)];
      queue[tail] := Packet(fd, data);
      assert queue[..] == next;
      tail := tail + 1;
      if tail >= cap { tail := tail - cap; }
      if head == tail { ExpandQueue(); }
    }

    /** `push_more`: queues the packets of a buffer, and keeps what is left. */
    method PushMore(fd: int, buffer: Bytes)
      requires Valid() && |buffer| > 0 && KeptOf(fd) == []
      modifies this, queue, hash
      ensures Valid() && (queue == old(queue) || fresh(queue))
      ensures KeptOf(fd) == Parse(buffer).rest && Queued() == old(Queued()) + Tagged(fd, Parse(buffer).packets)
      ensures forall other :: other != fd ==> KeptOf(other) == old(KeptOf(other))
      decreases |buffer|
    {
      hide Ring, Find, ChainOk, HashFd, Parse, ReadSize, Sound, BytesOf;
      var size := |buffer|;
      if size == 1 {
        KeepHeader(fd, buffer);
        SaveUncomplete(Uncomplete(fd, 0, -1, buffer[0], []));
        return;
      }
      var packSize := ReadSize(buffer[0], buffer[1]);
      size := size - 2;
      if size < packSize {
        KeepData(fd, buffer);
        SaveUncomplete(Uncomplete(fd, packSize, size, 0, buffer[2..]));
        return;
      }
      ParseOne(buffer);
      PushData(fd, buffer[2..2 + packSize]);
      size := size - packSize;
      if size > 0 {
        PushMore(fd, buffer[2 + packSize..]);
        TaggedFirst(fd, buffer[2..2 + packSize], Parse(buffer[2 + packSize..]).packets);
      } else {
        ParseNone([]);
        TaggedFirst(fd, buffer[2..2 + packSize], []);
      }
    }

    /** `filter_data_`: a chunk arrives. A packet that is complete with the chunk and has
        nothing else in front or behind is returned, all others go through the queue. */
    method FilterData(fd: int, buffer: Bytes) returns (r: Outcome)
      requires Valid() && |buffer| > 0
      modifies this, queue, hash
      ensures Valid() && (queue == old(queue) || fresh(queue))
      ensures var p := Parse(old(KeptOf(fd)) + buffer);
              && KeptOf(fd) == p.rest
              && r == OutcomeOf(p)
              && Queued() == if r == More then old(Queued()) + Tagged(fd, p.packets) else old(Queued())
      ensures forall other :: other != fd ==> KeptOf(other) == old(KeptOf(other))
    {
      hide Ring, Find, ChainOk, HashFd, Parse, ReadSize, BytesOf, Sound;
      var uc := FindUncomplete(fd);
      if uc.Some? {
        r := FillUncomplete(fd, uc.value, buffer);
        return;
      }
      assert old(KeptOf(fd)) + buffer == buffer;
      r := StartPacket(fd, buffer);
    }

    /** The part of `filter_data_` that starts with a new packet. */
    method StartPacket(fd: int, buffer: Bytes) returns (r: Outcome)
      requires Valid() && |buffer| > 0 && KeptOf(fd) == []
      modifies this, queue, hash
      ensures Valid() && (queue == old(queue) || fresh(queue))
      ensures var p := Parse(buffer);
              && KeptOf(fd) == p.rest
              && r == OutcomeOf(p)
              && Queued() == if r == More then old(Queued()) + Tagged(fd, p.packets) else old(Queued())
      ensures forall other :: other != fd ==> KeptOf(other) == old(KeptOf(other))
    {
      hide Ring, Find, ChainOk, HashFd, Parse, ReadSize, BytesOf, Sound;
      var size := |buffer|;
      if size == 1 {
        KeepHeader(fd, buffer);
        SaveUncomplete(Uncomplete(fd, 0, -1, buffer[0], []));
        return Nothing;
      }
      var packSize := ReadSize(buffer[0], buffer[1]);
      size := size - 2;
      if size < packSize {
        KeepData(fd, buffer);
        SaveUncomplete(Uncomplete(fd, packSize, size, 0, buffer[2..]));
        return Nothing;
      }
      ParseOne(buffer);
      var data := buffer[2..2 + packSize];
      if size == packSize {
        ParseNone([]);
        assert buffer[2 + packSize..] == [];
        return OnePacket(data);
      }
      PushData(fd, data);
      PushMore(fd, buffer[2 + packSize..]);
      TaggedFirst(fd, data, Parse(buffer[2 + packSize..]).packets);
      AfterOne(buffer);
      r := More;
    }

    /** The part of `filter_data_` that goes on with an unfinished packet. */
    method FillUncomplete(fd: int, uc: Uncomplete, buffer: Bytes) returns (r: Outcome)
      requires Valid() && |buffer| > 0 && Sound(uc) && uc.fd == fd && KeptOf(fd) == []
      modifies this, queue, hash
      ensures Valid() && (queue == old(queue) || fresh(queue))
      ensures var p := Parse(BytesOf(uc) + buffer);
              && KeptOf(fd) == p.rest
              && r == OutcomeOf(p)
              && Queued() == if r == More then old(Queued()) + Tagged(fd, p.packets) else old(Queued())
      ensures forall other :: other != fd ==> KeptOf(other) == old(KeptOf(other))
    {
      hide Ring, Find, ChainOk, HashFd, Parse, ReadSize, BytesOf, Sound, OutcomeOf;
      ghost var all := BytesOf(uc) + buffer;
      var u, left := uc, buffer;
      SizeKnown(uc, buffer);
      if u.read < 0 {
        u := u.(size := ReadSize(u.header, buffer[0]), read := 0);
        left := left[1..];
      }
      var need := u.size - u.read;
      if |left| < need {
        StillKept(u, left, all);
        SaveUncomplete(u.(read := u.read + |left|, data := u.data + left));
        return Nothing;
      }
      var data := u.data + left[..need];
      left := left[need..];
      NowComplete(u.size, u.data, left, data, all);
      if |left| == 0 {
        return OnePacket(data);
      }
      PushData(fd, data);
      PushMore(fd, left);
      TaggedFirst(fd, data, Parse(left).packets);
      r := More;
    }

    /** `close_uncomplete`: a connection ends, what is unfinished is lost. */
    method CloseUncomplete(fd: int)
      requires Valid()
      modifies hash
      ensures Valid() && KeptOf(fd) == [] && Queued() == old(Queued())
      ensures forall other :: other != fd ==> KeptOf(other) == old(KeptOf(other))
    {
      var _ := FindUncomplete(fd);
    }

    /** `lpop`: the packet that waits longest. */
    method Pop() returns (found: bool, packet: Packet)
      requires Valid()
      modifies this`head
      ensures Valid() && (found <==> old(Queued()) != [])
      ensures found ==> old(Queued()) == [packet] + Queued()
      ensures !found ==> Queued() == []
      ensures forall other :: KeptOf(other) == old(KeptOf(other))
    {
      hide Ring, Find, ChainOk;
      RingLength(queue[..], head, tail);
      packet := queue[head];
      if head == tail { return false, packet; }
      RingTake(queue[..], head, tail);
      head := head + 1;
      if head >= cap { head := 0; }
      found := true;
    }
  }

  /** What a call returns for the packets that it found. */
  function OutcomeOf(p: Parsed): Outcome {
    if p.packets == [] then Nothing
    else if |p.packets| == 1 && p.rest == [] then OnePacket(p.packets[0])
    else More
  }

  /** A packet with something behind it is not the only one, or leaves something. */
  lemma AfterOne(s: Bytes)
    requires Complete(s) && |s| - 2 > ReadSize(s[0], s[1])
    ensures OutcomeOf(Parse(s)) == More
  {
    hide Parse, ReadSize;
    ParseOne(s);
    var next := s[2 + ReadSize(s[0], s[1])..];
    if Complete(next) { ParseOne(next); } else { ParseNone(next); }
  }

  /** An unfinished packet with size `size`, of which `data` arrived. */
  function Begun(size: nat, data: Bytes): Bytes
    requires size < 0x1_0000
  {
    [size / 256, size % 256] + data
  }

  lemma BegunIs(size: nat, data: Bytes)
    requires size < 0x1_0000
    ensures var s := Begun(size, data);
            |s| == 2 + |data| && ReadSize(s[0], s[1]) == size && (Complete(s) <==> |data| >= size)
  {
  }

  /** When the second byte of the size arrives, nothing of the data is there yet. */
  lemma SizeKnown(uc: Uncomplete, buffer: Bytes)
    requires Sound(uc) && |buffer| > 0
    ensures uc.read < 0 ==> BytesOf(uc) + buffer == Begun(ReadSize(uc.header, buffer[0]), buffer[1..]) && uc.data == []
    ensures uc.read >= 0 ==> uc.size < 0x1_0000 && BytesOf(uc) + buffer == Begun(uc.size, uc.data + buffer)
    ensures uc.read >= 0 ==> |uc.data| == uc.read < uc.size
  {
    if uc.read < 0 {
      assert buffer == [buffer[0]] + buffer[1..];
    }
  }

  lemma StillKept(u: Uncomplete, left: Bytes, all: Bytes)
    requires 0 <= u.read == |u.data| && u.read + |left| < u.size < 0x1_0000 && all == Begun(u.size, u.data + left)
    ensures var u' := u.(read := u.read + |left|, data := u.data + left);
            Sound(u') && BytesOf(u') == all && Parse(all) == Parsed([], all) && OutcomeOf(Parse(all)) == Nothing
  {
    hide ReadSize;
    BegunIs(u.size, u.data + left);
    ParseNone(all);
  }

  lemma NowComplete(size: nat, data: Bytes, left: Bytes, packet: Bytes, all: Bytes)
    requires size < 0x1_0000 && |packet| == size && data <= packet && all == Begun(size, packet + left)
    ensures Parse(all) == Parsed([packet] + Parse(left).packets, Parse(left).rest)
    ensures OutcomeOf(Parse(all)) == if left == [] then OnePacket(packet) else More
  {
    hide Parse, ReadSize;
    BegunIs(size, packet + left);
    ParseOne(all);
    assert all[2..2 + size] == packet && all[2 + size..] == left;
    if left == [] { ParseNone(left); } else { AfterOne(all); }
  }

  lemma KeepHeader(fd: int, buffer: Bytes)
    requires |buffer| == 1
    ensures var u := Uncomplete(fd, 0, -1, buffer[0], []);
            Sound(u) && BytesOf(u) == buffer && Parse(buffer) == Parsed([], buffer)
  {
  }

  lemma KeepData(fd: int, buffer: Bytes)
    requires |buffer| >= 2 && |buffer| - 2 < ReadSize(buffer[0], buffer[1])
    ensures var u := Uncomplete(fd, ReadSize(buffer[0], buffer[1]), |buffer| - 2, 0, buffer[2..]);
            Sound(u) && BytesOf(u) == buffer && Parse(buffer) == Parsed([], buffer)
  {
    hide Parse;
    ParseNone(buffer);
    SizeBytes(buffer[0], buffer[1]);
    assert buffer == [buffer[0], buffer[1]] + buffer[2..];
  }

  lemma SizeBytes(high: nat, low: nat)
    requires high < 256 && low < 256
    ensures ReadSize(high, low) / 256 == high && ReadSize(high, low) % 256 == low
  {
  }

  lemma TaggedFirst(fd: int, first: Bytes, packets: seq<Bytes>)
    ensures Tagged(fd, [first] + packets) == [Packet(fd, first)] + Tagged(fd, packets)
  {
  }

  /* ---------- a whole history of calls ---------- */

  /** A chunk, the end of a connection, and asking for a packet of the queue. */
  datatype Call = Feed(fd: int, bytes: Bytes) | Shut(fd: int) | Take

  predicate AreCalls(calls: seq<Call>) { forall i :: 0 <= i < |calls| && calls[i].Feed? ==> calls[i].bytes != [] }

  /** What the streams have for these calls. */
  function Events(calls: seq<Call>): seq<Event> {
    if calls == [] then []
    else
      Events(calls[..|calls| - 1]) +
      match calls[|calls| - 1] case Feed(fd, bytes) => [Data(fd, bytes)] case Shut(fd) => [Close(fd)] case Take => []
  }

  /** The packets that the caller has, in the order in which it got them, those that wait in
      the queue, and what is kept. A lone packet goes to the caller at once. */
  datatype Desk = Desk(pending: Pending, got: seq<Packet>, queued: seq<Packet>)

  function DeskStep(d: Desk, c: Call): Desk {
    match c
    case Feed(fd, bytes) =>
      var p := Parse(Kept(d.pending, fd) + bytes);
      var pending := d.pending[fd := p.rest];
      if OutcomeOf(p).OnePacket? then Desk(pending, d.got + [Packet(fd, p.packets[0])], d.queued)
      else Desk(pending, d.got, d.queued + Tagged(fd, p.packets))
    case Shut(fd) => d.(pending := d.pending[fd := []])
    case Take => if d.queued == [] then d else d.(got := d.got + [d.queued[0]], queued := d.queued[1..])
  }

  function Desks(calls: seq<Call>): Desk {
    if calls == [] then Desk(map[], [], []) else DeskStep(Desks(calls[..|calls| - 1]), calls[|calls| - 1])
  }

  /** The caller gets a packet while others wait. */
  predicate Overtakes(d: Desk, c: Call) {
    c.Feed? && OutcomeOf(Parse(Kept(d.pending, c.fd) + c.bytes)).OnePacket? && d.queued != []
  }

  predicate NoneOvertakes(calls: seq<Call>) {
    calls == [] || (NoneOvertakes(calls[..|calls| - 1]) && !Overtakes(Desks(calls[..|calls| - 1]), calls[|calls| - 1]))
  }

  /** What a call does to the streams. */
  function NetStep(n: Net, c: Call): Net {
    match c
    case Feed(fd, bytes) => Step(n, Data(fd, bytes))
    case Shut(fd) => Step(n, Close(fd))
    case Take => n
  }

  lemma MoreEvents(calls: seq<Call>, c: Call)
    ensures Run(Events(calls + [c])) == NetStep(Run(Events(calls)), c)
  {
    hide Step;
    assert (calls + [c])[..|calls|] == calls;
    match c
    case Feed(fd, bytes) => RunSnoc(Events(calls), Data(fd, bytes));
    case Shut(fd) => RunSnoc(Events(calls), Close(fd));
    case Take => assert Events(calls) + [] == Events(calls);
  }

  lemma RunSnoc(events: seq<Event>, e: Event)
    ensures Run(events + [e]) == Step(Run(events), e)
  {
    hide Step;
    assert (events + [e])[..|events|] == events;
  }

  lemma DesksSnoc(calls: seq<Call>, c: Call)
    ensures Desks(calls + [c]) == DeskStep(Desks(calls), c)
    ensures NoneOvertakes(calls + [c]) <==> NoneOvertakes(calls) && !Overtakes(Desks(calls), c)
  {
    hide DeskStep, Overtakes;
    assert (calls + [c])[..|calls|] == calls;
  }

  /** What a call puts behind the packets of the streams: the lone packet that the caller
      gets, or what goes to the queue. */
  lemma FeedOne(d: Desk, n: Net, fd: int, bytes: Bytes)
    requires d.pending == n.pending
    ensures var p := Parse(Kept(d.pending, fd) + bytes);
            var d', n', t := DeskStep(d, Feed(fd, bytes)), Step(n, Data(fd, bytes)), Tagged(fd, p.packets);
            && d'.pending == n'.pending && n'.out == n.out + t
            && if OutcomeOf(p).OnePacket? then d'.got == d.got + t && d'.queued == d.queued
               else d'.got == d.got && d'.queued == d.queued + t
  {
    hide Parse;
    assert Tagged(fd, Parse(Kept(d.pending, fd) + bytes).packets) + [] == Tagged(fd, Parse(Kept(d.pending, fd) + bytes).packets);
  }

  /** Together they are as many of each packet. */
  lemma CountsStep(d: Desk, n: Net, c: Call)
    requires d.pending == n.pending && multiset(d.got + d.queued) == multiset(n.out)
    ensures var d', n' := DeskStep(d, c), NetStep(n, c);
            d'.pending == n'.pending && multiset(d'.got + d'.queued) == multiset(n'.out)
  {
    match c
    case Feed(fd, bytes) =>
      FeedOne(d, n, fd, bytes);
      hide DeskStep, Step, Parse, OutcomeOf, Tagged;
    case Shut(fd) =>
    case Take =>
      if d.queued != [] { assert d.got + d.queued == (d.got + [d.queued[0]]) + d.queued[1..]; }
  }

  lemma OrderStep(d: Desk, n: Net, c: Call)
    requires d.pending == n.pending && d.got + d.queued == n.out && !Overtakes(d, c)
    ensures DeskStep(d, c).got + DeskStep(d, c).queued == NetStep(n, c).out
  {
    match c
    case Feed(fd, bytes) =>
      FeedOne(d, n, fd, bytes);
      hide DeskStep, Step, Parse, OutcomeOf, Tagged;
      assert d.queued == [] ==> d.got + d.queued == d.got;
    case Shut(fd) =>
    case Take =>
      if d.queued != [] { assert d.got + d.queued == (d.got + [d.queued[0]]) + d.queued[1..]; }
  }

  /** In every history, what the caller got and what waits are together exactly the packets of
      the streams, each as often as it is there; and what is kept is what the streams leave. */
  lemma {:induction false} DeskHasAll(calls: seq<Call>)
    ensures var d, n := Desks(calls), Run(Events(calls));
            d.pending == n.pending && multiset(d.got + d.queued) == multiset(n.out)
  {
    hide DeskStep, NetStep, Run, Events;
    if calls == [] {
      NothingRuns();
    } else {
      var before, c := calls[..|calls| - 1], calls[|calls| - 1];
      DeskHasAll(before);
      assert calls == before + [c];
      MoreEvents(before, c);
      CountsStep(Desks(before), Run(Events(before)), c);
    }
  }

  lemma NothingRuns()
    ensures Events([]) == [] && Run([]) == Net(map[], [])
  {
  }

  /** And in the order of the streams, when no lone packet overtakes those that wait. */
  lemma {:induction false} DeskInOrder(calls: seq<Call>)
    requires NoneOvertakes(calls)
    ensures Desks(calls).got + Desks(calls).queued == Run(Events(calls)).out
  {
    hide DeskStep, NetStep, Run, Events, Overtakes;
    if calls == [] {
      NothingRuns();
    } else {
      var before, c := calls[..|calls| - 1], calls[|calls| - 1];
      assert calls == before + [c];
      DesksSnoc(before, c);
      DeskInOrder(before);
      DeskHasAll(before);
      MoreEvents(before, c);
      OrderStep(Desks(before), Run(Events(before)), c);
    }
  }

  /** A packet that overtakes keeps the order exactly when all that wait are the same. */
  lemma OvertakenIff(got: seq<Packet>, queued: seq<Packet>, p: Packet)
    ensures (got + [p]) + queued == (got + queued) + [p] <==> forall k :: 0 <= k < |queued| ==> queued[k] == p
  {
    var a, b := [p] + queued, queued + [p];
    assert (got + [p]) + queued == got + a && (got + queued) + [p] == got + b;
    if got + a == got + b {
      assert a == (got + a)[|got|..] == (got + b)[|got|..] == b;
      SameShifted(queued, p);
    }
    if forall k :: 0 <= k < |queued| ==> queued[k] == p { assert a == b; }
  }

  lemma {:induction false} SameShifted(queued: seq<Packet>, p: Packet)
    requires [p] + queued == queued + [p]
    ensures forall k :: 0 <= k < |queued| ==> queued[k] == p
  {
    var a, b := [p] + queued, queued + [p];
    var k := 0;
    while k < |queued|
      invariant k <= |queued| && forall j :: 0 <= j < k ==> queued[j] == p
    {
      assert a[k] == b[k];
      k := k + 1;
    }
  }

  /** It does happen: two packets wait, and a third one comes alone. */
  lemma Overtaken()
    ensures var calls := [Feed(1, [0, 1, 7, 0, 1, 8]), Feed(1, [0, 1, 9])];
            Desks(calls).got == [Packet(1, [9])] && Desks(calls).queued == [Packet(1, [7]), Packet(1, [8])]
  {
    hide Desks, DeskStep;
    var a, b := Feed(1, [0, 1, 7, 0, 1, 8]), Feed(1, [0, 1, 9]);
    assert [] + [a] == [a] && [a] + [b] == [a, b];
    DesksSnoc([], a);
    DesksSnoc([a], b);
    TwoComeFirst();
    OneComesThen();
    NoDesk();
  }

  lemma NoDesk()
    ensures Desks([]) == Desk(map[], [], [])
  {
  }

  lemma TwoComeFirst()
    ensures DeskStep(Desk(map[], [], []), Feed(1, [0, 1, 7, 0, 1, 8])) ==
            Desk(map[1 := []], [], [Packet(1, [7]), Packet(1, [8])])
  {
    hide Parse;
    var a: Bytes := [0, 1, 7, 0, 1, 8];
    var b := a[3..];
    assert [] + a == a;
    ParseOne(a);
    assert b == [0, 1, 8] && a[2..3] == [7];
    ParseOne(b);
    assert b[2..3] == [8] && b[3..] == [];
    ParseNone([]);
    assert Parse(a) == Parsed([[7], [8]], []);
  }

  lemma OneComesThen()
    ensures DeskStep(Desk(map[1 := []], [], [Packet(1, [7]), Packet(1, [8])]), Feed(1, [0, 1, 9])) ==
            Desk(map[1 := []], [Packet(1, [9])], [Packet(1, [7]), Packet(1, [8])])
  {
    hide Parse;
    var a: Bytes := [0, 1, 9];
    assert [] + a == a;
    ParseOne(a);
    assert a[2..3] == [9] && a[3..] == [];
    ParseNone([]);
    assert Parse(a) == Parsed([[9]], []);
  }

  /** What the table and the queue hold, for one moment of the history. */
  ghost predicate Holds(n: Netpack, got: seq<Packet>, d: Desk)
    requires n.Valid()
    reads n, n.hash, n.queue
  {
    got == d.got && n.Queued() == d.queued && forall fd :: n.KeptOf(fd) == Kept(d.pending, fd)
  }

  method Perform(n: Netpack, c: Call, ghost d: Desk, got: seq<Packet>) returns (got': seq<Packet>)
    requires n.Valid() && Holds(n, got, d) && (c.Feed? ==> c.bytes != [])
    modifies n, n.queue, n.hash
    ensures n.Valid() && (n.queue == old(n.queue) || fresh(n.queue)) && Holds(n, got', DeskStep(d, c))
  {
    hide Parse, Ring, Find, ChainOk, Tagged;
    got' := got;
    match c {
      case Feed(fd, bytes) =>
        NothingMore(fd, Parse(Kept(d.pending, fd) + bytes), d.queued);
        var r := n.FilterData(fd, bytes);
        if r.OnePacket? { got' := got + [Packet(fd, r.data)]; }
      case Shut(fd) =>
        n.CloseUncomplete(fd);
      case Take =>
        var found, packet := n.Pop();
        if found { got' := got + [packet]; }
    }
  }

  lemma NothingMore(fd: int, p: Parsed, queued: seq<Packet>)
    ensures OutcomeOf(p).Nothing? ==> queued + Tagged(fd, p.packets) == queued
  {
  }

  /** Any history of calls. */
  method RunCalls(calls: seq<Call>) returns (n: Netpack, got: seq<Packet>)
    requires AreCalls(calls)
    ensures n.Valid() && Holds(n, got, Desks(calls))
    ensures forall fd :: n.KeptOf(fd) == Kept(Run(Events(calls)).pending, fd)
    ensures multiset(got + n.Queued()) == multiset(Run(Events(calls)).out)
    ensures NoneOvertakes(calls) ==> got + n.Queued() == Run(Events(calls)).out
  {
    hide Run, Events, NoneOvertakes, DeskStep;
    n := new Netpack();
    got := [];
    for k := 0 to |calls|
      invariant fresh(n) && fresh(n.queue) && fresh(n.hash) && n.Valid() && Holds(n, got, Desks(calls[..k]))
    {
      assert calls[..k + 1][..k] == calls[..k];
      got := Perform(n, calls[k], Desks(calls[..k]), got);
    }
    assert calls[..|calls|] == calls;
    DeskHasAll(calls);
    if NoneOvertakes(calls) { DeskInOrder(calls); }
  }
}
