/** The connection to another node: first its number, then messages with a header of four
    bytes. What is sent before its number came waits in a queue. */
module ServiceHarbor {
  import Endian

  type Byte = x: int | 0 <= x < 256
  type Bytes = seq<Byte>

  /* ---------- the meaning of a stream ---------- */

  /** What a stream begins with: not all of a message; or a header that does not begin with 0;
      or a message of `n` bytes. */
  datatype First = Part | TooLong | Message(n: nat)

  function LengthOf(s: Bytes): nat
    requires |s| >= 4
  {
    var b1: int, b2: int, b3: int := s[1], s[2], s[3];
    0x1_0000 * b1 + 0x100 * b2 + b3
  }

  function FirstOf(s: Bytes): (f: First)
    ensures f.Message? ==> 4 + f.n <= |s|
  {
    if |s| < 4 then Part
    else if s[0] != 0 then TooLong
    else if |s| - 4 < LengthOf(s) then Part
    else Message(LengthOf(s))
  }

  datatype Parsed = Parsed(messages: seq<Bytes>, rest: Bytes, closed: bool)

  function After(messages: seq<Bytes>, p: Parsed): Parsed { p.(messages := messages + p.messages) }

  function Frames(s: Bytes): Parsed
    decreases |s|
  {
    match FirstOf(s)
    case Part => Parsed([], s, false)
    case TooLong => Parsed([], [], true)
    case Message(n) => After([s[4..4 + n]], Frames(s[4 + n..]))
  }

  /** More bytes do not change what a stream begins with, unless it was a part. */
  lemma FirstConcat(a: Bytes, b: Bytes)
    requires !FirstOf(a).Part?
    ensures FirstOf(a + b) == FirstOf(a)
  {
  }

  lemma FirstIs(s: Bytes)
    ensures FirstOf(s).Message? ==> 4 + FirstOf(s).n <= |s| && |s[4 + FirstOf(s).n..]| < |s|
    ensures match FirstOf(s)
            case Part => Frames(s) == Parsed([], s, false)
            case TooLong => Frames(s) == Parsed([], [], true)
            case Message(n) => Frames(s) == After([s[4..4 + n]], Frames(s[4 + n..]))
  {
  }

  /** Reading may stop anywhere, and go on with what is left. */
  lemma {:induction false} FramesConcat(a: Bytes, b: Bytes)
    ensures Frames(a + b) == if Frames(a).closed then Frames(a)
                             else After(Frames(a).messages, Frames(Frames(a).rest + b))
    decreases |a|
  {
    hide FirstOf, Frames;
    FirstIs(a);
    FirstIs(a + b);
    if !FirstOf(a).Part? {
      FirstConcat(a, b);
      if FirstOf(a).Message? {
        var n := FirstOf(a).n;
        assert (a + b)[4 + n..] == a[4 + n..] + b && (a + b)[4..4 + n] == a[4..4 + n];
        FramesConcat(a[4 + n..], b);
      }
    }
  }

  /** What was read so far may be kept as it is. */
  lemma FramesGoOn(stream: Bytes, out: seq<Bytes>, rest: Bytes, more: Bytes)
    requires Frames(stream) == After(out, Frames(rest)) && !Frames(rest).closed
    ensures Frames(stream + more) == After(out, Frames(rest + more))
  {
    hide Frames;
    FramesConcat(stream, more);
    FramesConcat(rest, more);
  }

  /* ---------- messages as they are sent ---------- */

  const UINT32_MAX: nat := 0xffff_ffff
  const COOKIE: nat := 12

  /** `send_remote`: a message, with its cookie behind it, has a length of 32 bits. */
  predicate CanSend(m: Bytes) { |m| <= UINT32_MAX }

  /** The messages that are sent of those that were given. */
  function Sendable(messages: seq<Bytes>): (r: seq<Bytes>)
    ensures forall i :: 0 <= i < |r| ==> CanSend(r[i])
  {
    if messages == [] then []
    else
      var k := |messages| - 1;
      Sendable(messages[..k]) + if CanSend(messages[k]) then [messages[k]] else []
  }

  lemma {:induction false} SendableConcat(a: seq<Bytes>, b: seq<Bytes>)
    ensures Sendable(a + b) == Sendable(a) + Sendable(b)
  {
    if b == [] {
      assert a + b == a;
    } else {
      hide CanSend;
      var k := |b| - 1;
      SendableConcat(a, b[..k]);
      assert (a + b)[..|a| + k] == a + b[..k];
    }
  }

  function Packed(m: Bytes): Bytes
    requires CanSend(m)
  {
    [|m| / 0x100_0000, |m| / 0x1_0000 % 0x100, |m| / 0x100 % 0x100, |m| % 0x100] + m
  }

  /** The four digits of a number in base 256. */
  lemma FourDigits(n: nat)
    requires n < 0x1_0000_0000
    ensures 0x100_0000 * (n / 0x100_0000) + 0x1_0000 * (n / 0x1_0000 % 0x100) + 0x100 * (n / 0x100 % 0x100) + n % 0x100 == n
  {
    var a, b := n / 0x100, n / 0x1_0000;
    assert b == a / 0x100 && n / 0x100_0000 == b / 0x100;
  }

  /** In front of a message is its length in four bytes, the highest first. */
  lemma PackedForm(m: Bytes)
    requires CanSend(m)
    ensures |Packed(m)| == 4 + |m| && Endian.BigEndian(Packed(m)[..4]) == |m| && Packed(m)[4..] == m
  {
    var a, b, c, d := |m| / 0x100_0000, |m| / 0x1_0000 % 0x100, |m| / 0x100 % 0x100, |m| % 0x100;
    Endian.FourBytes(a, b, c, d);
    assert Packed(m)[..4] == [a, b, c, d];
    FourDigits(|m|);
  }

  function PackAll(messages: seq<Bytes>): Bytes
    requires forall i :: 0 <= i < |messages| ==> CanSend(messages[i])
  {
    if messages == [] then [] else Packed(messages[0]) + PackAll(messages[1..])
  }

  /** The receiver takes lengths of 24 bits. */
  predicate Short(m: Bytes) { |m| < 0x100_0000 }

  /** The messages in front of the first one that is too long for the receiver. */
  function Shorts(messages: seq<Bytes>): seq<Bytes> {
    if messages == [] || !Short(messages[0]) then [] else [messages[0]] + Shorts(messages[1..])
  }

  lemma OnePacked(m: Bytes, more: Bytes)
    requires CanSend(m)
    ensures Frames(Packed(m) + more) == if Short(m) then After([m], Frames(more)) else Parsed([], [], true)
  {
    hide Frames, FirstOf, LengthOf;
    var s := Packed(m) + more;
    HeadOf(m, s);
    FirstIs(s);
    FirstCases(s);
    if Short(m) { assert s[4..4 + |m|] == m && s[4 + |m|..] == more; }
  }

  lemma HeadOf(m: Bytes, s: Bytes)
    requires CanSend(m) && Packed(m) <= s
    ensures (s[0] == 0 <==> Short(m)) && (Short(m) ==> LengthOf(s) == |m|)
  {
    assert s[..4] == Packed(m)[..4];
    assert forall i :: 0 <= i < 4 ==> s[i] == Packed(m)[i];
  }

  /** The receiver gets the messages up to the first long one, and closes the link at it. */
  lemma {:induction false} FramesPacked(messages: seq<Bytes>)
    requires forall i :: 0 <= i < |messages| ==> CanSend(messages[i])
    ensures Frames(PackAll(messages)) == Parsed(Shorts(messages), [], Shorts(messages) != messages)
    decreases |messages|
  {
    if messages == [] {
      FirstIs([]);
    } else {
      hide Frames, Packed, CanSend, Short;
      var first, more := messages[0], messages[1..];
      FramesPacked(more);
      OnePacked(first, PackAll(more));
      assert messages == [first] + more;
      if Short(first) && Shorts(messages) == messages { assert Shorts(more) == messages[1..]; }
    }
  }

  lemma {:induction false} ShortsAll(messages: seq<Bytes>)
    ensures Shorts(messages) == messages <==> forall i :: 0 <= i < |messages| ==> Short(messages[i])
    decreases |messages|
  {
    if messages != [] {
      hide Short;
      var more := messages[1..];
      ShortsAll(more);
      assert messages == [messages[0]] + more;
      if Short(messages[0]) {
        assert Shorts(messages)[1..] == Shorts(more);
        forall i | 0 <= i < |more| ensures more[i] == messages[i + 1] { }
        assert Shorts(more) == more ==> forall i :: 1 <= i < |messages| ==> Short(messages[i]) by {
          if Shorts(more) == more {
            forall i | 1 <= i < |messages| ensures Short(messages[i]) { assert messages[i] == more[i - 1]; }
          }
        }
      }
    }
  }

  /** A list of messages arrives, and the link stays open, exactly when all of them are
      shorter than 16 MB. */
  lemma ArrivesIff(messages: seq<Bytes>)
    requires forall i :: 0 <= i < |messages| ==> CanSend(messages[i])
    ensures Frames(PackAll(messages)) == Parsed(messages, [], false) <==>
            forall i :: 0 <= i < |messages| ==> Short(messages[i])
  {
    hide Frames, Short, CanSend;
    FramesPacked(messages);
    ShortsAll(messages);
  }

  /** `forward_local_messsage`: the cookie is at the end. Of a shorter message it is read in
      front of the buffer. */
  datatype Forwarded = To(data: Bytes, cookie: Bytes) | Outside

  function ForwardLocal(m: Bytes): Forwarded {
    if |m| < COOKIE then Outside else To(m[..|m| - COOKIE], m[|m| - COOKIE..])
  }

  /** What another node sends is taken apart again. */
  lemma CookieBack(data: Bytes, cookie: Bytes)
    requires |cookie| == COOKIE
    ensures ForwardLocal(data + cookie) == To(data, cookie)
  {
  }

  /* ---------- the link as a function ---------- */

  /** A chunk that comes from the other node, or a message that goes there. */
  datatype Event = Chunk(data: Bytes) | Send(m: Bytes)

  predicate IsEvent(e: Event) { e.Chunk? ==> e.data != [] }

  predicate AreEvents(events: seq<Event>) { forall i :: 0 <= i < |events| ==> IsEvent(events[i]) }

  datatype State = Waiting | Up(rest: Bytes) | Closed

  /** What was sent, and what waits for the number of the other node. */
  datatype Link = Link(state: State, wire: seq<Bytes>, queue: seq<Bytes>)

  const EMPTY: Bytes := [0, 0, 0, 0]

  /** A last message without data is not forwarded before there are more bytes. */
  predicate EndsEmpty(p: Parsed) {
    !p.closed && p.rest == [] && p.messages != [] && p.messages[|p.messages| - 1] == []
  }

  function Out(p: Parsed): seq<Bytes> { if EndsEmpty(p) then p.messages[..|p.messages| - 1] else p.messages }

  function Kept(p: Parsed): State { if p.closed then Closed else Up(if EndsEmpty(p) then EMPTY else p.rest) }

  function Step(id: nat, l: Link, e: Event): Link
    requires IsEvent(e)
  {
    match e
    case Send(m) =>
      (match l.state
       case Waiting => l.(queue := l.queue + [m])
       case Up(_) => l.(wire := l.wire + Sendable([m]))
       case Closed => l)
    case Chunk(data) =>
      (match l.state
       case Waiting =>
         if data[0] != id then Link(Closed, l.wire, [])
         else Link(Kept(Frames(data[1..])), l.wire + Sendable(l.queue), [])
       case Up(rest) => l.(state := Kept(Frames(rest + data)))
       case Closed => l)
  }

  /** What is forwarded. */
  function Gives(id: nat, l: Link, e: Event): seq<Bytes>
    requires IsEvent(e)
  {
    match e
    case Send(m) => []
    case Chunk(data) =>
      (match l.state
       case Waiting => if data[0] != id then [] else Out(Frames(data[1..]))
       case Up(rest) => Out(Frames(rest + data))
       case Closed => [])
  }

  /** `S` and `A`: with a number to wait for, or without. */
  function Start(wait: bool, queue: seq<Bytes>): Link {
    if wait then Link(Waiting, [], queue) else Link(Up([]), Sendable(queue), [])
  }

  datatype Node = Node(link: Link, forwarded: seq<Bytes>)

  function Run(id: nat, wait: bool, queue: seq<Bytes>, events: seq<Event>): Node
    requires AreEvents(events)
  {
    if events == [] then Node(Start(wait, queue), [])
    else
      var k := |events| - 1;
      var n := Run(id, wait, queue, events[..k]);
      Node(Step(id, n.link, events[k]), n.forwarded + Gives(id, n.link, events[k]))
  }

  function Stream(events: seq<Event>): Bytes {
    if events == [] then []
    else Stream(events[..|events| - 1]) + match events[|events| - 1] case Chunk(data) => data case Send(_) => []
  }

  function Sends(events: seq<Event>): seq<Bytes> {
    if events == [] then []
    else Sends(events[..|events| - 1]) + match events[|events| - 1] case Chunk(_) => [] case Send(m) => [m]
  }

  /** The messages of the stream, behind the number when there is one. */
  function Body(wait: bool, stream: Bytes): Bytes { if wait && stream != [] then stream[1..] else stream }

  predicate Wrong(id: nat, wait: bool, stream: Bytes) { wait && stream != [] && stream[0] != id }

  predicate Over(id: nat, wait: bool, stream: Bytes) {
    Wrong(id, wait, stream) || Frames(Body(wait, stream)).closed
  }

  /** The messages that were given before the link was closed. */
  function Went(id: nat, wait: bool, events: seq<Event>): seq<Bytes> {
    if events == [] then []
    else
      var before := events[..|events| - 1];
      if Over(id, wait, Stream(before)) then Went(id, wait, before) else Sends(events)
  }

  /** Going on with what is kept is going on with the stream. */
  lemma OutConcat(stream: Bytes, data: Bytes)
    requires !Frames(stream).closed
    ensures var p := Frames(stream);
            var all, q := Frames(stream + data), Frames(Kept(p).rest + data);
            Out(all) == Out(p) + Out(q) && Kept(all) == Kept(q)
  {
    hide Frames;
    var p := Frames(stream);
    FramesConcat(stream, data);
    if EndsEmpty(p) {
      EmptyFirst(data);
      assert [] + data == data && p.messages == Out(p) + [[]];
      AfterAfter(Out(p), [[]], Frames(data));
      OutAfter(Out(p), Frames(EMPTY + data));
    } else if p.rest + data == [] {
      FirstIs([]);
      assert p.messages + [] == p.messages;
    } else {
      NotNothing(p.rest + data);
      OutAfter(p.messages, Frames(p.rest + data));
    }
  }

  lemma EmptyFirst(data: Bytes)
    ensures Frames(EMPTY + data) == After([[]], Frames(data))
  {
    hide Frames;
    var s := EMPTY + data;
    FirstIs(s);
    assert s[4..4 + 0] == [] && s[4 + 0..] == data;
  }

  lemma NotNothing(s: Bytes)
    requires s != []
    ensures var p := Frames(s); p.closed || p.messages != [] || p.rest != []
  {
    hide FirstOf;
    FirstIs(s);
  }

  lemma OutAfter(messages: seq<Bytes>, p: Parsed)
    requires p.closed || p.messages != [] || p.rest != []
    ensures Out(After(messages, p)) == messages + Out(p) && Kept(After(messages, p)) == Kept(p)
  {
    var all := After(messages, p);
    if p.messages != [] { assert all.messages[|all.messages| - 1] == p.messages[|p.messages| - 1]; }
  }

  lemma AfterAfter(a: seq<Bytes>, b: seq<Bytes>, p: Parsed)
    ensures After(a, After(b, p)) == After(a + b, p)
  {
    assert a + (b + p.messages) == (a + b) + p.messages;
  }

  /** What a link is after some events. */
  ghost predicate LinkIs(id: nat, wait: bool, queue: seq<Bytes>, events: seq<Event>, n: Node) {
    var s := Stream(events);
    if wait && s == [] then n == Node(Link(Waiting, [], queue + Sends(events)), [])
    else if Wrong(id, wait, s) then n == Node(Link(Closed, [], []), [])
    else
      var p := Frames(Body(wait, s));
      n == Node(Link(Kept(p), Sendable(queue + Went(id, wait, events)), []), Out(p))
  }

  lemma MoreEvents(events: seq<Event>, e: Event)
    ensures Stream(events + [e]) == if e.Chunk? then Stream(events) + e.data else Stream(events)
    ensures Sends(events + [e]) == if e.Send? then Sends(events) + [e.m] else Sends(events)
  {
    assert (events + [e])[..|events|] == events;
  }

  lemma MoreWent(id: nat, wait: bool, events: seq<Event>, e: Event)
    ensures Went(id, wait, events + [e]) ==
            if Over(id, wait, Stream(events)) then Went(id, wait, events) else Sends(events + [e])
  {
    assert (events + [e])[..|events|] == events;
  }

  /** As long as the link is open, all that was given went out. */
  lemma {:induction false} WentAll(id: nat, wait: bool, events: seq<Event>)
    requires !Over(id, wait, Stream(events))
    ensures Went(id, wait, events) == Sends(events)
  {
    if events != [] {
      var before, e := events[..|events| - 1], events[|events| - 1];
      assert before + [e] == events;
      MoreWent(id, wait, before, e);
      MoreEvents(before, e);
      if Over(id, wait, Stream(before)) && e.Chunk? { StaysOver(id, wait, Stream(before), e.data); }
    }
  }

  lemma StaysOver(id: nat, wait: bool, stream: Bytes, data: Bytes)
    requires Over(id, wait, stream)
    ensures stream != [] && Over(id, wait, stream + data) && Wrong(id, wait, stream + data) == Wrong(id, wait, stream)
    ensures !Wrong(id, wait, stream) ==> Frames(Body(wait, stream + data)) == Frames(Body(wait, stream))
  {
    hide Frames;
    if stream == [] { FirstIs([]); }
    assert stream != [] && (stream + data)[0] == stream[0];
    assert Body(wait, stream + data) == Body(wait, stream) + data;
    FramesConcat(Body(wait, stream), data);
  }

  lemma LinkSends(id: nat, wait: bool, queue: seq<Bytes>, events: seq<Event>, m: Bytes, n: Node)
    requires LinkIs(id, wait, queue, events, n)
    ensures LinkIs(id, wait, queue, events + [Send(m)], Node(Step(id, n.link, Send(m)), n.forwarded + Gives(id, n.link, Send(m))))
  {
    hide Frames, Sendable, Went, Stream, Sends;
    var e := Send(m);
    var over := Over(id, wait, Stream(events));
    MoreEvents(events, e);
    MoreWent(id, wait, events, e);
    if !over { WentAll(id, wait, events); }
    assert n.forwarded + [] == n.forwarded;
    assert queue + (Sends(events) + [m]) == (queue + Sends(events)) + [m];
    SendableConcat(queue + Sends(events), [m]);
  }

  lemma LinkHears(id: nat, wait: bool, queue: seq<Bytes>, events: seq<Event>, data: Bytes, n: Node)
    requires LinkIs(id, wait, queue, events, n) && data != []
    ensures LinkIs(id, wait, queue, events + [Chunk(data)],
                   Node(Step(id, n.link, Chunk(data)), n.forwarded + Gives(id, n.link, Chunk(data))))
  {
    hide Frames, Sendable, Went, Stream, Sends, Out, Kept;
    var e, stream := Chunk(data), Stream(events);
    MoreEvents(events, e);
    MoreWent(id, wait, events, e);
    assert n.forwarded + [] == n.forwarded && [] + Out(Frames(data[1..])) == Out(Frames(data[1..]));
    if Over(id, wait, stream) {
      StaysOver(id, wait, stream, data);
      ClosedLink(Frames(Body(wait, stream)));
    } else {
      WentAll(id, wait, events);
      if wait && stream == [] {
        assert stream + data == data && [] + Sendable(queue + Sends(events)) == Sendable(queue + Sends(events));
      } else {
        assert stream != [] ==> (stream + data)[0] == stream[0];
        assert Body(wait, stream + data) == Body(wait, stream) + data;
        OpenLink(Frames(Body(wait, stream)));
        OutConcat(Body(wait, stream), data);
      }
    }
  }

  lemma ClosedLink(p: Parsed)
    ensures p.closed ==> Kept(p) == Closed
  {
  }

  lemma OpenLink(p: Parsed)
    ensures !p.closed ==> Kept(p).Up?
  {
  }

  lemma LinkBegins(id: nat, wait: bool, queue: seq<Bytes>)
    ensures LinkIs(id, wait, queue, [], Node(Start(wait, queue), []))
  {
    hide Frames;
    FirstIs([]);
    assert queue + [] == queue;
  }

  /** However the stream is cut, and whatever is sent in between: what is forwarded and what
      is kept are a function of the stream alone; what goes out is what was given, in order,
      up to the close, and nothing before the right number came. */
  lemma {:induction false} RunIs(id: nat, wait: bool, queue: seq<Bytes>, events: seq<Event>)
    requires AreEvents(events)
    ensures LinkIs(id, wait, queue, events, Run(id, wait, queue, events))
  {
    hide LinkIs, Step, Gives, Start;
    if events == [] {
      LinkBegins(id, wait, queue);
    } else {
      var k := |events| - 1;
      var before, e := events[..k], events[k];
      RunIs(id, wait, queue, before);
      assert before + [e] == events && IsEvent(e);
      var n := Run(id, wait, queue, before);
      match e
      case Send(m) => LinkSends(id, wait, queue, before, m, n);
      case Chunk(data) => LinkHears(id, wait, queue, before, data, n);
    }
  }

  /** Two links with the same stream forward the same. */
  lemma SameStream(id: nat, wait: bool, a: seq<Event>, b: seq<Event>, queue: seq<Bytes>, other: seq<Bytes>)
    requires AreEvents(a) && AreEvents(b) && Stream(a) == Stream(b)
    ensures Run(id, wait, queue, a).forwarded == Run(id, wait, other, b).forwarded
    ensures Run(id, wait, queue, a).link.state == Run(id, wait, other, b).link.state
  {
    hide Run, Stream, Frames;
    RunIs(id, wait, queue, a);
    RunIs(id, wait, other, b);
  }

  /** What a node sends, its number and its messages, each with a cookie, arrives up to the
      first message that is too long; exactly such a message closes the link. */
  lemma Delivered(id: Byte, queue: seq<Bytes>, events: seq<Event>, messages: seq<Bytes>)
    requires AreEvents(events) && forall i :: 0 <= i < |messages| ==> COOKIE <= |messages[i]| && CanSend(messages[i])
    requires Stream(events) == [id] + PackAll(messages)
    ensures var n := Run(id, true, queue, events);
            && n.forwarded == Shorts(messages)
            && (n.link.state == Closed <==> exists i :: 0 <= i < |messages| && !Short(messages[i]))
            && forall i :: 0 <= i < |n.forwarded| ==> ForwardLocal(n.forwarded[i]).To?
  {
    hide Frames, CanSend, Short, Run, Stream;
    RunIs(id, true, queue, events);
    assert Body(true, Stream(events)) == PackAll(messages);
    FramesPacked(messages);
    ShortsAll(messages);
    ShortsOf(messages);
    hide Shorts;
    assert !EndsEmpty(Frames(PackAll(messages)));
  }

  lemma {:induction false} ShortsOf(messages: seq<Bytes>)
    requires forall i :: 0 <= i < |messages| ==> COOKIE <= |messages[i]|
    ensures forall i :: 0 <= i < |Shorts(messages)| ==> COOKIE <= |Shorts(messages)[i]|
    decreases |messages|
  {
    hide Short;
    if messages != [] { ShortsOf(messages[1..]); }
  }

  /* ---------- one connection ---------- */

  datatype Status = Handshake | Header | Content | Down

  /** A message of `n` bytes behind its header, when the end of it is in the next chunk. */
  lemma ContentSplit(header: Bytes, part: Bytes, data: Bytes, n: nat)
    requires |header| == 4 && |part| <= n
    ensures var s, need := header + part + data, n - |part|;
            need <= |data| ==> s[4..4 + n] == part + data[..need] && s[4 + n..] == data[need..]
  {
    var s := header + part + data;
    assert s[4..] == part + data;
  }

  class Slave {
    const id: nat
    var status: Status
    var length: nat
    var read: nat
    const size: array<Byte>
    var buffer: array<Byte>       // `recv_buffer`
    var queue: seq<Bytes>         // what waits for the number of the other node
    var wire: seq<Bytes>          // what was sent to it

    ghost predicate Valid() reads this, size, buffer {
      && size.Length == 4 && size != buffer
      && (status == Handshake ==> read == 0)
      && (status == Header ==> read < 4)
      && (status == Content ==>
            && buffer.Length == length && (read < length || length == 0 == read)
            && size[0] == 0 && LengthOf(size[..]) == length)
      && (status != Handshake ==> queue == [])
    }

    /** The bytes of the message that is under way. */
    ghost function Rest(): Bytes
      requires Valid()
      reads this, size, buffer
    {
      match status
      case Header => size[..read]
      case Content => size[..] + buffer[..read]
      case _ => []
    }

    ghost function Now(): Link
      requires Valid()
      reads this, size, buffer
    {
      Link(match status case Handshake => Waiting case Down => Closed case _ => Up(Rest()), wire, queue)
    }

    constructor (id: nat, wait: bool, queue: seq<Bytes>)
      ensures Valid() && fresh(size) && fresh(buffer) && this.id == id && Now() == Start(wait, queue)
    {
      this.id := id;
      status := if wait then Handshake else Header;
      length, read := 0, 0;
      size := new Byte[4](_ => 0);
      buffer := new Byte[0](_ => 0);
      this.queue := queue;
      wire := [];
      new;
      if !wait { DispatchQueue(); }
      assert size[..0] == [];
    }

    /** `close_harbor` */
    method CloseHarbor()
      requires Valid()
      modifies this`status, this`queue
      ensures Valid() && status == Down && queue == []
    {
      status := Down;
      queue := [];
    }

    /** `dispatch_queue` */
    method DispatchQueue()
      modifies this`queue, this`wire
      ensures queue == [] && wire == old(wire) + Sendable(old(queue))
    {
      hide CanSend, Sendable;
      ghost var sent: seq<Bytes> := [];
      NothingToSend();
      while queue != []
        invariant sent + queue == old(queue) && wire == old(wire) + Sendable(sent)
        decreases |queue|
      {
        SendableConcat(sent, [queue[0]]);
        sent := sent + [queue[0]];
        SendRemote(queue[0]);
        queue := queue[1..];
      }
      assert sent + [] == sent;
    }

    /** `send_remote`: a message that is too large is refused. */
    method SendRemote(m: Bytes)
      modifies this`wire
      ensures wire == old(wire) + Sendable([m])
    {
      OneToSend(m);
      hide Sendable;
      if |m| > UINT32_MAX { return; }
      wire := wire + [m];
    }

    /** A message to the other node. A connection that is down takes it, and it is lost. */
    method RemoteSend(m: Bytes)
      requires Valid()
      modifies this`queue, this`wire
      ensures Valid() && Now() == Step(id, old(Now()), Send(m))
    {
      match status
      case Handshake => queue := queue + [m];
      case Down =>
      case _ => SendRemote(m);
    }

    static method CopyInto(dst: array<Byte>, at: nat, src: Bytes)
      requires at + |src| <= dst.Length
      modifies dst
      ensures dst[..at + |src|] == old(dst[..at]) + src
    {
      for i := 0 to |src|
        invariant dst[..at] == old(dst[..at]) && dst[at..at + i] == src[..i]
      {
        dst[at + i] := src[i];
        assert dst[at..at + i + 1] == dst[at..at + i] + [src[i]] && src[..i + 1] == src[..i] + [src[i]];
      }
      assert dst[..at + |src|] == dst[..at] + dst[at..at + |src|] && src[..|src|] == src;
    }

    /** The header: when it is complete, the message begins. */
    method TakeHeader(data: Bytes) returns (left: Bytes)
      requires Valid() && status == Header
      modifies this`status, this`length, this`read, this`buffer, this`queue, size
      ensures Valid() && (buffer == old(buffer) || fresh(buffer)) && queue == []
      ensures var s := old(Rest()) + data;
              if |s| < 4 then status == Header && Rest() == s && left == []
              else if s[0] != 0 then status == Down
              else status == Content && Rest() == s[..4] && left == s[4..] && length == LengthOf(s)
    {
      ghost var s := Rest() + data;
      var need := 4 - read;
      if |data| < need {
        CopyInto(size, read, data);
        read := read + |data|;
        return [];
      }
      CopyInto(size, read, data[..need]);
      left := data[need..];
      assert size[..] == size[..4] == s[..4];
      assert left == s[4..];
      if size[0] != 0 {
        CloseHarbor();
        return;
      }
      length, read := LengthOf(size[..]), 0;
      buffer := new Byte[length](_ => 0);
      status := Content;
      assert size[..] + buffer[..0] == size[..];
    }

    /** The data of a message. */
    method TakeContent(data: Bytes) returns (done: bool, left: Bytes, message: Bytes)
      requires Valid() && status == Content
      modifies this`status, this`length, this`read, this`buffer, buffer
      ensures Valid() && buffer == old(buffer)
      ensures var s, n := old(Rest()) + data, old(length);
              if |s| - 4 < n then !done && status == Content && Rest() == s && length == n
              else done && status == Header && Rest() == [] && message == s[4..4 + n] && left == s[4 + n..]
    {
      ContentSplit(size[..], buffer[..read], data, length);
      var need := length - read;
      if |data| < need {
        CopyInto(buffer, read, data);
        read := read + |data|;
        assert size[..] + buffer[..read] == old(Rest()) + data;
        return false, [], [];
      }
      CopyInto(buffer, read, data[..need]);
      assert buffer[..] == buffer[..length];
      done, left, message := true, data[need..], buffer[..];
      length, read := 0, 0;
      status := Header;
    }

    /** `push_socket_data`: a chunk came. */
    method PushSocketData(data: Bytes) returns (forwarded: seq<Bytes>)
      requires Valid() && data != []
      modifies this, size, buffer
      ensures Valid() && (buffer == old(buffer) || fresh(buffer))
      ensures Now() == Step(id, old(Now()), Chunk(data)) && forwarded == Gives(id, old(Now()), Chunk(data))
    {
      hide Frames, FirstOf, Out, Kept;
      var buf := data;
      if status == Down { return []; }
      if status == Handshake {
        if buf[0] != id {
          CloseHarbor();
          return [];
        }
        buf := buf[1..];
        status := Header;
        DispatchQueue();
        assert Rest() == [] && Rest() + buf == data[1..];
      }
      forwarded := Receive(buf);
    }

    /** Its loop over the messages. */
    method Receive(data: Bytes) returns (forwarded: seq<Bytes>)
      requires Valid() && (status == Header || (status == Content && data != []))
      modifies this`status, this`length, this`read, this`buffer, this`queue, size, buffer
      ensures Valid() && (buffer == old(buffer) || fresh(buffer)) && queue == []
      ensures status != Handshake && Now().state == Kept(Frames(old(Rest()) + data))
      ensures forwarded == Out(Frames(old(Rest()) + data))
    {
      hide Frames, FirstOf, Valid, Rest, Out, Kept;
      ghost var all := Rest() + data;
      var left := data;
      forwarded := [];
      while true
        invariant Valid() && (buffer == old(buffer) || fresh(buffer)) && (status == Header || (status == Content && left != []))
        invariant left == [] ==> forwarded == []
        invariant Frames(all) == After(forwarded, Frames(Rest() + left))
        decreases |Rest() + left|
      {
        ghost var s, before := Rest() + left, forwarded;
        FirstIs(s);
        var more, messages;
        more, left, messages := ReceiveOne(left);
        forwarded := forwarded + messages;
        LoopEnds(s, before);
        AfterAfter(before, messages, Frames(left));
        if !more { return; }
        assert [] + left == left;
      }
    }

    /** One round of the loop. A message without data goes out only when more has come. */
    method ReceiveOne(data: Bytes) returns (more: bool, left: Bytes, messages: seq<Bytes>)
      requires Valid() && (status == Header || (status == Content && data != []))
      modifies this`status, this`length, this`read, this`buffer, this`queue, size, buffer
      ensures Valid() && (buffer == old(buffer) || fresh(buffer)) && queue == []
      ensures var s := old(Rest()) + data;
              match FirstOf(s)
              case Part => !more && messages == [] && (status == Header || status == Content) && Rest() == s
              case TooLong => !more && messages == [] && status == Down
              case Message(n) =>
                if |s| == 4 then !more && messages == [] && status == Content && Rest() == s
                else messages == [s[4..4 + n]] && status == Header && Rest() == [] && left == s[4 + n..] && more == (left != [])
    {
      hide FirstOf, LengthOf;
      ghost var s := Rest() + data;
      FirstCases(s);
      left, messages := data, [];
      if status == Header {
        left := TakeHeader(left);
        if status != Content { return false, left, []; }
        assert s == Rest() + left;
        if left == [] {
          assert s == Rest();
          return false, left, [];
        }
      }
      assert s[..4] == size[..];
      var message;
      more, left, message := TakeContent(left);
      if more {
        messages := [message];
        more := left != [];
      }
    }
  }

  /** Where the loop ends: behind all of the stream, in front of a message, or at one without
      data that is the last. */
  lemma LoopEnds(s: Bytes, before: seq<Bytes>)
    ensures var p := After(before, Frames(s));
            match FirstOf(s)
            case Part => (s == [] ==> before == []) ==> Kept(p) == Up(s) && Out(p) == before + []
            case TooLong => Kept(p) == Closed && Out(p) == before + []
            case Message(n) =>
              if |s| == 4 then Kept(p) == Up(s) && Out(p) == before + []
              else s[4 + n..] == [] ==> Kept(p) == Up([]) && Out(p) == before + [s[4..4 + n]]
  {
    hide Frames, FirstOf, Out, Kept;
    FirstIs(s);
    match FirstOf(s)
    case Part => EndsAt(before, [], s);
    case TooLong => EndsClosed(before);
    case Message(n) =>
      if |s| == 4 {
        ZeroLength(s);
        LateMessage(before);
      } else if s[4 + n..] == [] {
        FirstIs([]);
        NothingIsPart();
        assert n == |s| - 4;
        EndsAt(before, [s[4..4 + n]], []);
      }
  }

  lemma NothingIsPart()
    ensures FirstOf([]) == Part
  {
  }

  lemma EndsAt(before: seq<Bytes>, last: seq<Bytes>, s: Bytes)
    requires last != [] ==> last[|last| - 1] != []
    ensures (s == [] && last == [] ==> before == []) ==>
              var p := Parsed(before + last, s, false); Kept(p) == Up(s) && Out(p) == before + last
    ensures After(before, Parsed([], s, false)) == Parsed(before + [], s, false)
    ensures After(before, After(last, Parsed([], s, false))) == Parsed(before + last, s, false)
  {
    assert last + [] == last;
  }

  lemma EndsClosed(before: seq<Bytes>)
    ensures var p := After(before, Parsed([], [], true)); Kept(p) == Closed && Out(p) == before + []
  {
  }

  /** The message without data at the end of the stream. */
  lemma LateMessage(before: seq<Bytes>)
    ensures var p := After(before, Frames(EMPTY)); Kept(p) == Up(EMPTY) && Out(p) == before + []
  {
    hide Frames;
    EmptyFirst([]);
    assert EMPTY + [] == EMPTY;
    NothingIsPart();
    FirstIs([]);
    hide FirstOf;
    var p := After(before, Frames(EMPTY));
    assert p == Parsed(before + [[]], [], false);
    assert p.messages[..|p.messages| - 1] == before;
  }

  lemma ZeroLength(s: Bytes)
    requires |s| == 4 && FirstOf(s).Message?
    ensures s == EMPTY && FirstOf(s).n == 0
  {
  }

  lemma FirstCases(s: Bytes)
    ensures FirstOf(s) == if |s| < 4 then Part else if s[0] != 0 then TooLong
                          else if |s| - 4 < LengthOf(s) then Part else Message(LengthOf(s))
    ensures |s| >= 4 ==> LengthOf(s) == LengthOf(s[..4])
  {
  }

  lemma NothingToSend()
    ensures Sendable([]) == []
  {
  }

  lemma OneToSend(m: Bytes)
    ensures Sendable([m]) == if |m| > UINT32_MAX then [] else [m]
  {
    assert [m][..0] == [];
  }

  /* ---------- a whole connection ---------- */

  /** Any run of chunks and of messages to the other node, on a link that waits for the number
      of the other node, or not. */
  method RunHarbor(id: nat, wait: bool, queue: seq<Bytes>, events: seq<Event>) returns (s: Slave, forwarded: seq<Bytes>)
    requires AreEvents(events)
    ensures s.Valid() && s.id == id && LinkIs(id, wait, queue, events, Node(s.Now(), forwarded))
  {
    hide Frames, FirstOf, Step, Gives, Start, LinkIs;
    s := new Slave(id, wait, queue);
    forwarded := [];
    for k := 0 to |events|
      invariant fresh(s) && fresh(s.size) && fresh(s.buffer) && s.Valid() && s.id == id
      invariant Run(id, wait, queue, events[..k]) == Node(s.Now(), forwarded)
    {
      assert events[..k + 1][..k] == events[..k] && IsEvent(events[k]);
      match events[k] {
        case Chunk(data) =>
          var more := s.PushSocketData(data);
          forwarded := forwarded + more;
        case Send(m) =>
          NoGift(id, s.Now(), m, forwarded);
          s.RemoteSend(m);
      }
    }
    assert events[..|events|] == events;
    RunIs(id, wait, queue, events);
  }

  lemma NoGift(id: nat, l: Link, m: Bytes, forwarded: seq<Bytes>)
    ensures forwarded + Gives(id, l, Send(m)) == forwarded
  {
  }
}
