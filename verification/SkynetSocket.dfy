/** The write lists of a TCP socket: two priorities, partial writes, and the half-closed
    socket that is closed when everything has been sent. */
module SkynetSocket {

  type Byte = bv8

  /** A message that a service asked to send. */
  datatype Request = Request(data: seq<Byte>, low: bool)

  /** A message with what the system has taken of it: the pointer moves, the size shrinks. */
  datatype WriteBuffer = WriteBuffer(request: Request, sent: nat)

  datatype Kind = INVALID | CONNECTING | CONNECTED | HALFCLOSE | PACCEPT | PLISTEN | LISTEN

  /** What the system answers to a write. */
  datatype Answer = Wrote(n: nat) | Interrupted | Again | Failed

  /** What a write gets, and the answers that are left for the next ones. A system that has
      no answer takes nothing. */
  datatype Reply = Reply(r: Answer, left: seq<Answer>)

  function Asked(answers: seq<Answer>, size: nat): (p: Reply)
    ensures p.r.Wrote? ==> p.r.n <= size
    ensures |p.left| <= |answers| && (p.r == Interrupted || answers != [] ==> |p.left| < |answers|)
  {
    if answers == [] then Reply(Again, [])
    else
      match answers[0]
      case Wrote(n) => Reply(Wrote(if n > size then size else n), answers[1..])
      case _ => Reply(answers[0], answers[1..])
  }

  /** The system may take any prefix, or say anything else. */
  lemma AnyAnswer(r: Answer, size: nat, later: seq<Answer>)
    requires r.Wrote? ==> r.n <= size
    ensures Asked([r] + later, size) == Reply(r, later)
  {
    assert ([r] + later)[1..] == later;
  }

  /** The bytes that an answer takes. */
  function Taken(r: Answer): nat { if r.Wrote? then r.n else 0 }

  /** The same, when interrupted writes are tried again. */
  function AskedAgain(answers: seq<Answer>, size: nat): (p: Reply)
    ensures p.r != Interrupted && (p.r.Wrote? ==> p.r.n <= size)
    ensures |p.left| <= |answers| && (answers != [] ==> |p.left| < |answers|)
    decreases |answers|
  {
    if Asked(answers, size).r == Interrupted then AskedAgain(Asked(answers, size).left, size) else Asked(answers, size)
  }

  /** The other side of a socket: the bytes that went out, and the answers to come. */
  class Descriptor {
    var wire: seq<Byte>
    var answers: seq<Answer>
    var blocked: bool      // the last write was not taken as a whole
    var failed: bool       // a write failed

    constructor (answers: seq<Answer>)
      ensures wire == [] && !blocked && !failed
    {
      wire, this.answers, blocked, failed := [], answers, false, false;
    }

    /** Takes any prefix, or nothing. */
    method Write(data: seq<Byte>) returns (r: Answer)
      modifies this
      ensures Reply(r, answers) == Asked(old(answers), |data|)
      ensures r.Wrote? ==> wire == old(wire) + data[..r.n]
      ensures !r.Wrote? ==> wire == old(wire)
      ensures blocked == (r != Wrote(|data|)) && failed == (old(failed) || r == Failed)
    {
      r := Again;
      if answers != [] {
        r := answers[0];
        answers := answers[1..];
        if r.Wrote? {
          if r.n > |data| { r := Wrote(|data|); }
          wire := wire + data[..r.n];
        }
      }
      blocked := r != Wrote(|data|);
      failed := failed || r == Failed;
    }

    /** Tries again when a signal got in the way. */
    method WriteAgain(data: seq<Byte>) returns (r: Answer)
      modifies this
      ensures Reply(r, answers) == AskedAgain(old(answers), |data|)
      ensures r.Wrote? ==> wire == old(wire) + data[..r.n]
      ensures !r.Wrote? ==> wire == old(wire)
      ensures blocked == (r != Wrote(|data|)) && failed == (old(failed) || r == Failed)
    {
      r := Write(data);
      while r == Interrupted
        invariant r.Wrote? ==> r.n <= |data|
        invariant r.Wrote? ==> wire == old(wire) + data[..r.n]
        invariant !r.Wrote? ==> wire == old(wire)
        invariant blocked == (r != Wrote(|data|)) && failed == (old(failed) || r == Failed)
        invariant AskedAgain(old(answers), |data|) == if r == Interrupted then AskedAgain(answers, |data|) else Reply(r, answers)
        decreases |answers|, r == Interrupted
      {
        r := Write(data);
      }
    }
  }

  /* ---------- lists of messages ---------- */

  function Flat(requests: seq<Request>): seq<Byte> {
    if requests == [] then [] else Flat(requests[..|requests| - 1]) + requests[|requests| - 1].data
  }

  function Requests(list: seq<WriteBuffer>): seq<Request> {
    seq(|list|, i requires 0 <= i < |list| => list[i].request)
  }

  /** The bytes that are still to be sent. */
  function Unsent(list: seq<WriteBuffer>): int {
    if list == [] then 0 else |list[0].request.data| - list[0].sent + Unsent(list[1..])
  }

  /** What has been taken of the message at the front. */
  function Partial(list: seq<WriteBuffer>): seq<Byte>
    requires list != [] ==> list[0].sent <= |list[0].request.data|
  {
    if list == [] then [] else list[0].request.data[..list[0].sent]
  }

  /** Only the message at the front may be partly sent. */
  predicate FrontOnly(list: seq<WriteBuffer>) {
    && (list != [] ==> list[0].sent <= |list[0].request.data|)
    && forall i :: 0 < i < |list| ==> list[i].sent == 0
  }

  /** The messages of a priority, in order. */
  function Of(requests: seq<Request>, low: bool): seq<Request> {
    if requests == [] then []
    else
      var rest := Of(requests[..|requests| - 1], low);
      if requests[|requests| - 1].low == low then rest + [requests[|requests| - 1]] else rest
  }

  lemma FlatSnoc(requests: seq<Request>, r: Request)
    ensures Flat(requests + [r]) == Flat(requests) + r.data
  {
    assert (requests + [r])[..|requests|] == requests;
  }

  lemma OfSnoc(a: seq<Request>, r: Request, low: bool)
    ensures Of(a + [r], low) == if r.low == low then Of(a, low) + [r] else Of(a, low)
  {
    assert (a + [r])[..|a|] == a;
  }

  lemma {:induction false} OfAppend(a: seq<Request>, b: seq<Request>, low: bool)
    ensures Of(a + b, low) == Of(a, low) + Of(b, low)
  {
    if b == [] {
      assert a + b == a;
    } else {
      hide Of;
      var front, last := b[..|b| - 1], b[|b| - 1];
      OfAppend(a, front, low);
      assert b == front + [last] && a + b == (a + front) + [last];
      OfSnoc(front, last, low);
      OfSnoc(a + front, last, low);
    }
  }

  lemma {:induction false} UnsentAppend(a: seq<WriteBuffer>, b: seq<WriteBuffer>)
    ensures Unsent(a + b) == Unsent(a) + Unsent(b)
  {
    if a == [] {
      assert a + b == b;
    } else {
      UnsentAppend(a[1..], b);
      assert (a + b)[1..] == a[1..] + b;
    }
  }

  lemma RequestsAppend(a: seq<WriteBuffer>, b: seq<WriteBuffer>)
    ensures Requests(a + b) == Requests(a) + Requests(b)
  {
  }

  /** The pointer of the message at the front moves on. */
  function Moved(q: seq<WriteBuffer>, n: nat): seq<WriteBuffer>
    requires q != []
  {
    [q[0].(sent := q[0].sent + n)] + q[1..]
  }

  function Pointer(w: WriteBuffer): seq<Byte>
    requires w.sent <= |w.request.data|
  {
    w.request.data[w.sent..]
  }

  /** The bytes on the wire are the messages that are done, back to back, and what was
      taken of the next; the size is the bytes to come. */
  predicate Balanced(wire: seq<Byte>, done: seq<Request>, q: seq<WriteBuffer>, size: int) {
    FrontOnly(q) && wire == Flat(done) + Partial(q) && size == Unsent(q)
  }

  /** The wire ends with a part of the first of the messages that were dropped. */
  predicate Cut(wire: seq<Byte>, done: seq<Request>, dropped: seq<Request>, cut: seq<Byte>) {
    wire == Flat(done) + cut && (cut != [] ==> dropped != [] && cut <= dropped[0].data)
  }

  lemma SentPart(wire: seq<Byte>, done: seq<Request>, q: seq<WriteBuffer>, size: int, n: nat)
    requires q != [] && FrontOnly(q) && Balanced(wire, done, q, size) && n <= |Pointer(q[0])|
    ensures Balanced(wire + Pointer(q[0])[..n], done, Moved(q, n), size - n)
    ensures Requests(Moved(q, n)) == Requests(q)
  {
    hide Flat, Of;
    var w, rest := q[0], q[1..];
    assert Moved(q, n)[1..] == rest && Moved(q, n)[0] == w.(sent := w.sent + n);
    hide Requests;
    MovedRequests(q, n);
    assert Partial(Moved(q, n)) == Partial(q) + Pointer(w)[..n] by { hide Unsent; }
  }

  lemma MovedRequests(q: seq<WriteBuffer>, n: nat)
    requires q != []
    ensures Requests(Moved(q, n)) == Requests(q)
  {
  }

  lemma BalancedFront(wire: seq<Byte>, done: seq<Request>, q: seq<WriteBuffer>, size: int)
    requires Balanced(wire, done, q, size)
    ensures FrontOnly(q) && (q != [] ==> q[0].sent <= |q[0].request.data|)
  {
  }

  /** The message at the front, and the rest. */
  lemma FrontParts(q: seq<WriteBuffer>)
    requires q != [] && FrontOnly(q)
    ensures FrontOnly(q[1..]) && Partial(q[1..]) == [] && Partial(q) + Pointer(q[0]) == q[0].request.data
    ensures Requests(q) == [q[0].request] + Requests(q[1..]) && Unsent(q[1..]) == Unsent(q) - |Pointer(q[0])|
  {
    hide Requests;
    FirstRequest(q);
  }

  lemma FirstRequest(q: seq<WriteBuffer>)
    requires q != []
    ensures Requests(q) == [q[0].request] + Requests(q[1..])
  {
  }

  lemma SentWhole(wire: seq<Byte>, done: seq<Request>, q: seq<WriteBuffer>, size: int)
    requires q != [] && FrontOnly(q) && Balanced(wire, done, q, size)
    ensures var n := |Pointer(q[0])|;
            Balanced(wire + Pointer(q[0])[..n], done + [q[0].request], q[1..], size - n)
    ensures done + [q[0].request] + Requests(q[1..]) == done + Requests(q)
  {
    hide Flat, Unsent, Requests, Partial, Pointer, FrontOnly;
    BalancedFront(wire, done, q, size);
    var r, ptr := q[0].request, Pointer(q[0]);
    FlatSnoc(done, r);
    FrontParts(q);
    assert ptr[..|ptr|] == ptr;
    assert wire + ptr == Flat(done) + (Partial(q) + ptr) == Flat(done + [r]) + [];
  }

  /** What is left of a list after some of it was written. */
  predicate Left(rest: seq<WriteBuffer>, list: seq<WriteBuffer>) {
    && |rest| <= |list|
    && (rest != [] ==> rest[0].request == list[|list| - |rest|].request)
    && forall i :: 0 < i < |rest| ==> rest[i] == list[|list| - |rest| + i]
  }

  lemma RequestsNone(high: seq<WriteBuffer>, low: seq<WriteBuffer>)
    ensures Requests(high) + Requests(low) == [] <==> high == [] && low == []
  {
  }

  lemma NoRequests()
    ensures Requests([]) == []
  {
  }

  lemma OneRequest(r: Request, n: nat)
    ensures Requests([]) == [] && Requests([WriteBuffer(r, n)]) == [r] && Sorted([WriteBuffer(r, n)], [])
  {
  }

  lemma LowUnsent(high: seq<WriteBuffer>, low: seq<WriteBuffer>)
    requires FrontOnly(high + low) && (high == [] && low != [] ==> low[0].sent == 0)
    ensures low != [] ==> low[0].sent == 0
  {
    if low != [] && high != [] { assert (high + low)[|high|] == low[0]; }
  }

  lemma SortedMore(high: seq<WriteBuffer>, low: seq<WriteBuffer>, r: Request)
    requires Sorted(high, low)
    ensures forall i :: 0 <= i < |Requests(low)| ==> Requests(low)[i].low
    ensures if r.low then Sorted(high, low + [WriteBuffer(r, 0)]) else Sorted(high + [WriteBuffer(r, 0)], low)
  {
  }

  /** Low messages wait in the low list, except one that was begun. */
  predicate Sorted(high: seq<WriteBuffer>, low: seq<WriteBuffer>) {
    && (forall i :: 0 <= i < |low| ==> low[i].request.low)
    && (forall i :: 0 < i < |high| ==> !high[i].request.low)
  }

  lemma LeftSorted(high: seq<WriteBuffer>, low: seq<WriteBuffer>, high': seq<WriteBuffer>, low': seq<WriteBuffer>)
    requires Sorted(high, low) && Left(high', high) && Left(low', low)
    ensures Sorted(high', low') && |high'| <= |high| && |low'| <= |low|
    ensures high' == [] && low' != [] ==> Sorted([low'[0]], low'[1..])
  {
    forall i | 0 <= i < |low'| ensures low'[i].request == low[|low| - |low'| + i].request { }
    forall i | 0 <= i < |high'| ensures high'[i].request == high[|high| - |high'| + i].request { }
  }

  /** Both lists in one, seen from the list that is written. */
  lemma QueueFront(list: seq<WriteBuffer>, rest: seq<WriteBuffer>, n: nat)
    requires list != []
    ensures (list + rest)[0] == list[0] && (list + rest)[1..] == list[1..] + rest
    ensures Moved(list, n) == [list[0].(sent := list[0].sent + n)] + list[1..]
    ensures Moved(list, n) + rest == Moved(list + rest, n) && Left(Moved(list, n), list)
  {
  }

  lemma LeftThen(rest: seq<WriteBuffer>, middle: seq<WriteBuffer>, list: seq<WriteBuffer>)
    requires Left(rest, middle) && Left(middle, list)
    ensures Left(rest, list)
  {
    forall i | 0 < i < |rest| ensures rest[i] == list[|list| - |rest| + i] {
      assert rest[i] == middle[|middle| - |rest| + i];
    }
  }

  lemma LeftTail(list: seq<WriteBuffer>)
    requires list != []
    ensures Left(list[1..], list)
  {
  }

  lemma LeftNone(left: seq<WriteBuffer>)
    requires Left(left, [])
    ensures left == []
  {
  }

  lemma LeftAll(list: seq<WriteBuffer>)
    ensures Left(list, list)
  {
  }

  /** Priority by priority, the same messages in the same order. */
  predicate SameOrder(a: seq<Request>, b: seq<Request>) {
    forall p: bool :: Of(a, p) == Of(b, p)
  }

  /** A message of the other priority does not matter. */
  lemma {:induction false} OfOther(a: seq<Request>, low: bool)
    requires forall i :: 0 <= i < |a| ==> a[i].low != low
    ensures Of(a, low) == []
  {
    if a != [] { OfOther(a[..|a| - 1], low); }
  }

  lemma OrderAtEnd(accepted: seq<Request>, all: seq<Request>, r: Request)
    requires SameOrder(accepted, all)
    ensures SameOrder(accepted + [r], all + [r])
  {
    forall p: bool ensures Of(accepted + [r], p) == Of(all + [r], p) {
      hide Of;
      assert Of(accepted, p) == Of(all, p);
      OfSnoc(accepted, r, p);
      OfSnoc(all, r, p);
    }
  }

  /** A message of high priority goes before the low ones, and no priority sees a change. */
  lemma OrderBeforeLow(accepted: seq<Request>, first: seq<Request>, lows: seq<Request>, r: Request)
    requires SameOrder(accepted, first + lows) && !r.low && forall i :: 0 <= i < |lows| ==> lows[i].low
    ensures SameOrder(accepted + [r], first + [r] + lows)
  {
    forall p: bool ensures Of(accepted + [r], p) == Of(first + [r] + lows, p) {
      hide Of;
      assert Of(accepted, p) == Of(first + lows, p);
      OfSnoc(accepted, r, p);
      OfSnoc(first, r, p);
      OfAppend(first, lows, p);
      OfAppend(first + [r], lows, p);
      if !p { OfOther(lows, p); }
    }
  }

  lemma InsertBeforeLow(done: seq<Request>, high: seq<WriteBuffer>, low: seq<WriteBuffer>, r: Request)
    ensures done + (Requests(high) + Requests(low)) == done + Requests(high) + Requests(low)
    ensures done + (Requests(high + [WriteBuffer(r, 0)]) + Requests(low)) == done + Requests(high) + [r] + Requests(low)
  {
    RequestsAppend(high, [WriteBuffer(r, 0)]);
    assert Requests([WriteBuffer(r, 0)]) == [r];
    hide Requests;
  }

  lemma AppendAt(wire: seq<Byte>, done: seq<Request>, front: seq<WriteBuffer>, back: seq<WriteBuffer>, size: int, r: Request)
    requires Balanced(wire, done, front + back, size)
    requires front == [] && back != [] ==> back[0].sent == 0
    ensures Balanced(wire, done, front + [WriteBuffer(r, 0)] + back, size + |r.data|)
  {
    hide Flat;
    var b := WriteBuffer(r, 0);
    var q, q' := front + back, front + [b] + back;
    UnsentAppend(front, back);
    UnsentAppend(front + [b], back);
    UnsentAppend(front, [b]);
    assert Unsent([b]) == |r.data|;
    hide Unsent;
    assert Partial(q') == Partial(q) by {
      if front != [] { assert q[0] == front[0] == q'[0]; } else if back != [] { assert q[0] == back[0]; }
    }
    forall i | 0 < i < |q'| ensures q'[i].sent == 0 {
      if i < |front| { assert q'[i] == q[i]; } else if i > |front| { assert q'[i] == q[i - 1]; }
    }
  }

  lemma BeginAt(wire: seq<Byte>, done: seq<Request>, size: int, r: Request, n: nat)
    requires Balanced(wire, done, [], size) && n <= |r.data|
    ensures Balanced(wire + r.data[..n], done, [WriteBuffer(r, n)], size + |r.data| - n)
    ensures n == |r.data| ==> Balanced(wire + r.data[..n], done + [r], [], size)
  {
    FlatSnoc(done, r);
    assert r.data[..|r.data|] == r.data;
    assert [WriteBuffer(r, n)][1..] == [];
    assert Unsent([WriteBuffer(r, n)]) == |r.data| - n;
  }

  /** Nothing else is ever on the wire: it is the start of all the messages back to back,
      in the order in which they go, and the size is exactly what is missing. */
  lemma {:induction false} WirePrefix(wire: seq<Byte>, done: seq<Request>, q: seq<WriteBuffer>, size: int)
    requires Balanced(wire, done, q, size)
    ensures wire <= Flat(done + Requests(q)) && |Flat(done + Requests(q))| == |wire| + size
    decreases |q|
  {
    if q == [] {
      assert done + Requests(q) == done;
    } else {
      var rest := Pointer(q[0]);
      SentWhole(wire, done, q, size);
      WirePrefix(wire + rest[..|rest|], done + [q[0].request], q[1..], size - |rest|);
    }
  }

  /** Messages of one priority go out in the order in which they were accepted. */
  lemma GoneInOrder(accepted: seq<Request>, done: seq<Request>, rest: seq<Request>, p: bool)
    requires SameOrder(accepted, done + rest)
    ensures Of(done, p) <= Of(accepted, p)
  {
    OfAppend(done, rest, p);
  }

  /* ---------- what a call sends ---------- */

  predicate Pointed(list: seq<WriteBuffer>) { forall i :: 0 <= i < |list| ==> list[i].sent <= |list[i].request.data| }

  /** Where sending a list ended: at its end, at an answer that did not take all it was given,
      or at an error; what is left of the list, and the answers that are left. */
  datatype Sending = Sending(progress: Progress, list: seq<WriteBuffer>, answers: seq<Answer>)

  function SendAll(list: seq<WriteBuffer>, answers: seq<Answer>): Sending
    requires Pointed(list)
    decreases |list|
  {
    if list == [] then Sending(Whole, [], answers)
    else
      var p := AskedAgain(answers, |Pointer(list[0])|);
      match p.r
      case Wrote(n) =>
        if n == |Pointer(list[0])| then SendAll(list[1..], p.left) else Sending(Stopped, Moved(list, n), p.left)
      case Failed => Sending(Broken, list, p.left)
      case _ => Sending(Stopped, list, p.left)
  }

  /** What one answer does to the message at the front. */
  predicate Sends(list: seq<WriteBuffer>, answers: seq<Answer>, s: Sending)
    requires list != [] && Pointed(list)
  {
    var p := AskedAgain(answers, |Pointer(list[0])|);
    s.answers == p.left &&
    match p.r
    case Wrote(n) =>
      if n == |Pointer(list[0])| then s.progress == Whole && s.list == list[1..] else s.progress == Stopped && s.list == Moved(list, n)
    case Failed => s.progress == Broken && s.list == list
    case _ => s.progress == Stopped && s.list == list
  }

  lemma SendsFirst(list: seq<WriteBuffer>, answers: seq<Answer>, s: Sending)
    requires list != [] && Pointed(list) && Sends(list, answers, s)
    ensures Pointed(s.list)
    ensures SendAll(list, answers) == if s.progress == Whole then SendAll(s.list, s.answers) else s
  {
    hide AskedAgain;
    if s.progress == Whole { assert forall i :: 0 <= i < |s.list| ==> s.list[i] == list[i + 1]; }
  }

  lemma FrontPointed(list: seq<WriteBuffer>, rest: seq<WriteBuffer>)
    requires FrontOnly(list + rest)
    ensures Pointed(list)
  {
    forall i | 0 <= i < |list| ensures list[i].sent <= |list[i].request.data| { assert (list + rest)[i] == list[i]; }
  }

  lemma PointedLists(high: seq<WriteBuffer>, low: seq<WriteBuffer>)
    requires FrontOnly(high + low)
    ensures Pointed(high) && (high == [] ==> Pointed(low))
  {
    FrontPointed(high, low);
    if high == [] {
      assert high + low == low + [];
      FrontPointed(low, []);
    }
  }

  /** Only a message at the front of all can have been begun. */
  lemma BothPointed(high: seq<WriteBuffer>, low: seq<WriteBuffer>)
    requires FrontOnly(high + low) && (high == [] && low != [] ==> low[0].sent == 0)
    ensures Pointed(high) && Pointed(low) && (low != [] ==> low[0].sent == 0)
  {
    FrontPointed(high, low);
    LowUnsent(high, low);
    forall i | 0 <= i < |low| ensures low[i].sent == 0 {
      assert (high + low)[|high| + i] == low[i];
    }
  }

  lemma NothingToSend(answers: seq<Answer>)
    ensures SendAll([], answers) == Sending(Whole, [], answers)
  {
  }

  /** The next answers take all of the messages of a list. */
  predicate TakesAll(list: seq<WriteBuffer>, answers: seq<Answer>) {
    |list| <= |answers| && forall i :: 0 <= i < |list| ==> answers[i].Wrote? && answers[i].n >= |list[i].request.data|
  }

  /** Then all of the list is sent, one answer for each message. */
  lemma {:induction false} AllGoes(list: seq<WriteBuffer>, answers: seq<Answer>)
    requires Pointed(list) && TakesAll(list, answers)
    ensures SendAll(list, answers) == Sending(Whole, [], answers[|list|..])
    decreases |list|
  {
    if list != [] {
      AllGoes(list[1..], answers[1..]);
      assert answers[1..][|list| - 1..] == answers[|list|..];
    }
  }

  /** The system is asked in every call that has something to send. */
  lemma {:induction false} SomeAsked(list: seq<WriteBuffer>, answers: seq<Answer>)
    requires Pointed(list)
    ensures |SendAll(list, answers).answers| <= |answers|
    ensures list != [] && answers != [] ==> |SendAll(list, answers).answers| < |answers|
    decreases |list|
  {
    if list != [] {
      var p := AskedAgain(answers, |Pointer(list[0])|);
      SomeAsked(list[1..], p.left);
    }
  }

  /** Both lists when the socket is writable, the high one first. A low message that was begun
      goes to the high list. */
  datatype Flush = Flush(broken: bool, high: seq<WriteBuffer>, low: seq<WriteBuffer>, answers: seq<Answer>)

  function SendLists(high: seq<WriteBuffer>, low: seq<WriteBuffer>, answers: seq<Answer>): Flush
    requires Pointed(high) && Pointed(low)
  {
    var h := SendAll(high, answers);
    var l := SendAll(low, h.answers);
    if h.progress == Broken then Flush(true, [], [], h.answers)
    else if h.list != [] then Flush(false, h.list, low, h.answers)
    else if l.progress == Broken then Flush(true, [], [], l.answers)
    else if l.list != [] && l.list[0].sent != 0 then Flush(false, [l.list[0]], l.list[1..], l.answers)
    else Flush(false, [], l.list, l.answers)
  }

  lemma HighFirst(high: seq<WriteBuffer>, low: seq<WriteBuffer>, answers: seq<Answer>)
    requires Pointed(high) && Pointed(low)
    ensures var h := SendAll(high, answers);
            SendLists(high, low, answers) == if h.progress == Broken then Flush(true, [], [], h.answers)
                                             else if h.list != [] then Flush(false, h.list, low, h.answers)
                                             else if low != [] then SendLists([], low, h.answers)
                                             else Flush(false, [], [], h.answers)
  {
    NothingToSend(SendAll(high, answers).answers);
  }

  /** When the answers take all, both lists are empty afterwards. */
  lemma AllGone(high: seq<WriteBuffer>, low: seq<WriteBuffer>, answers: seq<Answer>)
    requires Pointed(high) && Pointed(low) && TakesAll(high + low, answers)
    ensures SendLists(high, low, answers) == Flush(false, [], [], answers[|high| + |low|..])
  {
    var q, left := high + low, answers[|high|..];
    forall i | 0 <= i < |high| ensures answers[i].Wrote? && answers[i].n >= |high[i].request.data| { assert q[i] == high[i]; }
    forall i | 0 <= i < |low| ensures left[i].Wrote? && left[i].n >= |low[i].request.data| { assert q[|high| + i] == low[i]; }
    AllGoes(high, answers);
    AllGoes(low, left);
    assert left[|low|..] == answers[|high| + |low|..];
  }

  /** A socket that has something to send uses up an answer, if there is one. */
  lemma ListsAsked(high: seq<WriteBuffer>, low: seq<WriteBuffer>, answers: seq<Answer>)
    requires Pointed(high) && Pointed(low)
    ensures |SendLists(high, low, answers).answers| <= |answers|
    ensures high + low != [] && answers != [] ==> |SendLists(high, low, answers).answers| < |answers|
  {
    SomeAsked(high, answers);
    SomeAsked(low, SendAll(high, answers).answers);
    if high == [] { NothingToSend(answers); }
  }

  /* ---------- the socket ---------- */

  datatype Progress = Whole | Stopped | Broken

  class Socket {
    const fd: Descriptor
    var kind: Kind
    var high: seq<WriteBuffer>
    var low: seq<WriteBuffer>
    var wbSize: int
    var watching: bool                  // the event that says that the socket is writable
    ghost var accepted: seq<Request>    // what the socket took
    ghost var done: seq<Request>        // what has gone out, as a whole
    ghost var dropped: seq<Request>     // what was there when the socket was closed

    ghost function Queue(): seq<WriteBuffer> reads `high, `low { high + low }

    /** What is not yet out as a whole, in the order in which it will go. */
    ghost function Rest(): seq<Request> reads `kind, `high, `low, `dropped {
      if kind == INVALID then dropped else Requests(high) + Requests(low)
    }

    ghost predicate Tied() reads `high, `low, `done, `dropped, `wbSize, fd {
      Balanced(fd.wire, done, Queue(), wbSize) && dropped == []
    }

    ghost predicate Ordered() reads `accepted, `done, `kind, `high, `low, `dropped {
      SameOrder(accepted, done + Rest())
    }

    ghost predicate Open() reads this, fd {
      && kind != INVALID && !fd.failed
      && Tied() && Sorted(high, low)
      && (high == [] && low != [] ==> low[0].sent == 0)
      && (kind == HALFCLOSE ==> watching)
      && (Queue() != [] ==> watching && (kind == CONNECTING || kind == CONNECTED || kind == HALFCLOSE))
    }

    ghost predicate Closed() reads `kind, `high, `low, `done, `dropped, fd {
      && kind == INVALID && high == [] && low == []
      && exists cut: seq<Byte> :: Cut(fd.wire, done, dropped, cut)
    }

    ghost predicate Steady() reads this, fd { Ordered() && (Open() || Closed()) }

    /** A connection that is still being made is watched. */
    ghost predicate Valid() reads this, fd { Steady() && (kind == CONNECTING ==> watching) }

    /** A new connection; one that is still being made watches for it. */
    constructor (fd: Descriptor, kind: Kind)
      requires kind != INVALID && kind != HALFCLOSE && fd.wire == [] && !fd.failed
      ensures Valid() && this.fd == fd && this.kind == kind
      ensures accepted == [] && done == [] && dropped == []
    {
      this.fd, this.kind := fd, kind;
      high, low, wbSize := [], [], 0;
      watching := kind == CONNECTING;
      accepted, done, dropped := [], [], [];
    }

    /** Frees both lists. */
    method ForceClose()
      requires Ordered() && (kind == INVALID ==> Closed()) && (kind != INVALID ==> Tied())
      modifies this
      ensures Valid() && kind == INVALID && accepted == old(accepted) && done == old(done)
      ensures dropped == old(Rest())
    {
      if kind == INVALID { return; }
      ghost var q, rest := Queue(), Rest();
      assert SameOrder(accepted, done + rest);
      RequestsAppend(high, low);
      assert FrontOnly(q) && fd.wire == Flat(done) + Partial(q);
      ghost var cut := Partial(q);
      dropped := Requests(high) + Requests(low);
      high, low := [], [];
      kind := INVALID;
      assert Cut(fd.wire, done, dropped, cut);
      assert Closed();
      assert Ordered();
    }

    ghost function List(fromHigh: bool): seq<WriteBuffer> reads `high, `low { if fromHigh then high else low }

    /** Writes the message at the front of a list: its pointer moves on, or it leaves the
        list when it is out as a whole. */
    method SendFront(fromHigh: bool) returns (r: Progress)
      requires kind != INVALID && Tied() && Ordered() && List(fromHigh) != [] && (!fromHigh ==> high == [])
      modifies this, fd
      ensures Tied() && Ordered() && kind == old(kind) && watching == old(watching) && accepted == old(accepted)
      ensures dropped == old(dropped)
      ensures done + Rest() == old(done + Rest())
      ensures List(!fromHigh) == old(List(!fromHigh))
      ensures r.Whole? ==> List(fromHigh) == old(List(fromHigh))[1..]
      ensures !r.Whole? ==> Left(List(fromHigh), old(List(fromHigh))) && fd.blocked
      ensures fd.failed == (old(fd.failed) || r.Broken?)
      ensures Pointed(old(List(fromHigh)))
      ensures Sends(old(List(fromHigh)), old(fd.answers), Sending(r, List(fromHigh), fd.answers))
    {
      hide Flat, Of, Unsent, Requests, Partial, Pointer, FrontOnly, Left, Balanced, Moved, AskedAgain, Asked, Pointed;
      ghost var q := Queue();
      BalancedFront(fd.wire, done, q, wbSize);
      var list := if fromHigh then high else low;
      ghost var rest := if fromHigh then low else [];
      assert q == list + rest;
      FrontPointed(list, rest);
      RequestsAppend(high, low);
      QueueFront(list, rest, 0);
      LeftAll(list);
      var tmp := list[0];
      var a := fd.WriteAgain(Pointer(tmp));
      match a {
      case Again => r := Stopped;
      case Failed => r := Broken;
      case Wrote(n) =>
        ghost var size := wbSize;
        wbSize := wbSize - n;
        if n != |Pointer(tmp)| {
          SentPart(old(fd.wire), done, q, size, n);
          QueueFront(list, rest, n);
          list := [tmp.(sent := tmp.sent + n)] + list[1..];
          if fromHigh { high := list; } else { low := list; }
          assert Queue() == list + rest;
          r := Stopped;
        } else {
          SentWhole(old(fd.wire), done, q, size);
          if fromHigh { high := list[1..]; } else { low := list[1..]; }
          assert Queue() == list[1..] + rest;
          done := done + [tmp.request];
          r := Whole;
        }
      }
      RequestsAppend(high, low);
      assert done + Rest() == old(done + Rest());
    }

    /** Writes a list from the front, as far as the system takes it. */
    method SendListTcp(fromHigh: bool) returns (closed: bool)
      requires kind != INVALID && Tied() && dropped == [] && Ordered() && (!fromHigh ==> high == [])
      modifies this, fd
      ensures accepted == old(accepted)
      ensures closed ==> Valid() && kind == INVALID && fd.failed && done + dropped == old(done + Rest())
      ensures !closed ==> Tied() && Ordered()
      ensures !closed ==> kind == old(kind) && watching == old(watching) && fd.failed == old(fd.failed)
      ensures !closed ==> done + Rest() == old(done + Rest())
      ensures !closed ==> List(!fromHigh) == old(List(!fromHigh))
      ensures !closed ==> Left(List(fromHigh), old(List(fromHigh))) && (List(fromHigh) == [] || fd.blocked)
      ensures Pointed(old(List(fromHigh)))
      ensures var o := SendAll(old(List(fromHigh)), old(fd.answers));
              && fd.answers == o.answers && (closed <==> o.progress == Broken)
              && (!closed ==> List(fromHigh) == o.list)
    {
      hide Flat, Of, Unsent, Requests, Partial, Pointer, FrontOnly, Left, Balanced, SameOrder, SendAll, Sends, Pointed;
      ghost var all, first, answers := done + Rest(), List(fromHigh), fd.answers;
      BalancedFront(fd.wire, done, Queue(), wbSize);
      PointedLists(high, low);
      LeftAll(first);
      while (if fromHigh then high else low) != []
        invariant List(!fromHigh) == old(List(!fromHigh)) && Left(List(fromHigh), first)
        invariant Tied() && Ordered() && dropped == [] && accepted == old(accepted)
        invariant done + Rest() == all
        invariant kind == old(kind) && watching == old(watching) && fd.failed == old(fd.failed)
        invariant Pointed(first) && Pointed(List(fromHigh)) && SendAll(first, answers) == SendAll(List(fromHigh), fd.answers)
        decreases |List(fromHigh)|
      {
        ghost var before, asked := List(fromHigh), fd.answers;
        LeftTail(before);
        var r := SendFront(fromHigh);
        SendsFirst(before, asked, Sending(r, List(fromHigh), fd.answers));
        LeftThen(List(fromHigh), before, first);
        if r == Broken {
          ForceClose();
          return true;
        }
        if r == Stopped { return false; }
      }
      NothingToSend(fd.answers);
      closed := false;
    }

    /** The message that was begun moves from the low list to the empty high list. */
    method RaiseUncomplete()
      requires low != [] && high == []
      modifies this
      ensures high == [old(low)[0]] && low == old(low)[1..]
      ensures kind == old(kind) && wbSize == old(wbSize) && watching == old(watching)
      ensures accepted == old(accepted) && done == old(done) && dropped == old(dropped)
    {
      var tmp := low[0];
      low := low[1..];
      high := [tmp];
    }

    ghost predicate Flushed(o: Flush, closed: bool) reads `high, `low, fd {
      && fd.answers == o.answers && (o.broken ==> closed)
      && if closed then o.broken || (o.high == [] && o.low == []) else high == o.high && low == o.low
    }

    /** Writes the low list; a message that was begun moves to the high list. */
    method SendLow() returns (closed: bool)
      requires kind != INVALID && Tied() && Ordered() && high == [] && low != [] && Sorted(high, low)
      modifies this, fd
      ensures accepted == old(accepted) && done + Rest() == old(done + Rest())
      ensures closed ==> Valid() && kind == INVALID && fd.failed
      ensures !closed ==> Tied() && Ordered() && Sorted(high, low) && (high == [] && low != [] ==> low[0].sent == 0)
      ensures !closed ==> kind == old(kind) && watching == old(watching) && fd.failed == old(fd.failed)
      ensures !closed ==> (Rest() == [] || fd.blocked)
      ensures Pointed(old(low)) && Pointed([])
      ensures Flushed(SendLists([], old(low), old(fd.answers)), closed)
    {
      hide Flat, Of, Unsent, Requests, Partial, Pointer, FrontOnly, Left, Balanced, SameOrder, Sorted, SendAll;
      NoRequests();
      NothingToSend(fd.answers);
      closed := SendListTcp(false);
      if closed { return; }
      LeftAll(high);
      LeftSorted([], old(low), high, low);
      if low != [] && low[0].sent != 0 {
        assert low == [low[0]] + low[1..];
        RequestsAppend([low[0]], low[1..]);
        ghost var q := Queue();
        ghost var rest := Rest();
        RaiseUncomplete();
        assert Queue() == q && Rest() == rest;
      }
    }

    /** The socket is writable: the high list first, the low list when that is empty. A low
        message that was begun goes first from now on, and the event is off when nothing was
        left. A half-closed socket is closed when the low list was empty before and the high
        list is now; when the low list runs empty only now, the next event closes it, and
        that event is still on. */
    method SendBuffer() returns (closed: bool)
      requires Steady() && kind != INVALID
      modifies this, fd
      ensures Steady() && (closed || Rest() == [] || watching == old(watching)) && accepted == old(accepted) && done + Rest() == old(done + Rest())
      ensures !closed ==> kind == old(kind) && (Rest() == [] || fd.blocked)
      ensures closed <==> fd.failed || (old(kind) == HALFCLOSE && old(low) == [] && high == [])
      ensures closed ==> kind == INVALID && (!fd.failed ==> dropped == [])
      ensures kind == HALFCLOSE ==> watching
      ensures old(kind) == HALFCLOSE && old(high) == [] && old(low) == [] ==> closed
      ensures !closed ==> watching == (old(watching) && (high != [] || old(low) != []))
      ensures Pointed(old(high)) && Pointed(old(low))
      ensures Flushed(SendLists(old(high), old(low), old(fd.answers)), closed)
    {
      hide Flat, Of, Unsent, Requests, Partial, Pointer, FrontOnly, Left, Balanced, SameOrder, Sorted, SendAll, SendLists, Pointed;
      NoRequests();
      LeftAll(high);
      LeftAll(low);
      BalancedFront(fd.wire, done, Queue(), wbSize);
      BothPointed(high, low);
      assert low == [] || low[0].sent == 0;
      HighFirst(high, low, fd.answers);
      closed := SendListTcp(true);
      if closed { return; }
      LeftSorted(old(high), old(low), high, low);
      if old(high) == [] { LeftNone(high); }
      if high == [] {
        if low != [] {
          closed := SendLow();
        } else {
          closed := AllSent();
        }
      }
    }

    /** Nothing is left: the event is off, and a half-closed socket is closed. */
    method AllSent() returns (closed: bool)
      requires kind != INVALID && Tied() && Ordered() && high == [] && low == []
      modifies this
      ensures accepted == old(accepted) && done == old(done) && Rest() == [] == old(Rest()) && high == [] && low == []
      ensures closed <==> old(kind) == HALFCLOSE
      ensures if closed then Valid() && kind == INVALID else Tied() && Ordered() && kind == old(kind) && !watching
    {
      hide Flat, Of, Unsent, Partial, FrontOnly, Left, Balanced, SameOrder;
      watching := false;
      closed := kind == HALFCLOSE;
      if closed { ForceClose(); }
    }

    method AppendSendbuffer(r: Request, n: nat)
      requires n <= |r.data|
      modifies `high, `wbSize
      ensures high == old(high) + [WriteBuffer(r, n)] && wbSize == old(wbSize) + |r.data| - n
    {
      high := high + [WriteBuffer(r, n)];
      wbSize := wbSize + (|r.data| - n);
    }

    method AppendSendbufferLow(r: Request)
      modifies `low, `wbSize
      ensures low == old(low) + [WriteBuffer(r, 0)] && wbSize == old(wbSize) + |r.data|
    {
      low := low + [WriteBuffer(r, 0)];
      wbSize := wbSize + |r.data|;
    }

    /** Sends a message. When nothing waits, the system is asked at once, and what it did not
        take goes to the high list whatever the priority. */
    method SendSocket(r: Request) returns (closed: bool)
      requires Valid()
      modifies this, fd
      ensures Valid()
      ensures old(kind) != CONNECTING && old(kind) != CONNECTED ==> !closed && unchanged(this) && unchanged(fd)
      ensures closed ==> kind == INVALID && fd.failed && old(kind) == CONNECTED && dropped == []
                         && accepted == old(accepted) && done == old(done)
      ensures !closed && (old(kind) == CONNECTING || old(kind) == CONNECTED) ==>
                && kind == old(kind) && accepted == old(accepted) + [r]
                && done + Rest() == if r.low then old(done + Rest()) + [r]
                                    else old(done + Requests(high)) + [r] + old(Requests(low))
      ensures !closed && old(Rest()) == [] && old(kind) == CONNECTED ==> Rest() == [] || fd.blocked
      ensures if old(kind) == CONNECTED && old(high) == [] && old(low) == []
              then var p := Asked(old(fd.answers), |r.data|);
                && fd.answers == p.left && (closed <==> p.r == Failed)
                && (!closed ==> low == [] && high == if Taken(p.r) == |r.data| then [] else [WriteBuffer(r, Taken(p.r))])
              else !closed && unchanged(fd)
    {
      closed := false;
      if kind == INVALID || kind == HALFCLOSE || kind == PACCEPT { return; }
      if kind == PLISTEN || kind == LISTEN { return; }
      assert Open();
      if high == [] && low == [] && kind == CONNECTED {
        closed := SendNow(r);
      } else if r.low {
        QueueLow(r);
      } else {
        QueueHigh(r);
      }
    }

    /** The system is asked at once. */
    method SendNow(r: Request) returns (closed: bool)
      requires Ordered() && Open() && kind == CONNECTED && high == [] && low == []
      modifies this, fd
      ensures Valid()
      ensures closed ==> kind == INVALID && fd.failed && dropped == [] && accepted == old(accepted) && done == old(done)
      ensures !closed ==> kind == CONNECTED && accepted == old(accepted) + [r] && done + Rest() == old(done) + [r]
      ensures !closed ==> Rest() == [] || fd.blocked
      ensures var p := Asked(old(fd.answers), |r.data|);
              && fd.answers == p.left && (closed <==> p.r == Failed)
              && (!closed ==> low == [] && high == if Taken(p.r) == |r.data| then [] else [WriteBuffer(r, Taken(p.r))])
    {
      hide Flat, Of, Unsent, Requests, Partial, Pointer, FrontOnly, Left, Balanced, SameOrder, Sorted;
      OneRequest(r, 0);
      assert Queue() == [] && Rest() == [] && done + Rest() == done;
      var a := fd.Write(r.data);
      var n := 0;
      if a == Failed {
        ForceClose();
        return true;
      }
      if a.Wrote? { n := a.n; }
      assert fd.wire == old(fd.wire) + r.data[..n];
      BeginAt(old(fd.wire), done, wbSize, r, n);
      OrderAtEnd(accepted, done, r);
      accepted := accepted + [r];
      closed := false;
      if n == |r.data| {
        done := done + [r];
        assert Queue() == [] && Rest() == [] && done + Rest() == done;
        return;
      }
      OneRequest(r, n);
      AppendSendbuffer(r, n);
      assert Queue() == [WriteBuffer(r, n)] && high == [WriteBuffer(r, n)] && low == [];
      assert done + Rest() == done + [r];
      watching := true;
    }

    method QueueLow(r: Request)
      requires Valid() && (kind == CONNECTING || kind == CONNECTED) && r.low
      requires high == [] && low == [] ==> kind == CONNECTING
      modifies this
      ensures Valid() && kind == old(kind) && accepted == old(accepted) + [r]
      ensures done + Rest() == old(done + Rest()) + [r]
    {
      hide Flat, Of, Unsent, Requests, Partial, Pointer, FrontOnly, Left, Balanced, SameOrder, Sorted;
      AppendAt(fd.wire, done, high + low, [], wbSize, r) by { assert high + low + [] == high + low; }
      OrderAtEnd(accepted, done + Rest(), r);
      RequestsAppend(low, [WriteBuffer(r, 0)]);
      OneRequest(r, 0);
      SortedMore(high, low, r);
      assert high + low + [WriteBuffer(r, 0)] + [] == high + (low + [WriteBuffer(r, 0)]);
      accepted := accepted + [r];
      AppendSendbufferLow(r);
      assert done + Rest() == old(done + Rest()) + [r];
    }

    method QueueHigh(r: Request)
      requires Valid() && (kind == CONNECTING || kind == CONNECTED) && !r.low
      requires high == [] && low == [] ==> kind == CONNECTING
      modifies this
      ensures Valid() && kind == old(kind) && accepted == old(accepted) + [r]
      ensures done + Rest() == old(done + Requests(high)) + [r] + old(Requests(low))
    {
      hide Flat, Of, Unsent, Requests, Partial, Pointer, FrontOnly, Left, Balanced, SameOrder, Sorted;
      AppendAt(fd.wire, done, high, low, wbSize, r);
      SortedMore(high, low, r);
      InsertBeforeLow(done, high, low, r);
      OrderBeforeLow(accepted, done + Requests(high), Requests(low), r);
      accepted := accepted + [r];
      AppendSendbuffer(r, 0);
    }

    /** A close writes what it can first; a socket that still has something to send, and was
        not shut down, is half closed. */
    method CloseSocket(shutdown: bool) returns (closed: bool)
      requires Valid()
      modifies this, fd
      ensures Valid() && accepted == old(accepted) && done + Rest() == old(done + Rest())
      ensures old(kind) == INVALID ==> closed && unchanged(this) && unchanged(fd)
      ensures closed ==> kind == INVALID
      ensures closed && old(kind) != INVALID ==> shutdown || dropped == [] || fd.failed
      ensures !closed ==> kind == HALFCLOSE && !shutdown && Rest() != [] && fd.blocked
      ensures old(kind) != INVALID ==>
                && Pointed(old(high)) && Pointed(old(low))
                && fd.answers == SendLists(old(high), old(low), old(fd.answers)).answers
      ensures old(kind) != INVALID && !shutdown ==>
                var o := SendLists(old(high), old(low), old(fd.answers));
                closed <==> o.broken || (o.high == [] && o.low == [])
    {
      if kind == INVALID { return true; }
      hide Flat, Of, Unsent, Requests, Partial, Pointer, FrontOnly, Left, Balanced, SameOrder, Sorted, SendAll, SendLists, Pointed;
      BalancedFront(fd.wire, done, Queue(), wbSize);
      BothPointed(high, low);
      HighFirst(high, low, fd.answers);
      NothingToSend(fd.answers);
      if high != [] || low != [] {
        closed := SendBuffer();
        if closed { return; }
      }
      closed := ShutOrHalf(shutdown);
    }

    /** Nothing was left to send, or the socket was shut down: it is closed, and else half closed. */
    method ShutOrHalf(shutdown: bool) returns (closed: bool)
      requires Ordered() && Open()
      modifies this
      ensures Valid() && accepted == old(accepted) && done == old(done)
      ensures closed <==> shutdown || old(high + low) == []
      ensures if closed then kind == INVALID && dropped == old(Rest()) && (old(high + low) == [] ==> dropped == [])
              else kind == HALFCLOSE && Rest() == old(Rest()) != [] && high == old(high) && low == old(low)
    {
      hide Flat, Of, Unsent, Requests, Partial, Pointer, FrontOnly, Left, Balanced, SameOrder, Sorted;
      RequestsNone(high, low);
      closed := shutdown || (high == [] && low == []);
      if closed { ForceClose(); } else { HalfClose(); }
    }

    method HalfClose()
      requires Ordered() && Open() && (high != [] || low != [])
      modifies `kind
      ensures Valid() && kind == HALFCLOSE && Rest() == old(Rest())
    {
      hide Balanced, SameOrder, Requests, Sorted;
      kind := HALFCLOSE;
    }

    /** The answer to a connect. */
    method ReportConnect(ok: bool) returns (closed: bool)
      requires Valid() && kind == CONNECTING
      modifies this
      ensures Valid() && accepted == old(accepted) && done + Rest() == old(done + Rest())
      ensures closed == !ok && kind == if ok then CONNECTED else INVALID
    {
      hide Flat, Of, Unsent, Requests, Partial, Pointer, FrontOnly, Left, Balanced, SameOrder, Sorted;
      if !ok {
        ForceClose();
        return true;
      }
      kind := CONNECTED;
      if high == [] && low == [] { watching := false; }
      closed := false;
    }
  }
}
