/** The message queue of a service: a ring buffer that doubles when it is full, the flag
    that says whether the queue is scheduled, and the list of scheduled queues. */
module SkynetQueue {
  import opened RingBuffer

  datatype Message = Message(source: nat, session: int, data: seq<int>)

  const DEFAULT_QUEUE_SIZE: nat := 64
  const MQ_OVERLOAD: nat := 1024

  /* ---------- what a queue is, as a value ---------- */

  datatype Queue = Queue(messages: seq<Message>, inGlobal: bool, release: bool)

  /** A push schedules a queue that was not. */
  function Push(q: Queue, m: Message): Queue {
    q.(messages := q.messages + [m], inGlobal := true)
  }

  /** A pop that finds nothing takes the queue off the schedule. */
  function Pop(q: Queue): Queue {
    if q.messages == [] then q.(inGlobal := false) else q.(messages := q.messages[1..])
  }

  function Mark(q: Queue): Queue { q.(release := true) }

  /** A threshold doubled until it covers the length, and not further. */
  function Raised(threshold: nat, length: nat): (r: nat)
    requires threshold > 0
    ensures threshold <= r && length <= r && (r == threshold || r < 2 * length)
    decreases length - threshold
  {
    if length <= threshold then threshold else Raised(2 * threshold, length)
  }

  class GlobalQueue {
    var list: seq<MessageQueue>

    constructor () ensures list == [] { list := []; }

    /** A queue is linked once at most: the source asserts it. */
    method Push(queue: MessageQueue)
      requires queue !in list
      modifies this
      ensures list == old(list) + [queue]
    {
      list := list + [queue];
    }

    method Pop() returns (mq: MessageQueue?)
      modifies this
      ensures old(list) == [] ==> mq == null && list == []
      ensures old(list) != [] ==> mq == old(list)[0] && list == old(list)[1..]
    {
      if list == [] { return null; }
      mq := list[0];
      list := list[1..];
    }
  }

  class MessageQueue {
    const handle: nat
    var queue: array<Message>
    var cap: nat
    var head: nat
    var tail: nat
    var release: bool
    var inGlobal: bool
    var overload: nat
    var overloadThreshold: nat

    ghost predicate Valid() reads this, queue {
      cap == queue.Length && head < cap && tail < cap && overloadThreshold > 0
    }

    ghost function State(): Queue
      requires Valid()
      reads this, queue
    {
      Queue(Ring(queue[..], head, tail), inGlobal, release)
    }

    /** A queue starts out held by the service that is being made. */
    constructor (handle: nat, blank: Message)
      ensures Valid() && State() == Queue([], true, false) && fresh(queue) && this.handle == handle
      ensures overload == 0 && overloadThreshold == MQ_OVERLOAD
    {
      this.handle := handle;
      cap := DEFAULT_QUEUE_SIZE;
      head, tail := 0, 0;
      inGlobal, release := true, false;
      overload, overloadThreshold := 0, MQ_OVERLOAD;
      queue := new Message[DEFAULT_QUEUE_SIZE](_ => blank);
    }

    method Length() returns (n: nat)
      requires Valid()
      ensures n == |State().messages|
    {
      if head <= tail { return tail - head; }
      n := tail + cap - head;
    }

    /** The length that raised the alarm, once. */
    method TakeOverload() returns (length: nat)
      requires Valid()
      modifies this`overload
      ensures Valid() && State() == old(State()) && length == old(overload) && overload == 0
    {
      if overload != 0 {
        length := overload;
        overload := 0;
        return;
      }
      length := 0;
    }

    /** An alarm when there are more messages than the threshold, which then doubles until it
        covers them. */
    method RaiseThreshold(length: nat)
      requires overloadThreshold > 0
      modifies this`overload, this`overloadThreshold
      ensures overloadThreshold == Raised(old(overloadThreshold), length)
      ensures overload == if length > old(overloadThreshold) then length else old(overload)
    {
      while length > overloadThreshold
        invariant overloadThreshold >= old(overloadThreshold) > 0
        invariant Raised(old(overloadThreshold), length) == Raised(overloadThreshold, length)
        invariant overload == if overloadThreshold == old(overloadThreshold) then old(overload) else length
        invariant overloadThreshold != old(overloadThreshold) ==> length > old(overloadThreshold)
        decreases length - overloadThreshold
      {
        overload := length;
        overloadThreshold := overloadThreshold * 2;
      }
    }

    /** The message at the front, or nothing and the queue is off the schedule. The alarm
        is raised when the rest is longer than the threshold, which then doubles until it
        covers the rest; an empty queue resets it. */
    method PopMessage() returns (found: bool, message: Message)
      requires Valid()
      modifies this
      ensures Valid() && queue == old(queue) && State() == Pop(old(State()))
      ensures found <==> old(State()).messages != []
      ensures found ==> message == old(State()).messages[0]
      ensures !found ==> overloadThreshold == MQ_OVERLOAD && overload == old(overload)
      ensures found ==>
                && overloadThreshold == Raised(old(overloadThreshold), |State().messages|)
                && overload == if |State().messages| > old(overloadThreshold) then |State().messages| else old(overload)
    {
      hide Ring;
      found := head != tail;
      message := queue[head];
      RingLength(queue[..], head, tail);
      if found {
        RingTake(queue[..], head, tail);
        RingLength(queue[..], if head + 1 >= cap then 0 else head + 1, tail);
        head := head + 1;
        if head >= cap { head := 0; }
        var length := tail as int - head;
        if length < 0 { length := length + cap; }
        RaiseThreshold(length);
      } else {
        overloadThreshold := MQ_OVERLOAD;
        inGlobal := false;
      }
    }

    /** A full ring is copied to the front of an array of twice the size. */
    method ExpandQueue()
      requires cap == queue.Length && head < cap && head == tail && overloadThreshold > 0
      modifies this`queue, this`cap, this`head, this`tail
      ensures Valid() && fresh(queue) && cap == 2 * old(cap)
      ensures Ring(queue[..], head, tail) == old(Full(queue[..], head))
    {
      var blank := queue[0];
      ghost var was := queue[..];
      var newQueue := new Message[cap * 2](_ => blank);
      for i := 0 to cap
        invariant unchanged(this) && queue[..] == was
        invariant newQueue[..i] == Full(was, head)[..i]
      {
        FullAt(was, head, i);
        newQueue[i] := queue[(head + i) % cap];
        assert newQueue[..i + 1] == newQueue[..i] + [newQueue[i]];
      }
      FullLength(was, head);
      head := 0;
      tail := cap;
      cap := cap * 2;
      queue := newQueue;
    }

    method PushMessage(g: GlobalQueue, message: Message)
      requires Valid() && (!inGlobal ==> this !in g.list)
      modifies this, queue, g
      ensures Valid() && (queue == old(queue) || fresh(queue)) && State() == Push(old(State()), message)
      ensures g.list == if old(inGlobal) then old(g.list) else old(g.list) + [this]
      ensures overload == old(overload) && overloadThreshold == old(overloadThreshold)
    {
      hide Ring, Full;
      RingAppend(queue[..], head, tail, message);
      ghost var next := queue[..][tail := message];
      queue[tail] := message;
      assert queue[..] == next;
      tail := tail + 1;
      if tail >= cap { tail := 0; }
      if head == tail { ExpandQueue(); }
      if !inGlobal {
        inGlobal := true;
        g.Push(this);
      }
    }

    /** The service is gone. A queue that is not scheduled is put on the list, so that a
        worker will find it and drop it; its flag is left alone. */
    method MarkRelease(g: GlobalQueue)
      requires Valid() && !release && (!inGlobal ==> this !in g.list)
      modifies this`release, g
      ensures Valid() && State() == Mark(old(State()))
      ensures g.list == if inGlobal then old(g.list) else old(g.list) + [this]
    {
      release := true;
      if !inGlobal { g.Push(this); }
    }

    /** Drops every message, in order, when the service is gone; otherwise back to the list. */
    method Release(g: GlobalQueue) returns (freed: bool, dropped: seq<Message>)
      requires Valid() && this !in g.list
      modifies this, g
      ensures Valid() && freed == old(release)
      ensures freed ==> dropped == old(State()).messages && State() == Queue([], false, true) && g.list == old(g.list)
      ensures !freed ==> dropped == [] && State() == old(State()) && g.list == old(g.list) + [this]
    {
      hide Ring;
      dropped := [];
      freed := release;
      if !release {
        g.Push(this);
        return;
      }
      var found, message := PopMessage();
      while found
        invariant Valid() && queue == old(queue) && State().release && g.list == old(g.list)
        invariant old(State()).messages == dropped + (if found then [message] else []) + State().messages
        invariant !found ==> State().messages == [] && !inGlobal
        modifies this
        decreases |State().messages|, found
      {
        dropped := dropped + [message];
        found, message := PopMessage();
      }
    }
  }
}
