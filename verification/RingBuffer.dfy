/** A ring in an array: what it holds, and what moving its ends does. */
module RingBuffer {

  /** What a ring holds: from the head to the tail, around the end of the array. */
  function Ring<T>(buffer: seq<T>, head: nat, tail: nat): seq<T>
    requires head <= |buffer| && tail <= |buffer|
  {
    if head <= tail then buffer[head..tail] else buffer[head..] + buffer[..tail]
  }

  /** What a ring holds that is full: every slot once, from the head on. */
  function Full<T>(buffer: seq<T>, head: nat): seq<T>
    requires head <= |buffer|
  {
    buffer[head..] + buffer[..head]
  }

  lemma FullAt<T>(buffer: seq<T>, head: nat, i: nat)
    requires head < |buffer| && i < |buffer|
    ensures Full(buffer, head)[i] == buffer[(head + i) % |buffer|]
  {
    if head + i < |buffer| {
      assert (head + i) % |buffer| == head + i;
    } else {
      assert (head + i) % |buffer| == head + i - |buffer|;
    }
  }

  /** Writing at the tail and moving it on appends, also when the ring becomes full. */
  lemma RingAppend<T>(buffer: seq<T>, head: nat, tail: nat, m: T)
    requires head < |buffer| && tail < |buffer|
    ensures var next := if tail + 1 >= |buffer| then 0 else tail + 1;
            (if head == next then Full(buffer[tail := m], head) else Ring(buffer[tail := m], head, next)) ==
            Ring(buffer, head, tail) + [m]
  {
  }

  lemma RingTake<T>(buffer: seq<T>, head: nat, tail: nat)
    requires head < |buffer| && tail < |buffer| && head != tail
    ensures var next := if head + 1 >= |buffer| then 0 else head + 1;
            Ring(buffer, head, tail) == [buffer[head]] + Ring(buffer, next, tail)
  {
  }

  lemma RingLength<T>(buffer: seq<T>, head: nat, tail: nat)
    requires head < |buffer| && tail < |buffer|
    ensures |Ring(buffer, head, tail)| == if head <= tail then tail - head else tail + |buffer| - head
    ensures head == tail <==> Ring(buffer, head, tail) == []
  {
  }

  lemma FullLength<T>(buffer: seq<T>, head: nat)
    requires head <= |buffer|
    ensures |Full(buffer, head)| == |buffer|
  {
  }
}
