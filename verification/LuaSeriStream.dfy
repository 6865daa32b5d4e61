/** The streams of the serialiser: a list of blocks that grows while it is written, and a
    buffer that is read from front to back. */
module LuaSeriStream {
  import opened LuaSeri

  const BLOCK_SIZE: nat := 128

  type Block = array<Byte>

  ghost function Joined(blocks: seq<Block>): Bytes
    reads blocks
  {
    if blocks == [] then [] else Joined(blocks[..|blocks| - 1]) + blocks[|blocks| - 1][..]
  }

  ghost predicate Blocks(blocks: seq<Block>) {
    && (forall i :: 0 <= i < |blocks| ==> blocks[i].Length == BLOCK_SIZE)
    && (forall i, j :: 0 <= i < j < |blocks| ==> blocks[i] != blocks[j])
  }

  lemma {:induction false} JoinedLength(blocks: seq<Block>)
    requires Blocks(blocks)
    ensures |Joined(blocks)| == BLOCK_SIZE * |blocks|
  {
    if blocks != [] { JoinedLength(blocks[..|blocks| - 1]); }
  }

  lemma JoinedNext(blocks: seq<Block>, k: nat)
    requires k < |blocks|
    ensures Joined(blocks[..k + 1]) == Joined(blocks[..k]) + blocks[k][..]
  {
    assert blocks[..k + 1][..k] == blocks[..k];
  }

  lemma Assoc(a: Bytes, b: Bytes, c: Bytes, d: Bytes)
    ensures a + b + c == a + (b + c) && a + b + c + d == a + (b + c + d)
  {
  }

  class WriteBlock {
    var blocks: seq<Block>
    var ptr: nat
    var len: nat
    ghost var repr: set<object>   // this and the blocks

    ghost predicate Valid() reads this {
      this in repr && (forall b :: b in blocks ==> b in repr) &&
      Blocks(blocks) && blocks != [] && ptr <= BLOCK_SIZE && len == BLOCK_SIZE * (|blocks| - 1) + ptr
    }

    function Current(): Block
      requires blocks != []
      reads this
    {
      blocks[|blocks| - 1]
    }

    ghost function Contents(): Bytes
      requires Valid()
      reads this, blocks
    {
      Joined(blocks[..|blocks| - 1]) + Current()[..ptr]
    }

    constructor ()
      ensures Valid() && Contents() == [] && fresh(repr)
    {
      var block := new Byte[BLOCK_SIZE](_ => 0);
      blocks := [block];
      ptr, len := 0, 0;
      repr := {this, block};
    }

    /** A new block behind a full one. */
    method Extend()
      requires Valid() && ptr == BLOCK_SIZE
      modifies this
      ensures Valid() && Contents() == old(Contents()) && ptr == 0 && fresh(repr - old(repr))
    {
      var block := new Byte[BLOCK_SIZE](_ => 0);
      blocks := blocks + [block];
      repr := repr + {block};
      ptr := 0;
      ghost var was := old(blocks);
      assert blocks[..|blocks| - 1] == was;
      assert was[|was| - 1][..] == was[|was| - 1][..BLOCK_SIZE];
    }

    /** Bytes that fit into the block. */
    method Copy(buffer: Bytes)
      requires Valid() && ptr + |buffer| <= BLOCK_SIZE
      modifies this`ptr, this`len, Current()
      ensures Valid() && repr == old(repr) && Contents() == old(Contents()) + buffer && ptr == old(ptr) + |buffer|
    {
      var block := Current();
      ghost var full := blocks[..|blocks| - 1];
      ghost var before := Joined(full);
      ghost var start := block[..ptr];
      assert block !in full;
      for i := 0 to |buffer|
        invariant block[..ptr + i] == start + buffer[..i]
        invariant Joined(full) == before
        modifies block
      {
        block[ptr + i] := buffer[i];
        assert block[..ptr + i + 1] == block[..ptr + i] + [buffer[i]];
      }
      ptr := ptr + |buffer|;
      len := len + |buffer|;
      assert buffer[..|buffer|] == buffer;
      assert before + (start + buffer) == before + start + buffer;
    }

    /** `wb_push` */
    method Push(buffer: Bytes)
      requires Valid()
      modifies repr
      ensures Valid() && fresh(repr - old(repr)) && Contents() == old(Contents()) + buffer
    {
      var left := buffer;
      if ptr == BLOCK_SIZE { Extend(); }
      while ptr + |left| > BLOCK_SIZE
        invariant Valid() && fresh(repr - old(repr)) && Contents() + left == old(Contents()) + buffer
        invariant ptr < BLOCK_SIZE
        decreases |left|
      {
        var copy := BLOCK_SIZE - ptr;
        ghost var done := Contents();
        Copy(left[..copy]);
        assert done + left == done + left[..copy] + left[copy..];
        left := left[copy..];
        Extend();
      }
      Copy(left);
    }

    /** `seri`: the content of the blocks, in one buffer. */
    method Seri() returns (buffer: array<Byte>)
      requires Valid()
      ensures fresh(buffer) && buffer[..] == Contents()
    {
      hide Joined;
      buffer := new Byte[len](_ => 0);
      var left, at, k := len, 0, 0;
      AllBlocks();
      assert buffer[..0] == [];
      while left > 0
        invariant 0 <= k <= |blocks| && at == BLOCK_SIZE * k && left == len - at
        invariant at <= buffer.Length == len && buffer[..at] == Joined(blocks[..k])
        decreases left
      {
        var block := blocks[k];
        JoinedNext(blocks, k);
        ghost var done := Joined(blocks[..k]);
        if left < BLOCK_SIZE {
          CopyOut(buffer, at, block, left);
          assert buffer[..] == buffer[..at + left] == done + block[..left];
          return;
        }
        CopyOut(buffer, at, block, BLOCK_SIZE);
        assert block[..BLOCK_SIZE] == block[..];
        at := at + BLOCK_SIZE;
        left := left - BLOCK_SIZE;
        k := k + 1;
      }
      assert buffer[..] == buffer[..at];
    }

    /** The first `n` bytes of a block, to a place in a buffer. */
    static method CopyOut(buffer: array<Byte>, at: nat, block: Block, n: nat)
      requires at + n <= buffer.Length && n <= block.Length && buffer != block
      modifies buffer
      ensures buffer[..at + n] == old(buffer[..at]) + block[..n]
    {
      for i := 0 to n
        invariant buffer[..at] == old(buffer[..at]) && buffer[at..at + i] == block[..i]
      {
        buffer[at + i] := block[i];
        assert buffer[at..at + i + 1] == buffer[at..at + i] + [block[i]];
        assert block[..i + 1] == block[..i] + [block[i]];
      }
      assert buffer[..at + n] == buffer[..at] + buffer[at..at + n];
    }

    lemma AllBlocks()
      requires Valid()
      ensures len == BLOCK_SIZE * |blocks| ==> Joined(blocks[..|blocks|]) == Contents()
      ensures len == BLOCK_SIZE * (|blocks| - 1) ==> Joined(blocks[..|blocks| - 1]) == Contents()
      ensures Joined(blocks[..0]) == []
    {
      assert blocks[..|blocks|] == blocks;
      if ptr == BLOCK_SIZE { assert Current()[..ptr] == Current()[..]; }
    }

    method PackString(s: Bytes)
      requires Valid() && |s| <= INT_MAX
      modifies repr
      ensures Valid() && fresh(repr - old(repr)) && Contents() == old(Contents()) + LuaSeri.PackString(s)
    {
      hide Valid, Contents, Le, Combine;
      ghost var was := Contents();
      if |s| < MAX_COOKIE {
        Push([Combine(TYPE_SHORT_STRING, |s|)]);
        Assoc(was, [Combine(TYPE_SHORT_STRING, |s|)], s, []);
        if |s| > 0 { Push(s); } else { assert [Combine(TYPE_SHORT_STRING, 0)] + s == [Combine(TYPE_SHORT_STRING, 0)]; }
      } else {
        var n := if |s| < 0x1_0000 then 2 else 4;
        Push([Combine(TYPE_LONG_STRING, n)]);
        Push(Le(|s|, n));
        Push(s);
        Assoc(was, [Combine(TYPE_LONG_STRING, n)], Le(|s|, n), s);
      }
    }

    method PushInteger(x: Int64)
      requires Valid()
      modifies repr
      ensures Valid() && fresh(repr - old(repr)) && Contents() == old(Contents()) + PackInteger(x)
    {
      hide Valid, Contents, Le;
      if x == 0 {
        Push([Combine(TYPE_NUMBER, NUMBER_ZERO)]);
      } else if !IsInt32(x) {
        Push([Combine(TYPE_NUMBER, NUMBER_QWORD)]);
        Push(Le(Unsigned64(x), 8));
      } else if x < 0 {
        Push([Combine(TYPE_NUMBER, NUMBER_DWORD)]);
        Push(Le(Unsigned32(x), 4));
      } else if x < 0x100 {
        Push([Combine(TYPE_NUMBER, NUMBER_BYTE)]);
        Push(Le(x, 1));
      } else if x < 0x1_0000 {
        Push([Combine(TYPE_NUMBER, NUMBER_WORD)]);
        Push(Le(x, 2));
      } else {
        Push([Combine(TYPE_NUMBER, NUMBER_DWORD)]);
        Push(Le(x, 4));
      }
    }

    /** `pack_one` */
    method PackOne(v: Value, depth: nat) returns (status: Status)
      requires Valid() && Proper(v)
      modifies repr
      ensures Valid() && fresh(repr - old(repr)) && Wrote(status, PackOf(v, depth), old(Contents()), Contents())
      decreases v, 4
    {
      hide Valid, Contents, LuaSeri.PackInteger, LuaSeri.PackString, Combine;
      if depth > MAX_DEPTH {
        return Failed("serialize can't pack too depth table");
      }
      status := Done;
      match v
      case Nil => Push(NIL_BYTES);
      case Integer(i) => PushInteger(i);
      case Real(bits) =>
        Assoc(Contents(), [Combine(TYPE_NUMBER, NUMBER_REAL)], bits, []);
        Push([Combine(TYPE_NUMBER, NUMBER_REAL)]);
        Push(bits);
      case Boolean(b) => Push([Combine(TYPE_BOOLEAN, if b then 1 else 0)]);
      case String(s) => PackString(s);
      case Pointer(bits) =>
        Assoc(Contents(), [Combine(TYPE_USERDATA, 0)], bits, []);
        Push([Combine(TYPE_USERDATA, 0)]);
        Push(bits);
      case Table(_, _) => status := PackTable(v, depth + 1);
      case Unsupported => status := Failed("Unsupport type to serialize");
    }

    /** `wb_table` */
    method PackTable(t: Value, depth: nat) returns (status: Status)
      requires Valid() && Proper(t) && t.Table? && 0 < depth <= MAX_DEPTH + 1
      modifies repr
      ensures Valid() && fresh(repr - old(repr)) && Wrote(status, PackOf(t, depth - 1), old(Contents()), Contents())
      decreases t, 3
    {
      hide Valid, Contents, PackOf, PackItems, PackOthers, TableHead, Then;
      TableSplit(t, depth);
      ghost var head, items, others := Packed(TableHead(t.length)), PackItems(t, 1, depth), PackOthers(t, 0, depth);
      ThenMore(head, items, Then(others, Packed(NIL_BYTES)));
      ThenMore(Then(head, items), others, Packed(NIL_BYTES));
      status := PackArray(t, depth);
      if status.Failed? {
        FailedThen(Then(head, items), Then(others, Packed(NIL_BYTES)), status, old(Contents()), Contents());
        return;
      }
      ghost var c0, c1 := old(Contents()), Contents();
      WroteFine(Then(head, items), status, c0, c1);
      status := PackHash(t, depth);
      WroteThen(Then(head, items), others, status, c0, c1, Contents());
      if status.Failed? {
        FailedThen(Then(Then(head, items), others), Packed(NIL_BYTES), status, c0, Contents());
        return;
      }
      WroteFine(Then(Then(head, items), others), status, c0, Contents());
      ghost var c2 := Contents();
      Push(NIL_BYTES);
      WroteThen(Then(Then(head, items), others), Packed(NIL_BYTES), Done, c0, c2, Contents());
    }

    /** `wb_table_array` */
    method PackArray(t: Value, depth: nat) returns (status: Status)
      requires Valid() && Proper(t) && t.Table?
      modifies repr
      ensures Valid() && fresh(repr - old(repr))
      ensures Wrote(status, Then(Packed(TableHead(t.length)), PackItems(t, 1, depth)), old(Contents()), Contents())
      decreases t, 2
    {
      hide Valid, Contents, PackOf, PackItem, PackItems, TableHead, Then, Wrote;
      PushHead(t.length);
      ghost var done, goal := Packed(TableHead(t.length)), Then(Packed(TableHead(t.length)), PackItems(t, 1, depth));
      WroteAll(done.bytes, old(Contents()));
      var i := 1;
      while i <= t.length
        invariant 1 <= i <= t.length + 1 && Valid() && fresh(repr - old(repr))
        invariant done.Packed? && Wrote(Done, done, old(Contents()), Contents())
        invariant Then(done, PackItems(t, i, depth)) == goal
      {
        ghost var c0, c1 := old(Contents()), Contents();
        ghost var item := PackItem(t, i, depth);
        ItemsSplit(t, i, depth);
        ThenMore(done, item, PackItems(t, i + 1, depth));
        status := PushItem(t, i, depth);
        WroteThen(done, item, status, c0, c1, Contents());
        done := Then(done, item);
        if status.Failed? {
          FailedThen(done, PackItems(t, i + 1, depth), status, c0, Contents());
          return;
        }
        WroteDone(done, c0, Contents());
        i := i + 1;
      }
      NoItems(t, depth, done);
      status := Done;
    }

    method PushItem(t: Value, i: nat, depth: nat) returns (status: Status)
      requires Valid() && Proper(t) && t.Table? && 1 <= i <= t.length
      modifies repr
      ensures Valid() && fresh(repr - old(repr)) && Wrote(status, PackItem(t, i, depth), old(Contents()), Contents())
      decreases t, 1
    {
      hide Valid, Contents, PackOf, FindKey;
      var f := FindKey(t.fields, Integer(i));
      if f >= 0 {
        status := PackOne(t.fields[f].value, depth);
      } else if depth > MAX_DEPTH {
        status := Failed("serialize can't pack too depth table");
      } else {
        Push(NIL_BYTES);
        status := Done;
      }
    }

    method PushHead(n: nat)
      requires Valid() && n <= INT_MAX
      modifies repr
      ensures Valid() && fresh(repr - old(repr)) && Contents() == old(Contents()) + TableHead(n)
    {
      hide Valid, Contents, PackInteger, Combine;
      if n >= MAX_COOKIE - 1 {
        Assoc(Contents(), [Combine(TYPE_TABLE, MAX_COOKIE - 1)], PackInteger(n), []);
        Push([Combine(TYPE_TABLE, MAX_COOKIE - 1)]);
        PushInteger(n);
      } else {
        Push([Combine(TYPE_TABLE, n)]);
      }
    }

    /** `wb_table_hash`, without the nil at its end. */
    method PackHash(t: Value, depth: nat) returns (status: Status)
      requires Valid() && Proper(t) && t.Table?
      modifies repr
      ensures Valid() && fresh(repr - old(repr)) && Wrote(status, PackOthers(t, 0, depth), old(Contents()), Contents())
      decreases t, 2
    {
      hide Valid, Contents, PackOf, PackOthers, Then, Wrote, InArray;
      ghost var done, goal := Packed([]), PackOthers(t, 0, depth);
      WroteAll([], old(Contents()));
      NothingThen(goal);
      assert Contents() + [] == Contents();
      var f := 0;
      while f < |t.fields|
        invariant 0 <= f <= |t.fields| && Valid() && fresh(repr - old(repr))
        invariant done.Packed? && Wrote(Done, done, old(Contents()), Contents())
        invariant Then(done, PackOthers(t, f, depth)) == goal
      {
        OthersSplit(t, f, depth);
        if !InArray(t.fields[f].key, t.length) {
          ghost var c0, c1 := old(Contents()), Contents();
          ghost var k, v := PackOf(t.fields[f].key, depth), PackOf(t.fields[f].value, depth);
          ghost var more := PackOthers(t, f + 1, depth);
          ThenMore(done, k, Then(v, more));
          ThenMore(Then(done, k), v, more);
          status := PackOne(t.fields[f].key, depth);
          WroteThen(done, k, status, c0, c1, Contents());
          done := Then(done, k);
          if status.Failed? {
            FailedThen(done, Then(v, more), status, c0, Contents());
            return;
          }
          WroteDone(done, c0, Contents());
          ghost var c2 := Contents();
          status := PackOne(t.fields[f].value, depth);
          WroteThen(done, v, status, c0, c2, Contents());
          done := Then(done, v);
          if status.Failed? {
            FailedThen(done, more, status, c0, Contents());
            return;
          }
          WroteDone(done, c0, Contents());
        }
        f := f + 1;
      }
      NoOthersLeft(t, depth, done);
      status := Done;
    }
  }

  datatype Status = Done | Failed(message: string)

  /** What a call wrote: all bytes of `p` behind `before`, or it failed as `p` did. */
  predicate Wrote(status: Status, p: Packed, before: Bytes, after: Bytes) {
    if p.Packed? then status == Done && after == before + p.bytes else status == Failed(p.message)
  }

  lemma WroteAll(bytes: Bytes, before: Bytes)
    ensures Wrote(Done, Packed(bytes), before, before + bytes)
  {
  }

  lemma WroteDone(p: Packed, before: Bytes, after: Bytes)
    requires Wrote(Done, p, before, after)
    ensures p.Packed?
  {
  }

  lemma WroteFine(p: Packed, status: Status, before: Bytes, after: Bytes)
    requires Wrote(status, p, before, after) && status.Done?
    ensures p.Packed? && Wrote(Done, p, before, after)
  {
  }

  lemma WroteThen(p: Packed, q: Packed, status: Status, c0: Bytes, c1: Bytes, c2: Bytes)
    requires p.Packed? && Wrote(Done, p, c0, c1) && Wrote(status, q, c1, c2)
    ensures Wrote(status, Then(p, q), c0, c2)
  {
    if q.Packed? { Assoc(c0, p.bytes, q.bytes, []); }
  }

  lemma FailedThen(p: Packed, q: Packed, status: Status, c0: Bytes, c1: Bytes)
    requires status.Failed? && Wrote(status, p, c0, c1)
    ensures Wrote(status, Then(p, q), c0, c1)
  {
  }

  lemma ThenMore(a: Packed, b: Packed, c: Packed)
    ensures Then(Then(a, b), c) == Then(a, Then(b, c))
  {
    if a.Packed? && b.Packed? && c.Packed? { Assoc(a.bytes, b.bytes, c.bytes, []); }
  }

  lemma NothingThen(p: Packed)
    ensures Then(Packed([]), p) == p && Then(p, Packed([])) == p
  {
    if p.Packed? { assert [] + p.bytes == p.bytes && p.bytes + [] == p.bytes; }
  }

  lemma TableSplit(t: Value, depth: nat)
    requires t.Table? && Proper(t) && 0 < depth <= MAX_DEPTH + 1
    ensures PackOf(t, depth - 1) ==
            Then(Packed(TableHead(t.length)), Then(PackItems(t, 1, depth), Then(PackOthers(t, 0, depth), Packed(NIL_BYTES))))
  {
    hide PackItems, PackOthers, TableHead, Then;
  }

  lemma ItemsSplit(t: Value, i: nat, depth: nat)
    requires t.Table? && Proper(t) && 1 <= i <= t.length
    ensures PackItems(t, i, depth) == Then(PackItem(t, i, depth), PackItems(t, i + 1, depth))
  {
    hide PackItem, Then;
  }

  lemma NoItems(t: Value, depth: nat, done: Packed)
    requires t.Table? && Proper(t)
    ensures Then(done, PackItems(t, t.length + 1, depth)) == done
  {
    NothingThen(done);
  }

  lemma OthersSplit(t: Value, f: nat, depth: nat)
    requires t.Table? && Proper(t) && f < |t.fields|
    ensures PackOthers(t, f, depth) ==
            if InArray(t.fields[f].key, t.length) then PackOthers(t, f + 1, depth)
            else Then(PackOf(t.fields[f].key, depth), Then(PackOf(t.fields[f].value, depth), PackOthers(t, f + 1, depth)))
  {
    hide PackOf, InArray, Then;
  }

  lemma NoOthersLeft(t: Value, depth: nat, done: Packed)
    requires t.Table? && Proper(t)
    ensures Then(done, PackOthers(t, |t.fields|, depth)) == done
  {
    NothingThen(done);
  }

  /* ---------- reading ---------- */

  datatype Maybe<T> = None | Some(value: T)

  /** Does a call read what `spec` says, and leave `rest`? */
  predicate Reads<T(==)>(r: Maybe<T>, spec: Read<T>, rest: Bytes) {
    match r
    case Some(value) => spec == Got(value, rest)
    case None => spec == Invalid
  }

  class ReadBlock {
    const buffer: Bytes
    var len: nat
    var ptr: nat

    ghost predicate Valid() reads this { ptr + len == |buffer| }

    ghost function Rest(): (s: Bytes)
      requires Valid()
      reads this
      ensures |s| == len
    {
      buffer[ptr..]
    }

    constructor (buffer: Bytes)
      ensures Valid() && Rest() == buffer
    {
      this.buffer := buffer;
      len, ptr := |buffer|, 0;
    }

    /** `rb_read` */
    method RbRead(sz: nat) returns (r: Maybe<Bytes>)
      requires Valid()
      modifies this
      ensures Valid() && len <= old(len) && Reads(r, Take(sz, old(Rest())), Rest())
    {
      if len < sz { return None; }
      var at := ptr;
      ptr := ptr + sz;
      len := len - sz;
      assert buffer[at..][..sz] == buffer[at..at + sz] && buffer[at..][sz..] == buffer[ptr..];
      r := Some(buffer[at..at + sz]);
    }

    /** `get_integer` */
    method ReadInteger(cookie: nat) returns (r: Maybe<Int64>)
      requires Valid()
      modifies this
      ensures Valid() && len <= old(len) && Reads(r, GetInteger(cookie, old(Rest())), Rest())
    {
      hide FromLe, Power256;
      if cookie == NUMBER_ZERO { return Some(0); }
      if cookie != NUMBER_BYTE && cookie != NUMBER_WORD && cookie != NUMBER_DWORD && cookie != NUMBER_QWORD { return None; }
      var n := if cookie == NUMBER_BYTE then 1 else if cookie == NUMBER_WORD then 2 else if cookie == NUMBER_DWORD then 4 else 8;
      var s := RbRead(n);
      if s == None { return None; }
      FromLeBound(s.value);
      Powers();
      var u := FromLe(s.value);
      r := Some(if n == 4 then Signed32(u) else if n == 8 then Signed64(u) else u);
    }

    /** `get_buffer` */
    method ReadBuffer(n: nat) returns (r: Maybe<Value>)
      requires Valid()
      modifies this
      ensures Valid() && len <= old(len) && Reads(r, GetBuffer(n, old(Rest())), Rest())
    {
      if n > INT_MAX { return None; }
      var s := RbRead(n);
      r := if s == None then None else Some(String(s.value));
    }

    /** `unpack_one` */
    method UnpackOne() returns (r: Maybe<Value>)
      requires Valid()
      modifies this
      ensures Valid() && (r.Some? ==> len < old(len)) && Reads(r, Decode(old(Rest())), Rest())
      decreases len, 0
    {
      hide LuaSeri.PushValue, KindOf, CookieOf;
      var kind := RbRead(1);
      if kind == None { return None; }
      r := PushValue(KindOf(kind.value[0]), CookieOf(kind.value[0]));
    }

    /** `push_value` */
    method PushValue(kind: nat, cookie: nat) returns (r: Maybe<Value>)
      requires Valid() && cookie < 32
      modifies this
      ensures Valid() && (r.Some? ==> len <= old(len)) && Reads(r, LuaSeri.PushValue(kind, cookie, old(Rest())), Rest())
      decreases len, 4
    {
      hide GetInteger, GetBuffer, LuaSeri.UnpackTable, FromLe, Take;
      if kind == TYPE_NIL {
        r := Some(Nil);
      } else if kind == TYPE_BOOLEAN {
        r := Some(Boolean(cookie != 0));
      } else if kind == TYPE_NUMBER {
        if cookie == NUMBER_REAL {
          var bits := RbRead(WORD_SIZE);
          r := if bits == None then None else Some(Real(bits.value));
        } else {
          var i := ReadInteger(cookie);
          r := if i == None then None else Some(Integer(i.value));
        }
      } else if kind == TYPE_USERDATA {
        var bits := RbRead(WORD_SIZE);
        r := if bits == None then None else Some(Pointer(bits.value));
      } else if kind == TYPE_SHORT_STRING {
        r := ReadBuffer(cookie);
      } else if kind == TYPE_LONG_STRING {
        if cookie != 2 && cookie != 4 { return None; }
        var n := RbRead(cookie);
        if n == None { return None; }
        r := ReadBuffer(FromLe(n.value));
      } else if kind == TYPE_TABLE {
        r := UnpackTable(cookie);
      } else {
        r := None;
      }
    }

    /** `unpack_table` */
    method UnpackTable(cookie: nat) returns (r: Maybe<Value>)
      requires Valid() && cookie < 32
      modifies this
      ensures Valid() && (r.Some? ==> len <= old(len)) && Reads(r, LuaSeri.UnpackTable(cookie, old(Rest())), Rest())
      decreases len, 3
    {
      hide GetInteger, LuaSeri.TableBody, KindOf, CookieOf;
      var size: int := cookie;
      if cookie == MAX_COOKIE - 1 {
        var kind := RbRead(1);
        if kind == None { return None; }
        if KindOf(kind.value[0]) != TYPE_NUMBER || CookieOf(kind.value[0]) == NUMBER_REAL { return None; }
        var n := ReadInteger(CookieOf(kind.value[0]));
        if n == None { return None; }
        size := ToInt(n.value);
        assert TableSize(old(Rest())) == Got(size, Rest());
      }
      r := TableBody(size);
    }

    method TableBody(n: int) returns (r: Maybe<Value>)
      requires Valid() && n <= INT_MAX
      modifies this
      ensures Valid() && (r.Some? ==> len <= old(len)) && Reads(r, LuaSeri.TableBody(n, old(Rest())), Rest())
      decreases len, 2
    {
      hide DecodeItems, DecodeOthers;
      var items := UnpackItems(n);
      if items == None { return None; }
      var others := UnpackOthers();
      if others == None { return None; }
      r := Some(Table(if n < 0 then 0 else n, items.value + others.value));
    }

    /** The first loop of `unpack_table`. */
    method UnpackItems(n: int) returns (r: Maybe<seq<Field>>)
      requires Valid() && n <= INT_MAX
      modifies this
      ensures Valid() && (r.Some? ==> len <= old(len)) && Reads(r, DecodeItems(1, n, old(Rest())), Rest())
      decreases len, 1
    {
      hide Decode, DecodeItems, SetItem;
      var fields := [];
      var i := 1;
      Prepended([], DecodeItems(1, n, Rest()));
      while i <= n
        invariant 1 <= i <= INT_MAX + 1 && Valid() && len <= old(len)
        invariant DecodeItems(1, n, old(Rest())) == Prepend(fields, DecodeItems(i, n, Rest()))
        decreases n - i
      {
        ItemsUnfold(i, n, Rest());
        var v := UnpackOne();
        if v == None { return None; }
        PrependMore(fields, SetItem(i, v.value), DecodeItems(i + 1, n, Rest()));
        fields := fields + SetItem(i, v.value);
        i := i + 1;
      }
      ItemsEnd(i, n, Rest());
      assert fields + [] == fields;
      r := Some(fields);
    }

    /** The second loop of `unpack_table`. */
    method UnpackOthers() returns (r: Maybe<seq<Field>>)
      requires Valid()
      modifies this
      ensures Valid() && (r.Some? ==> len <= old(len)) && Reads(r, DecodeOthers(old(Rest())), Rest())
      decreases len, 1
    {
      hide Decode, DecodeOthers, NanKey;
      var fields := [];
      Prepended([], DecodeOthers(Rest()));
      while true
        invariant Valid() && len <= old(len)
        invariant DecodeOthers(old(Rest())) == Prepend(fields, DecodeOthers(Rest()))
        decreases len
      {
        OthersUnfold(Rest());
        var k := UnpackOne();
        if k == None { return None; }
        if k.value.Nil? {
          assert fields + [] == fields;
          return Some(fields);
        }
        var v := UnpackOne();
        if v == None || NanKey(k.value) { return None; }
        PrependMore(fields, [Field(k.value, v.value)], DecodeOthers(Rest()));
        fields := fields + [Field(k.value, v.value)];
      }
    }
  }

  function Prepend(fields: seq<Field>, r: Read<seq<Field>>): Read<seq<Field>> {
    match r
    case Got(more, rest) => Got(fields + more, rest)
    case Invalid => Invalid
  }

  lemma Prepended(fields: seq<Field>, r: Read<seq<Field>>)
    ensures Prepend([], r) == r
  {
    if r.Got? { assert [] + r.value == r.value; }
  }

  lemma PrependMore(a: seq<Field>, b: seq<Field>, r: Read<seq<Field>>)
    ensures Prepend(a, Prepend(b, r)) == Prepend(a + b, r)
  {
    if r.Got? { assert a + (b + r.value) == a + b + r.value; }
  }

  lemma ItemsUnfold(i: nat, n: int, s: Bytes)
    requires i <= n <= INT_MAX
    ensures DecodeItems(i, n, s) ==
            match Decode(s)
            case Invalid => Invalid
            case Got(v, rest) => Prepend(SetItem(i, v), DecodeItems(i + 1, n, rest))
  {
    hide Decode, SetItem;
  }

  lemma ItemsEnd(i: nat, n: int, s: Bytes)
    requires n < i <= INT_MAX + 1
    ensures DecodeItems(i, n, s) == Got([], s)
  {
  }

  lemma OthersUnfold(s: Bytes)
    ensures DecodeOthers(s) ==
            match Decode(s)
            case Invalid => Invalid
            case Got(k, s1) =>
              if k.Nil? then Got([], s1)
              else
                match Decode(s1)
                case Invalid => Invalid
                case Got(v, s2) => if NanKey(k) then Invalid else Prepend([Field(k, v)], DecodeOthers(s2))
  {
    hide Decode, NanKey;
  }

  /* ---------- argument lists ---------- */

  /** `pack_from`: all arguments, one behind the other. */
  function PackAll(values: seq<Value>): Packed
    requires forall v :: v in values ==> Proper(v)
  {
    if values == [] then Packed([]) else Then(PackOf(values[0], 0), PackAll(values[1..]))
  }

  function DecodeAll(s: Bytes): Maybe<seq<Value>>
    decreases |s|
  {
    if s == [] then Some([])
    else
      match Decode(s)
      case Invalid => None
      case Got(v, rest) =>
        match DecodeAll(rest)
        case None => None
        case Some(more) => Some([v] + more)
  }

  function AllRebuilt(values: seq<Value>): seq<Value>
    requires forall v :: v in values ==> Proper(v)
  {
    if values == [] then [] else [Rebuilt(values[0])] + AllRebuilt(values[1..])
  }

  /** Unpacking the bytes of any arguments gives these arguments. */
  lemma {:induction false} AllRoundTrip(values: seq<Value>)
    requires (forall v :: v in values ==> Proper(v)) && PackAll(values).Packed?
    ensures DecodeAll(PackAll(values).bytes) == Some(AllRebuilt(values))
  {
    if values != [] {
      hide PackOf, Decode, Rebuilt;
      var first, more := PackOf(values[0], 0), PackAll(values[1..]);
      assert PackAll(values) == Then(first, more);
      RoundTrip(values[0], 0, more.bytes);
      AllRoundTrip(values[1..]);
    }
  }

  /** `luaseri_pack` */
  method LuaseriPack(values: seq<Value>) returns (status: Status, buffer: array<Byte>)
    requires forall v :: v in values ==> Proper(v)
    ensures fresh(buffer)
    ensures match PackAll(values)
            case Packed(bytes) => status == Done && buffer[..] == bytes
            case Error(message) => status == Failed(message)
  {
    hide PackOf, Then, Wrote;
    var wb := new WriteBlock();
    buffer := new Byte[0];
    ghost var done := Packed([]);
    WroteAll([], []);
    NothingThen(PackAll(values));
    var i := 0;
    assert values[0..] == values;
    while i < |values|
      invariant 0 <= i <= |values| && wb.Valid() && fresh(wb.repr) && done.Packed?
      invariant Wrote(Done, done, [], wb.Contents()) && Then(done, PackAll(values[i..])) == PackAll(values)
    {
      ghost var c1 := wb.Contents();
      AllUnfold(values[i..]);
      assert values[i..][1..] == values[i + 1..];
      ThenMore(done, PackOf(values[i], 0), PackAll(values[i + 1..]));
      status := wb.PackOne(values[i], 0);
      WroteThen(done, PackOf(values[i], 0), status, [], c1, wb.Contents());
      done := Then(done, PackOf(values[i], 0));
      if status.Failed? {
        FailedThen(done, PackAll(values[i + 1..]), status, [], wb.Contents());
        WroteIs(status, PackAll(values), wb.Contents());
        return;
      }
      WroteDone(done, [], wb.Contents());
      i := i + 1;
    }
    NothingThen(done);
    WroteIs(Done, done, wb.Contents());
    buffer := wb.Seri();
    status := Done;
  }

  lemma AllUnfold(values: seq<Value>)
    requires values != [] && forall v :: v in values ==> Proper(v)
    ensures PackAll(values) == Then(PackOf(values[0], 0), PackAll(values[1..]))
  {
  }

  lemma WroteIs(status: Status, p: Packed, after: Bytes)
    requires Wrote(status, p, [], after)
    ensures if p.Packed? then status == Done && after == p.bytes else status == Failed(p.message)
  {
  }

  /** `luaseri_unpack` */
  method LuaseriUnpack(buffer: Bytes) returns (r: Maybe<seq<Value>>)
    ensures r == DecodeAll(buffer)
  {
    hide Decode, KindOf, CookieOf;
    if |buffer| == 0 { return Some([]); }
    var rb := new ReadBlock(buffer);
    var values: seq<Value> := [];
    assert forall more: seq<Value> :: values + more == more;
    while rb.len > 0
      invariant rb.Valid() && fresh(rb)
      invariant DecodeAll(buffer) == match DecodeAll(rb.Rest()) case None => None case Some(more) => Some(values + more)
      decreases rb.len
    {
      ghost var rest := rb.Rest();
      var v := rb.UnpackOne();
      if v == None { return None; }
      assert forall more :: values + ([v.value] + more) == values + [v.value] + more;
      values := values + [v.value];
    }
    assert values + [] == values;
    r := Some(values);
  }
}
