/** The packed hash of a shared table: as many slots as keys, filled in two passes, with the
    chains of colliding keys linked inside the array. */
module LuaSharedata {

  type Byte = bv8
  type Str = seq<Byte>

  datatype Option<T> = None | Some(value: T)

  datatype Key = IntKey(i: int) | StrKey(s: Str)

  const WRAP: nat := 0x1_0000_0000

  /** The keys of the source table have integers of 64 bits, those of the packed one of 32. */
  predicate IsWide(k: Key) { k.IntKey? ==> -0x8000_0000_0000_0000 <= k.i < 0x8000_0000_0000_0000 }

  predicate IsKey(k: Key) { k.IntKey? ==> -0x8000_0000 <= k.i < 0x8000_0000 }

  /** The conversion to an `int`. */
  function Cut(k: Key): (c: Key)
    ensures IsKey(c) && (IsKey(k) ==> c == k)
  {
    match k
    case IntKey(i) => IntKey(if i % WRAP < 0x8000_0000 then i % WRAP else i % WRAP - WRAP)
    case StrKey(_) => k
  }

  /** A slot: the key of a string is its place in the string table; an unused slot has no
      value. */
  datatype Node<V> = Node(v: Option<V>, isString: bool, key: int, keyhash: nat, next: int, nocolliding: bool)

  /** The hash of a string: one byte in every `step`, from the end. */
  function HashFrom(s: Str, h: bv32, left: nat, step: nat): bv32
    requires left <= |s| && step > 0
    decreases left
  {
    if left < step then h
    else HashFrom(s, h ^ ((h << 5) + (h >> 2) + (s[left - 1] as bv32)), left - step, step)
  }

  function CalcHash(s: Str): (h: nat)
    ensures h < WRAP
  {
    HashFrom(s, (|s| % WRAP) as bv32, |s|, |s| / 32 + 1) as nat
  }

  function KeyHash(k: Key): (h: nat)
    ensures h < WRAP
  {
    match k
    case IntKey(i) => i % WRAP
    case StrKey(s) => CalcHash(s)
  }

  function Main(k: Key, n: nat): (m: nat)
    requires n > 0
    ensures m < n
  {
    KeyHash(k) % n
  }

  /* ---------- what the array means ---------- */

  /** Every string has one place. */
  predicate Distinct<T(==)>(s: seq<T>) { forall i, j :: 0 <= i < j < |s| ==> s[i] != s[j] }

  predicate Encodes(strings: seq<Str>, isString: bool, key: int, k: Key) {
    match k
    case IntKey(i) => !isString && key == i
    case StrKey(s) => isString && 0 < key <= |strings| && strings[key - 1] == s
  }

  predicate Holds<V>(strings: seq<Str>, node: Node<V>, k: Key) {
    node.v.Some? && Encodes(strings, node.isString, node.key, k) && node.keyhash == KeyHash(k)
  }

  /** The slots of a chain: from the main position on, each linked to the next, all with
      keys of that main position. */
  predicate Chain<V>(h: seq<Node<V>>, at: seq<Option<Key>>, m: nat, c: seq<nat>) {
    && |h| == |at| > 0
    && (c != [] ==> c[0] == m)
    && Distinct(c)
    && forall j :: 0 <= j < |c| ==>
         && c[j] < |at| && at[c[j]].Some? && Main(at[c[j]].value, |at|) == m
         && h[c[j]].next == if j + 1 < |c| then c[j + 1] else -1
  }

  /** The slots hold the keys `at`, each once. */
  ghost predicate Slots<V>(h: seq<Node<V>>, strings: seq<Str>, at: seq<Option<Key>>) {
    && |h| == |at|
    && (forall i :: 0 <= i < |h| ==> (h[i].v.Some? <==> at[i].Some?))
    && (forall i :: 0 <= i < |h| && at[i].Some? ==> Holds(strings, h[i], at[i].value))
    && (forall i, j :: 0 <= i < j < |h| && at[i].Some? ==> at[i] != at[j])
  }

  ghost predicate Chains<V>(h: seq<Node<V>>, at: seq<Option<Key>>, chains: seq<seq<nat>>) {
    |h| == |at| == |chains| && forall m :: 0 <= m < |h| ==> Chain(h, at, m, chains[m])
  }

  /** Every key is in the chain of its main position, and a slot that claims to be alone is. */
  ghost predicate Members<V>(h: seq<Node<V>>, at: seq<Option<Key>>, chains: seq<seq<nat>>) {
    && |h| == |at| == |chains|
    && forall i :: 0 <= i < |h| && at[i].Some? ==>
         var c := chains[Main(at[i].value, |at|)];
         i in c && (h[i].nocolliding <==> c == [i])
  }

  ghost predicate Packed<V>(h: seq<Node<V>>, strings: seq<Str>, at: seq<Option<Key>>, chains: seq<seq<nat>>) {
    |h| > 0 && Slots(h, strings, at) && Chains(h, at, chains) && Members(h, at, chains)
  }

  /** A main position that any key has holds a key of that main position. */
  predicate Headed(at: seq<Option<Key>>, k: Key)
    requires |at| > 0
  {
    var m := Main(k, |at|);
    at[m].Some? && Main(at[m].value, |at|) == m
  }

  lemma ChainHead<V>(h: seq<Node<V>>, strings: seq<Str>, at: seq<Option<Key>>, chains: seq<seq<nat>>, m: nat)
    requires Packed(h, strings, at, chains) && m < |h|
    ensures chains[m] != [] <==> at[m].Some? && Main(at[m].value, |at|) == m
  {
    assert Chain(h, at, m, chains[m]);
  }

  /* ---------- the two ways to add a key ---------- */

  lemma AddSlot<V>(h: seq<Node<V>>, strings: seq<Str>, at: seq<Option<Key>>, node: Node<V>, k: Key, e: nat)
    requires Slots(h, strings, at) && Some(k) !in at && Holds(strings, node, k) && e < |h|
    ensures Slots(h[e := node], strings, at[e := Some(k)])
  {
    assert node.v.Some?;
    hide Holds;
    forall i | 0 <= i < |at| ensures at[i] != Some(k) { assert at[i] in at; }
  }

  /** A free slot is in no chain, so filling it changes none. */
  lemma FreeSlot<V>(h: seq<Node<V>>, at: seq<Option<Key>>, q: nat, c: seq<nat>, node: Node<V>, k: Key, e: nat)
    requires Chain(h, at, q, c) && e < |at| && at[e] == None
    ensures Chain(h[e := node], at[e := Some(k)], q, c) && e !in c
  {
    hide Main;
  }

  /** The first pass puts a key in its main position when that is free. */
  lemma AddFirst<V>(h: seq<Node<V>>, strings: seq<Str>, at: seq<Option<Key>>, chains: seq<seq<nat>>,
                    node: Node<V>, k: Key)
    requires Packed(h, strings, at, chains) && Some(k) !in at && Holds(strings, node, k)
    requires at[Main(k, |at|)] == None && node.next == -1 && node.nocolliding
    ensures var m := Main(k, |at|);
            Packed(h[m := node], strings, at[m := Some(k)], chains[m := [m]])
  {
    hide Holds, Main, Slots;
    var n, m := |at|, Main(k, |at|);
    var h', at', chains' := h[m := node], at[m := Some(k)], chains[m := [m]];
    ChainHead(h, strings, at, chains, m);
    AddSlot(h, strings, at, node, k, m);
    forall q | 0 <= q < n ensures Chain(h', at', q, chains'[q]) {
      FreeSlot(h, at, q, chains[q], node, k, m);
    }
    forall i | 0 <= i < n && at'[i].Some?
      ensures var c := chains'[Main(at'[i].value, n)]; i in c && (h'[i].nocolliding <==> c == [i])
    {
      if i != m { ChainHead(h, strings, at, chains, Main(at[i].value, n)); }
    }
  }

  /** The chain with a slot behind its head. */
  lemma BehindHead<V>(h: seq<Node<V>>, at: seq<Option<Key>>, m: nat, c: seq<nat>, node: Node<V>, k: Key, e: nat)
    requires Chain(h, at, m, c) && c != [] && e < |at| && at[e] == None && Main(k, |at|) == m < |at|
    requires node.next == h[m].next
    ensures Chain(h[m := h[m].(next := e, nocolliding := false)][e := node], at[e := Some(k)], m, [m, e] + c[1..])
  {
    hide Main;
    FreeSlot(h, at, m, c, node, k, e);
    assert c[0] == m && at[c[0]].Some?;
    var h', at' := h[m := h[m].(next := e, nocolliding := false)][e := node], at[e := Some(k)];
    forall q | 0 <= q < |at| && q != m && q != e ensures h'[q] == h[q] && at'[q] == at[q] { }
    Linked(h, at, h', at', m, c, [m, e] + c[1..], e);
  }

  lemma ChainLink<V>(h: seq<Node<V>>, at: seq<Option<Key>>, m: nat, c: seq<nat>, i: nat)
    requires Chain(h, at, m, c) && i < |c|
    ensures c[i] < |at| && at[c[i]].Some? && Main(at[c[i]].value, |at|) == m
    ensures h[c[i]].next == if i + 1 < |c| then c[i + 1] else -1
  {
  }

  lemma Linked<V>(h: seq<Node<V>>, at: seq<Option<Key>>, h': seq<Node<V>>, at': seq<Option<Key>>,
                  m: nat, c: seq<nat>, c': seq<nat>, e: nat)
    requires Chain(h, at, m, c) && c != [] && e < |at| && e !in c && |h'| == |at'| == |at|
    requires |c'| == |c| + 1 && c'[0] == m && c'[1] == e && forall j :: 2 <= j < |c'| ==> c'[j] == c[j - 1]
    requires forall q :: 0 <= q < |at| && q != m && q != e ==> h'[q] == h[q] && at'[q] == at[q]
    requires at'[m] == at[m] && h'[m].next == e && h'[e].next == h[m].next
    requires at'[e].Some? && Main(at'[e].value, |at|) == m
    ensures Chain(h', at', m, c')
  {
    hide Main;
    assert c[0] == m && h[c[0]].next == (if 1 < |c| then c[1] else -1);
    forall j | 2 <= j < |c'| ensures c'[j] != m && c'[j] != e && c'[j] == c[j - 1] < |at| {
      assert c[j - 1] in c && c[j - 1] != c[0];
    }
    forall i, j | 0 <= i < j < |c'| ensures c'[i] != c'[j] {
      if i >= 2 { assert c[i - 1] != c[j - 1]; }
    }
    assert Distinct(c');
    forall j | 0 <= j < |c'| ensures c'[j] < |at'| && at'[c'[j]].Some? && Main(at'[c'[j]].value, |at'|) == m
      ensures h'[c'[j]].next == if j + 1 < |c'| then c'[j + 1] else -1 {
      if j == 0 {
      } else if j == 1 {
        assert h'[e].next == if 1 < |c| then c[1] else -1;
        assert 1 < |c| ==> c'[2] == c[1];
      } else {
        var i := j - 1;
        assert c'[j] == c[i] && h'[c'[j]] == h[c[i]];
        ChainLink(h, at, m, c, i);
      }
    }
  }

  /** The second pass puts it in any free slot, behind the head of its chain. */
  lemma AddSecond<V>(h: seq<Node<V>>, strings: seq<Str>, at: seq<Option<Key>>, chains: seq<seq<nat>>,
                     node: Node<V>, k: Key, e: nat)
    requires Packed(h, strings, at, chains) && Some(k) !in at && Holds(strings, node, k)
    requires Headed(at, k) && e < |at| && at[e] == None
    requires node.next == h[Main(k, |at|)].next && !node.nocolliding
    ensures var m := Main(k, |at|);
            Packed(h[m := h[m].(next := e, nocolliding := false)][e := node], strings,
                   at[e := Some(k)], chains[m := [m, e] + chains[m][1..]])
  {
    hide Main;
    var n, m := |at|, Main(k, |at|);
    var h1 := h[m := h[m].(next := e, nocolliding := false)];
    var h', at', chains' := h1[e := node], at[e := Some(k)], chains[m := [m, e] + chains[m][1..]];
    ChainHead(h, strings, at, chains, m);
    assert Slots(h1, strings, at);
    AddSlot(h1, strings, at, node, k, e);
    hide Slots, Holds;
    forall q | 0 <= q < n ensures Chain(h', at', q, chains'[q]) {
      if q == m {
        BehindHead(h, at, m, chains[m], node, k, e);
      } else {
        NotHead(h, at, q, chains[q], m, h[m].(next := e, nocolliding := false));
        FreeSlot(h1, at, q, chains[q], node, k, e);
      }
    }
    forall i | 0 <= i < n && at'[i].Some?
      ensures var c := chains'[Main(at'[i].value, n)]; i in c && (h'[i].nocolliding <==> c == [i])
    {
      var c := chains[m];
      if i != e && Main(at[i].value, n) == m {
        assert i in c;
        if i != m { StillIn(c, i, e); }
      }
    }
  }

  /** The head of another chain is not in this one, so its links may change. */
  lemma NotHead<V>(h: seq<Node<V>>, at: seq<Option<Key>>, q: nat, c: seq<nat>, m: nat, node: Node<V>)
    requires Chain(h, at, q, c) && m < |at| && at[m].Some? && Main(at[m].value, |at|) == m != q
    ensures Chain(h[m := node], at, q, c)
  {
    hide Main;
  }

  lemma StillIn(c: seq<nat>, i: nat, e: nat)
    requires i in c && c[0] != i
    ensures i in [c[0], e] + c[1..]
  {
    var j :| 0 <= j < |c| && c[j] == i;
    assert ([c[0], e] + c[1..])[j + 1] == i;
  }

  /* ---------- as many slots as keys ---------- */

  function Keys(at: seq<Option<Key>>): set<Key> { set i | 0 <= i < |at| && at[i].Some? :: at[i].value }

  /** Slots that hold different keys hold as many keys as there are slots. */
  lemma {:induction false} KeysCount(at: seq<Option<Key>>)
    requires forall i :: 0 <= i < |at| ==> at[i].Some?
    requires forall i, j :: 0 <= i < j < |at| ==> at[i] != at[j]
    ensures |Keys(at)| == |at|
  {
    if at != [] {
      var k := |at| - 1;
      var rest, last := at[..k], at[k].value;
      KeysCount(rest);
      assert last !in Keys(rest);
      assert Keys(at) == Keys(rest) + {last};
    }
  }

  lemma Subset<T>(a: set<T>, b: set<T>)
    requires a <= b
    ensures |a| <= |b| && (|a| == |b| ==> a == b)
  {
    assert b == a + (b - a) && a * (b - a) == {};
  }

  /** When a key is still to be placed there is a free slot. */
  lemma FreeLeft(at: seq<Option<Key>>, all: set<Key>, k: Key)
    requires forall i, j :: 0 <= i < j < |at| && at[i].Some? ==> at[i] != at[j]
    requires Keys(at) <= all && |all| == |at| && k in all && k !in Keys(at)
    ensures exists i :: 0 <= i < |at| && at[i] == None
  {
    if forall i :: 0 <= i < |at| ==> at[i].Some? {
      KeysCount(at);
      Subset(Keys(at), all);
    }
  }

  lemma {:induction false} KeysBound(at: seq<Option<Key>>)
    ensures |Keys(at)| <= |at| && (|Keys(at)| == |at| ==> forall i :: 0 <= i < |at| ==> at[i].Some?)
  {
    if at == [] {
      assert Keys(at) == {};
    } else {
      var k := |at| - 1;
      var rest := at[..k];
      KeysBound(rest);
      if at[k].Some? {
        assert Keys(at) == Keys(rest) + {at[k].value};
      } else {
        assert Keys(at) == Keys(rest);
      }
      if |Keys(at)| == |at| {
        forall i | 0 <= i < |at| ensures at[i].Some? { if i < k { assert at[i] == rest[i]; } }
      }
    }
  }

  /* ---------- the source table ---------- */

  datatype Entry<V> = Entry(key: Key, value: V)

  /** A table as it is traversed: each key once. */
  predicate OnceEach<V>(entries: seq<Entry<V>>) {
    forall e, f :: 0 <= e < f < |entries| ==> entries[e].key != entries[f].key
  }

  predicate IsTable<V>(entries: seq<Entry<V>>) {
    (forall e :: 0 <= e < |entries| ==> IsKey(entries[e].key)) && OnceEach(entries)
  }

  predicate IsSource<V>(source: seq<Entry<V>>) {
    (forall e :: 0 <= e < |source| ==> IsWide(source[e].key)) && OnceEach(source)
  }

  /** The entries with the keys that the packed table has for them. */
  function Cuts<V>(source: seq<Entry<V>>): (entries: seq<Entry<V>>)
    ensures |entries| == |source|
  {
    seq(|source|, e requires 0 <= e < |source| => Entry(Cut(source[e].key), source[e].value))
  }

  lemma CutAt<V>(source: seq<Entry<V>>, j: nat)
    requires j < |source|
    ensures Cuts(source)[j] == Entry(Cut(source[j].key), source[j].value)
  {
  }

  predicate InArray(k: Key, sizearray: nat) { k.IntKey? && 0 < k.i <= sizearray }

  function HashKeys<V>(entries: seq<Entry<V>>, sizearray: nat): set<Key> {
    set e | 0 <= e < |entries| && !InArray(entries[e].key, sizearray) :: entries[e].key
  }

  ghost predicate HasKey<V>(entries: seq<Entry<V>>, k: Key) { exists e :: 0 <= e < |entries| && entries[e].key == k }

  lemma HashKeysNext<V>(entries: seq<Entry<V>>, j: nat, sizearray: nat)
    requires j < |entries|
    ensures HashKeys(entries[..j + 1], sizearray) ==
            HashKeys(entries[..j], sizearray) + if InArray(entries[j].key, sizearray) then {} else {entries[j].key}
  {
    var a, b := entries[..j + 1], entries[..j];
    forall k | k in HashKeys(a, sizearray)
      ensures k in HashKeys(b, sizearray) || (k == entries[j].key && !InArray(k, sizearray))
    {
      var e :| 0 <= e < |a| && !InArray(a[e].key, sizearray) && a[e].key == k;
      if e < j { assert b[e] == a[e]; }
    }
    forall k | k in HashKeys(b, sizearray) ensures k in HashKeys(a, sizearray) {
      var e :| 0 <= e < |b| && !InArray(b[e].key, sizearray) && b[e].key == k;
      assert a[e] == b[e];
    }
    if !InArray(entries[j].key, sizearray) { assert a[j] == entries[j]; }
  }

  /** The values of the keys in the slots. */
  predicate Valued<V(==)>(h: seq<Node<V>>, at: seq<Option<Key>>, entries: seq<Entry<V>>) {
    |h| == |at| && forall i :: 0 <= i < |h| && at[i].Some? && h[i].v.Some? ==> Entry(at[i].value, h[i].v.value) in entries
  }

  /** The array part after `j` keys. */
  predicate ArrayFilled<V(==)>(arr: seq<Option<V>>, entries: seq<Entry<V>>, j: nat) {
    && j <= |entries|
    && (forall e :: 0 <= e < j && InArray(entries[e].key, |arr|) ==> arr[entries[e].key.i - 1] == Some(entries[e].value))
    && (forall i :: 0 <= i < |arr| && arr[i].Some? ==> Entry(IntKey(i + 1), arr[i].value) in entries)
  }

  lemma ArrayStep<V>(arr: seq<Option<V>>, entries: seq<Entry<V>>, j: nat)
    requires ArrayFilled(arr, entries, j) && j < |entries| && IsTable(entries)
    ensures var k := entries[j].key;
            if InArray(k, |arr|) then ArrayFilled(arr[k.i - 1 := Some(entries[j].value)], entries, j + 1)
            else ArrayFilled(arr, entries, j + 1)
  {
    assert entries[j] == Entry(entries[j].key, entries[j].value) && entries[j] in entries;
  }

  /** The value of a key in the source table. */
  function RawGet<V>(entries: seq<Entry<V>>, k: Key): Option<V> {
    if entries == [] then None
    else if entries[|entries| - 1].key == k then Some(entries[|entries| - 1].value)
    else RawGet(entries[..|entries| - 1], k)
  }

  lemma {:induction false} RawGetIs<V>(entries: seq<Entry<V>>, k: Key)
    ensures RawGet(entries, k).Some? ==> Entry(k, RawGet(entries, k).value) in entries
    ensures RawGet(entries, k) == None ==> forall e :: 0 <= e < |entries| ==> entries[e].key != k
  {
    if entries != [] && entries[|entries| - 1].key != k {
      RawGetIs(entries[..|entries| - 1], k);
      assert entries == entries[..|entries| - 1] + [entries[|entries| - 1]];
    }
  }

  /** What is found under a key is its value. */
  lemma RawGetKey<V>(entries: seq<Entry<V>>, e: nat)
    requires OnceEach(entries) && e < |entries|
    ensures RawGet(entries, entries[e].key) == Some(entries[e].value)
  {
    var k := entries[e].key;
    RawGetIs(entries, k);
    var f :| 0 <= f < |entries| && entries[f] == Entry(k, RawGet(entries, k).value);
    var other := entries[f].key;
  }

  lemma RawGetFills<V>(arr: seq<Option<V>>, entries: seq<Entry<V>>)
    requires IsTable(entries) && forall f :: 0 <= f < |arr| ==> arr[f] == RawGet(entries, IntKey(f + 1))
    ensures ArrayFilled(arr, entries, |entries|)
  {
    hide RawGet;
    forall e | 0 <= e < |entries| && InArray(entries[e].key, |arr|)
      ensures arr[entries[e].key.i - 1] == Some(entries[e].value)
    {
      RawGetKey(entries, e);
      assert entries[e].key == IntKey((entries[e].key.i - 1) + 1);
    }
    forall i | 0 <= i < |arr| && arr[i].Some? ensures Entry(IntKey(i + 1), arr[i].value) in entries {
      RawGetIs(entries, IntKey(i + 1));
    }
  }

  /** What the first pass has done after `j` keys: every key seen has its main position held,
      by a key of that main position. */
  ghost predicate FirstPass<V>(h: seq<Node<V>>, at: seq<Option<Key>>, entries: seq<Entry<V>>, j: nat, sizearray: nat) {
    && 0 < |h| == |at| && j <= |entries| && Valued(h, at, entries)
    && Keys(at) <= HashKeys(entries[..j], sizearray)
    && (forall i :: 0 <= i < |at| && at[i].Some? ==> Main(at[i].value, |at|) == i)
    && (forall e :: 0 <= e < j && !InArray(entries[e].key, sizearray) ==> Headed(at, entries[e].key))
  }

  /** What the second pass has done after `j` keys: those are placed, and of the others only
      the ones in their main position. */
  ghost predicate SecondPass<V>(h: seq<Node<V>>, at: seq<Option<Key>>, entries: seq<Entry<V>>, j: nat, sizearray: nat) {
    && 0 < |h| == |at| && j <= |entries| && Valued(h, at, entries)
    && Keys(at) <= HashKeys(entries, sizearray)
    && (forall e :: 0 <= e < |entries| && !InArray(entries[e].key, sizearray) ==> Headed(at, entries[e].key))
    && (forall e :: 0 <= e < j && !InArray(entries[e].key, sizearray) ==> Some(entries[e].key) in at)
    && (forall e :: j <= e < |entries| && Some(entries[e].key) in at ==>
          at[Main(entries[e].key, |at|)] == Some(entries[e].key))
  }

  /** After the second pass the slots hold exactly the keys outside of the array part. */
  lemma AllPlaced<V>(h: seq<Node<V>>, at: seq<Option<Key>>, entries: seq<Entry<V>>, sizearray: nat)
    requires SecondPass(h, at, entries, |entries|, sizearray)
    ensures Keys(at) == HashKeys(entries, sizearray) && Valued(h, at, entries)
  {
    hide Main, Headed, Valued;
    forall k | k in HashKeys(entries, sizearray) ensures k in Keys(at) {
      var e :| 0 <= e < |entries| && !InArray(entries[e].key, sizearray) && entries[e].key == k;
      InKeys(at, k);
    }
  }

  lemma InKeys(at: seq<Option<Key>>, k: Key)
    ensures Some(k) in at <==> k in Keys(at)
  {
    if Some(k) in at {
      var i :| 0 <= i < |at| && at[i] == Some(k);
      assert at[i].value in Keys(at);
    }
  }

  lemma KeysSet(at: seq<Option<Key>>, e: nat, k: Key)
    requires e < |at| && at[e] == None
    ensures Keys(at[e := Some(k)]) == Keys(at) + {k}
  {
    var at' := at[e := Some(k)];
    forall x | x in Keys(at) ensures x in Keys(at') {
      var i :| 0 <= i < |at| && at[i].Some? && at[i].value == x;
      assert at'[i] == at[i];
    }
    assert at'[e].value == k;
  }

  lemma NotYet<V>(entries: seq<Entry<V>>, j: nat, sizearray: nat)
    requires OnceEach(entries) && j < |entries|
    ensures entries[j].key !in HashKeys(entries[..j], sizearray)
  {
  }

  lemma FirstStep<V>(h: seq<Node<V>>, at: seq<Option<Key>>, entries: seq<Entry<V>>, j: nat, sizearray: nat, node: Node<V>)
    requires FirstPass(h, at, entries, j, sizearray) && j < |entries| && IsTable(entries)
    requires forall i :: 0 <= i < |h| ==> (h[i].v.Some? <==> at[i].Some?)
    requires node.v == Some(entries[j].value)
    ensures var k := entries[j].key;
            if InArray(k, sizearray) || at[Main(k, |at|)].Some? then FirstPass(h, at, entries, j + 1, sizearray)
            else Some(k) !in at && FirstPass(h[Main(k, |at|) := node], at[Main(k, |at|) := Some(k)], entries, j + 1, sizearray)
  {
    hide Main;
    var k := entries[j].key;
    HashKeysNext(entries, j, sizearray);
    NotYet(entries, j, sizearray);
    InKeys(at, k);
    var m := Main(k, |at|);
    if !InArray(k, sizearray) && at[m] == None {
      KeysSet(at, m, k);
      assert entries[j] == Entry(k, node.v.value);
    }
  }

  lemma SecondStart<V>(h: seq<Node<V>>, at: seq<Option<Key>>, entries: seq<Entry<V>>, sizearray: nat)
    requires FirstPass(h, at, entries, |entries|, sizearray)
    ensures SecondPass(h, at, entries, 0, sizearray)
  {
    hide Main;
    assert entries[..|entries|] == entries;
  }

  lemma InSet(at: seq<Option<Key>>, x: nat, k: Key, other: Key)
    requires x < |at| && at[x] == None
    ensures Some(other) in at[x := Some(k)] <==> Some(other) in at || other == k
  {
    var at' := at[x := Some(k)];
    assert at'[x] == Some(k);
    if Some(other) in at {
      var i :| 0 <= i < |at| && at[i] == Some(other);
      assert at'[i] == Some(other);
    }
  }

  /** A key that is in its main position needs nothing. */
  lemma SecondSkip<V>(h: seq<Node<V>>, at: seq<Option<Key>>, entries: seq<Entry<V>>, j: nat, sizearray: nat)
    requires SecondPass(h, at, entries, j, sizearray) && j < |entries|
    requires var k := entries[j].key; InArray(k, sizearray) || at[Main(k, |at|)] == Some(k)
    ensures SecondPass(h, at, entries, j + 1, sizearray)
  {
    hide Main, Valued, HashKeys, Keys;
    var k := entries[j].key;
    if !InArray(k, sizearray) { assert at[Main(k, |at|)] in at; }
  }

  lemma SecondPut<V>(h: seq<Node<V>>, at: seq<Option<Key>>, entries: seq<Entry<V>>, j: nat, sizearray: nat,
                      h': seq<Node<V>>, x: nat)
    requires SecondPass(h, at, entries, j, sizearray) && j < |entries| && IsTable(entries)
    requires !InArray(entries[j].key, sizearray)
    requires x < |at| && at[x] == None && |h'| == |h| && h'[x].v == Some(entries[j].value)
    requires forall i :: 0 <= i < |h| && i != x ==> h'[i].v == h[i].v
    ensures SecondPass(h', at[x := Some(entries[j].key)], entries, j + 1, sizearray)
  {
    var k := entries[j].key;
    var at' := at[x := Some(k)];
    assert Valued(h', at', entries) by { assert entries[j] == Entry(k, h'[x].v.value); }
    KeysSet(at, x, k);
    assert k in HashKeys(entries, sizearray);
    forall e | 0 <= e < |entries| ensures Some(entries[e].key) in at' <==> Some(entries[e].key) in at || e == j {
      InSet(at, x, k, entries[e].key);
    }
  }

  /** The test of a slot: the hash first, then the number, or the string of its place. */
  predicate Matches<V>(strings: seq<Str>, n: Node<V>, k: Key, keyhash: nat)
    requires n.isString ==> 0 < n.key <= |strings|
  {
    keyhash == n.keyhash &&
    if !n.isString then k.IntKey? && n.key == k.i else k.StrKey? && strings[n.key - 1] == k.s
  }

  lemma Matching<V>(strings: seq<Str>, n: Node<V>, held: Key, k: Key)
    requires Holds(strings, n, held)
    ensures n.isString ==> 0 < n.key <= |strings|
    ensures Matches(strings, n, k, KeyHash(k)) <==> held == k
  {
    hide KeyHash;
  }

  lemma Held<V>(h: seq<Node<V>>, strings: seq<Str>, at: seq<Option<Key>>, chains: seq<seq<nat>>, slot: nat)
    requires Packed(h, strings, at, chains) && slot < |at| && at[slot].Some?
    ensures slot < |h| == |at| == |chains| && Holds(strings, h[slot], at[slot].value)
    ensures Encodes(strings, h[slot].isString, h[slot].key, at[slot].value)
    ensures h[slot].keyhash == KeyHash(at[slot].value)
  {
    hide Chains, KeyHash;
  }

  lemma Sizes<V>(h: seq<Node<V>>, strings: seq<Str>, at: seq<Option<Key>>, chains: seq<seq<nat>>)
    requires Packed(h, strings, at, chains)
    ensures |h| == |at| == |chains| > 0 && forall i :: 0 <= i < |h| ==> (h[i].v.Some? <==> at[i].Some?)
  {
    hide Chains, Holds;
  }

  lemma NoKeyTwice<V>(h: seq<Node<V>>, strings: seq<Str>, at: seq<Option<Key>>, chains: seq<seq<nat>>)
    requires Packed(h, strings, at, chains)
    ensures forall i, j :: 0 <= i < j < |at| && at[i].Some? ==> at[i] != at[j]
  {
    hide Chains, Members, Holds;
  }

  lemma ChainAt<V>(h: seq<Node<V>>, strings: seq<Str>, at: seq<Option<Key>>, chains: seq<seq<nat>>, m: nat)
    requires Packed(h, strings, at, chains) && m < |at|
    ensures |h| == |at| == |chains| && Chain(h, at, m, chains[m])
  {
    hide Holds;
  }

  lemma MainIs(k: Key, n: nat)
    requires n > 0
    ensures Main(k, n) == KeyHash(k) % n
  {
  }

  lemma HoldsNode<V>(strings: seq<Str>, node: Node<V>, k: Key)
    requires node.v.Some? && Encodes(strings, node.isString, node.key, k) && node.keyhash == KeyHash(k)
    ensures Holds(strings, node, k)
  {
  }

  lemma FirstStart<V>(h: seq<Node<V>>, at: seq<Option<Key>>, arr: seq<Option<V>>, entries: seq<Entry<V>>, sizearray: nat)
    requires 0 < |h| == |at| && (forall i :: 0 <= i < |at| ==> at[i] == None) && forall i :: 0 <= i < |arr| ==> arr[i] == None
    ensures FirstPass(h, at, entries, 0, sizearray) && ArrayFilled(arr, entries, 0)
  {
  }

  /** At a key of the second pass: its main position is held, and when it is not there by
      that key the key is nowhere. */
  lemma SecondNow<V>(h: seq<Node<V>>, at: seq<Option<Key>>, entries: seq<Entry<V>>, j: nat, sizearray: nat)
    requires SecondPass(h, at, entries, j, sizearray) && j < |entries| && !InArray(entries[j].key, sizearray)
    ensures var k := entries[j].key;
            && Headed(at, k) && at[Main(k, |at|)].Some? && Main(at[Main(k, |at|)].value, |at|) == Main(k, |at|)
            && Keys(at) <= HashKeys(entries, sizearray) && k in HashKeys(entries, sizearray)
            && (at[Main(k, |at|)] != Some(k) ==> Some(k) !in at)
  {
    hide Main, Valued;
  }

  lemma AllUsed<V>(h: seq<Node<V>>, strings: seq<Str>, at: seq<Option<Key>>, chains: seq<seq<nat>>)
    requires Packed(h, strings, at, chains) && forall i :: 0 <= i < |h| ==> h[i].v.Some?
    ensures forall i :: 0 <= i < |at| ==> at[i].Some?
  {
    hide Chains, Members, Holds;
  }

  lemma AllValued<V>(h: seq<Node<V>>, strings: seq<Str>, at: seq<Option<Key>>, chains: seq<seq<nat>>)
    requires Packed(h, strings, at, chains) && forall i :: 0 <= i < |at| ==> at[i].Some?
    ensures |at| == |h| && forall i :: 0 <= i < |h| ==> h[i].v.Some?
  {
    hide Chains, Members, Holds;
  }

  /** Where the walk for a key starts: at the head of its chain, or inside another chain,
      and then the key is nowhere. */
  lemma Starts<V>(h: seq<Node<V>>, strings: seq<Str>, at: seq<Option<Key>>, chains: seq<seq<nat>>, k: Key)
    requires Packed(h, strings, at, chains) && forall i :: 0 <= i < |at| ==> at[i].Some?
    ensures var m := Main(k, |at|); var c := chains[Main(at[m].value, |at|)];
            exists p :: 0 <= p < |c| && c[p] == m && (forall q :: 0 <= q < p ==> c[q] < |at| && at[c[q]] != Some(k))
  {
    hide Main, Slots;
    var m := Main(k, |at|);
    var c := chains[Main(at[m].value, |at|)];
    assert m in c;
    var p :| 0 <= p < |c| && c[p] == m;
    var w := Main(at[m].value, |at|);
    assert Chain(h, at, w, c);
    if w == m {
      assert p == 0;
    } else {
      forall q | 0 <= q < p ensures c[q] < |at| && at[c[q]] != Some(k) { ChainLink(h, at, w, c, q); }
    }
  }

  /** A walk that ends without the key: it is in no slot. */
  lemma Missing<V>(h: seq<Node<V>>, strings: seq<Str>, at: seq<Option<Key>>, chains: seq<seq<nat>>, k: Key)
    requires Packed(h, strings, at, chains) && forall i :: 0 <= i < |at| ==> at[i].Some?
    requires var c := chains[Main(at[Main(k, |at|)].value, |at|)];
             forall q :: 0 <= q < |c| ==> c[q] < |at| && at[c[q]] != Some(k)
    ensures Some(k) !in at
  {
    hide Main, Slots;
    var m := Main(k, |at|);
    ChainHead(h, strings, at, chains, m);
    forall i | 0 <= i < |at| ensures at[i] != Some(k) {
      assert i in chains[Main(at[i].value, |at|)];
    }
  }

  /** A slot that is alone and has another hash. */
  lemma Alone<V>(h: seq<Node<V>>, strings: seq<Str>, at: seq<Option<Key>>, chains: seq<seq<nat>>, k: Key)
    requires Packed(h, strings, at, chains) && forall i :: 0 <= i < |at| ==> at[i].Some?
    requires var m := Main(k, |at|); h[m].nocolliding && KeyHash(at[m].value) != KeyHash(k)
    ensures Some(k) !in at
  {
    hide Main, Slots;
    var m := Main(k, |at|);
    assert chains[Main(at[m].value, |at|)] == [m];
    Missing(h, strings, at, chains, k);
  }

  /** The strings of a configuration, each with its place. */
  class Context {
    var stringmap: map<Str, nat>
    var strings: seq<Str>

    ghost predicate Valid() reads this {
      && (forall s :: s in stringmap ==> 0 < stringmap[s] <= |strings| && strings[stringmap[s] - 1] == s)
      && forall i :: 0 <= i < |strings| ==> strings[i] in stringmap && stringmap[strings[i]] == i + 1
    }

    constructor ()
      ensures Valid() && strings == []
    {
      stringmap := map[];
      strings := [];
    }

    method StringIndex(s: Str) returns (index: nat)
      requires Valid()
      modifies this
      ensures Valid() && old(strings) <= strings && 0 < index <= |strings| && strings[index - 1] == s
    {
      if s !in stringmap {
        index := |strings| + 1;
        stringmap := stringmap[s := index];
        strings := strings + [s];
      } else {
        index := stringmap[s];
      }
    }
  }

  lemma EncodesMore(strings: seq<Str>, more: seq<Str>, isString: bool, key: int, k: Key)
    requires Encodes(strings, isString, key, k) && strings <= more
    ensures Encodes(more, isString, key, k)
  {
  }

  lemma PackedMore<V>(h: seq<Node<V>>, strings: seq<Str>, more: seq<Str>, at: seq<Option<Key>>, chains: seq<seq<nat>>)
    requires Packed(h, strings, at, chains) && strings <= more
    ensures Packed(h, more, at, chains)
  {
    hide Chains, Members;
    forall i | 0 <= i < |h| && at[i].Some? ensures Holds(more, h[i], at[i].value) {
      EncodesMore(strings, more, h[i].isString, h[i].key, at[i].value);
    }
  }

  /** The place of a string says which string it is. */
  lemma SameKey(c: Context, isString: bool, key: int, k: Key, isString': bool, key': int, k': Key)
    requires c.Valid() && Encodes(c.strings, isString, key, k) && Encodes(c.strings, isString', key', k')
    ensures k == k' <==> isString == isString' && key == key'
  {
  }

  class Table<V(==)> {
    const sizearray: nat
    const sizehash: nat
    const arr: array<Option<V>>
    const hash: array<Node<V>>
    const ctx: Context
    ghost var at: seq<Option<Key>>
    ghost var chains: seq<seq<nat>>

    ghost predicate Valid() reads this, ctx, arr, hash {
      && ctx.Valid() && arr.Length == sizearray && hash.Length == sizehash
      && (sizehash > 0 ==> Packed(hash[..], ctx.strings, at, chains))
      && (sizehash == 0 ==> at == [])
    }

    constructor (ctx: Context, sizearray: nat, sizehash: nat)
      requires ctx.Valid()
      ensures Valid() && this.ctx == ctx && this.sizearray == sizearray && this.sizehash == sizehash
      ensures fresh(arr) && fresh(hash) && at == seq(sizehash, _ => None)
      ensures forall i :: 0 <= i < sizearray ==> arr[i] == None
    {
      this.ctx, this.sizearray, this.sizehash := ctx, sizearray, sizehash;
      arr := new Option<V>[sizearray](_ => None);
      hash := new Node<V>[sizehash](_ => Node(None, false, 0, 0, 0, false));
      at := seq(sizehash, _ => None);
      chains := seq(sizehash, _ => []);
    }

    /** Whether a key goes to the hash, and how it is written there. */
    method IsHashKey(k: Key) returns (inHash: bool, isString: bool, key: int, keyhash: nat)
      requires Valid()
      modifies ctx
      ensures Valid() && old(ctx.strings) <= ctx.strings
      ensures inHash == !InArray(Cut(k), sizearray)
      ensures inHash ==> Encodes(ctx.strings, isString, key, Cut(k)) && keyhash == KeyHash(Cut(k))
      ensures !inHash ==> k.IntKey? && key == Cut(k).i
    {
      hide Packed;
      match k
      case IntKey(_) =>
        var i := Cut(k).i;
        inHash, isString, key, keyhash := !(i > 0 && i <= sizearray), false, i, KeyHash(Cut(k));
      case StrKey(s) =>
        ghost var strings := ctx.strings;
        key := ctx.StringIndex(s);
        inHash, isString, keyhash := true, true, CalcHash(s);
        if sizehash > 0 { PackedMore(hash[..], strings, ctx.strings, at, chains); }
    }

    /** The value of a key of the array part. */
    method SetArray(key: nat, value: V)
      requires Valid() && 0 < key <= sizearray
      modifies arr
      ensures Valid() && arr[..] == old(arr[..])[key - 1 := Some(value)]
    {
      hide Packed;
      arr[key - 1] := Some(value);
    }

    /** First pass: the array part, and every main position that is free gets its key. */
    method FillNoColliding(source: seq<Entry<V>>)
      requires Valid() && sizehash > 0 && IsTable(Cuts(source)) && at == seq(sizehash, _ => None)
      requires forall i :: 0 <= i < sizearray ==> arr[i] == None
      modifies this, ctx, arr, hash
      ensures Valid() && old(ctx.strings) <= ctx.strings
      ensures FirstPass(hash[..], at, Cuts(source), |source|, sizearray)
      ensures ArrayFilled(arr[..], Cuts(source), |source|)
    {
      hide Packed, Slots, Chains, Members, Holds, Main, FirstPass, SecondPass, ArrayFilled, HashKeys, Keys, Headed, KeyHash, IsTable, Encodes, Cut, Cuts;
      ghost var entries := Cuts(source);
      FirstStart(hash[..], at, arr[..], entries, sizearray) by { Sizes(hash[..], ctx.strings, at, chains); }
      for j := 0 to |source|
        invariant Valid() && old(ctx.strings) <= ctx.strings
        invariant FirstPass(hash[..], at, entries, j, sizearray) && ArrayFilled(arr[..], entries, j)
      {
        CutAt(source, j);
        var inHash, isString, key, keyhash := IsHashKey(source[j].key);
        var value := source[j].value;
        ghost var k, m := entries[j].key, Main(entries[j].key, sizehash);
        ghost var h := hash[..];
        var node := Node(Some(value), isString, key, keyhash, -1, true);
        Sizes(h, ctx.strings, at, chains);
        FirstStep(h, at, entries, j, sizearray, node);
        assert inHash == !InArray(k, sizearray) && (!inHash ==> 0 < key <= sizearray && k == IntKey(key));
        ArrayStep(arr[..], entries, j);
        if !inHash {
          SetArray(key, value);
        } else {
          var pos := keyhash % sizehash;
          MainIs(k, sizehash);
          if hash[pos].v == None {
            HoldsNode(ctx.strings, node, k);
            AddFirst(h, ctx.strings, at, chains, node, k);
            hash[pos] := node;
            at := at[m := Some(k)];
            chains := chains[m := [m]];
            assert hash[..] == h[m := node];
          }
        }
      }
    }

    /** A free slot, searched from the start: the source asserts that there is one. */
    method FreeSlotIndex(ghost all: set<Key>, ghost k: Key) returns (i: nat)
      requires Valid() && sizehash > 0
      requires Keys(at) <= all && |all| == sizehash && k in all && Some(k) !in at
      ensures i < sizehash && at[i] == None && hash[i].v == None
    {
      hide Packed, Keys;
      Sizes(hash[..], ctx.strings, at, chains);
      InKeys(at, k);
      NoKeyTwice(hash[..], ctx.strings, at, chains);
      FreeLeft(at, all, k);
      i := 0;
      while i < sizehash && hash[i].v.Some?
        invariant i <= sizehash && forall f :: 0 <= f < i ==> at[f].Some?
      {
        i := i + 1;
      }
    }

    /** One key of the second pass: when it is not in its main position it goes to a free
        slot, behind the head of its chain. */
    method Collide(ghost entries: seq<Entry<V>>, ghost j: nat, value: V, isString: bool, key: int, keyhash: nat)
      requires Valid() && sizehash > 0 && IsTable(entries) && |HashKeys(entries, sizearray)| == sizehash
      requires SecondPass(hash[..], at, entries, j, sizearray) && j < |entries| && !InArray(entries[j].key, sizearray)
      requires Encodes(ctx.strings, isString, key, entries[j].key) && keyhash == KeyHash(entries[j].key)
      requires value == entries[j].value
      modifies this, hash
      ensures Valid() && SecondPass(hash[..], at, entries, j + 1, sizearray)
    {
      hide Packed, Slots, Chains, Members, Holds, Main, FirstPass, SecondPass, ArrayFilled, HashKeys, Keys, Headed, KeyHash, IsTable, Encodes;
      ghost var k, m, h := entries[j].key, Main(entries[j].key, sizehash), hash[..];
      Sizes(h, ctx.strings, at, chains);
      var pos := keyhash % sizehash;
      MainIs(k, sizehash);
      SecondNow(h, at, entries, j, sizearray);
      var mainpos := hash[pos];
      Held(h, ctx.strings, at, chains, m);
      ChainHead(h, ctx.strings, at, chains, m);
      SameKey(ctx, mainpos.isString, mainpos.key, at[m].value, isString, key, k);
      if !(mainpos.isString == isString && mainpos.key == key) {
        var n := FreeSlotIndex(HashKeys(entries, sizearray), k);
        var node := Node(Some(value), isString, key, keyhash, mainpos.next, false);
        HoldsNode(ctx.strings, node, k);
        AddSecond(h, ctx.strings, at, chains, node, k, n);
        hash[pos] := mainpos.(next := n, nocolliding := false);
        hash[n] := node;
        assert hash[..] == h[m := h[m].(next := n, nocolliding := false)][n := node];
        SecondPut(h, at, entries, j, sizearray, hash[..], n);
        at := at[n := Some(k)];
        chains := chains[m := [m, n] + chains[m][1..]];
      } else {
        SecondSkip(h, at, entries, j, sizearray);
      }
    }

    /** Second pass: every key gets a slot. */
    method FillColliding(source: seq<Entry<V>>)
      requires Valid() && sizehash > 0 && IsTable(Cuts(source)) && |HashKeys(Cuts(source), sizearray)| == sizehash
      requires SecondPass(hash[..], at, Cuts(source), 0, sizearray)
      modifies this, ctx, hash
      ensures Valid() && old(ctx.strings) <= ctx.strings
      ensures SecondPass(hash[..], at, Cuts(source), |source|, sizearray)
    {
      hide Packed, Slots, Chains, Members, Holds, Main, FirstPass, SecondPass, ArrayFilled, HashKeys, Keys, Headed, KeyHash, IsTable, Encodes, Cut, Cuts;
      ghost var entries := Cuts(source);
      for j := 0 to |source|
        invariant Valid() && old(ctx.strings) <= ctx.strings
        invariant SecondPass(hash[..], at, entries, j, sizearray)
      {
        CutAt(source, j);
        var inHash, isString, key, keyhash := IsHashKey(source[j].key);
        if inHash {
          Collide(entries, j, source[j].value, isString, key, keyhash);
        } else {
          SecondSkip(hash[..], at, entries, j, sizearray);
        }
      }
    }

    /** The array part alone. The source asks the table for each index; an index without a
        value stays empty. */
    method FillArray(source: seq<Entry<V>>)
      requires Valid() && sizehash == 0 && IsTable(source) && HashKeys(source, sizearray) == {}
      requires forall i :: 0 <= i < sizearray ==> arr[i] == None
      modifies arr
      ensures Filled(source)
    {
      ghost var entries := source;
      for i := 0 to sizearray
        invariant Valid()
        invariant forall f :: 0 <= f < i ==> arr[f] == RawGet(source, IntKey(f + 1))
      {
        arr[i] := RawGet(source, IntKey(i + 1));
      }
      RawGetFills(arr[..], entries);
      assert Valued(hash[..], at, entries) && Keys(at) == {};
    }

    /** The slot of a key, or -1. The walk starts at the main position; a slot that is alone
        there and has another hash ends it at once. */
    method LookupKey(k: Key, keyhash: nat) returns (slot: int)
      requires Valid() && keyhash == KeyHash(k) && forall i :: 0 <= i < sizehash ==> hash[i].v.Some?
      ensures -1 <= slot < sizehash
      ensures slot == -1 ==> Some(k) !in at
      ensures slot >= 0 ==> slot < |at| && at[slot] == Some(k)
    {
      if sizehash == 0 { return -1; }
      hide Packed, Chain, Holds, Main, KeyHash;
      ghost var h, m := hash[..], Main(k, sizehash);
      Sizes(h, ctx.strings, at, chains);
      AllUsed(h, ctx.strings, at, chains);
      slot := keyhash % sizehash;
      MainIs(k, sizehash);
      ghost var c := chains[Main(at[slot].value, sizehash)];
      Starts(h, ctx.strings, at, chains, k);
      Held(h, ctx.strings, at, chains, slot);
      if keyhash != hash[slot].keyhash && hash[slot].nocolliding {
        Alone(h, ctx.strings, at, chains, k);
        return -1;
      }
      ghost var p :| 0 <= p < |c| && c[p] == slot && forall q :: 0 <= q < p ==> at[c[q]] != Some(k);
      slot := Walk(slot, k, keyhash, p);
    }

    /** The loop of `LookupKey`: along a chain, from its place `p`. */
    method Walk(start: nat, k: Key, keyhash: nat, ghost p: nat) returns (slot: int)
      requires Valid() && 0 < sizehash == |at| == |chains| && keyhash == KeyHash(k)
      requires (forall i :: 0 <= i < sizehash ==> at[i].Some?) && start < sizehash
      requires var c := chains[Main(at[Main(k, sizehash)].value, sizehash)];
               p < |c| && c[p] == start && forall q :: 0 <= q < p ==> c[q] < sizehash && at[c[q]] != Some(k)
      ensures -1 <= slot < sizehash
      ensures slot == -1 ==> Some(k) !in at
      ensures slot >= 0 ==> at[slot] == Some(k)
    {
      hide Packed, Chain, Holds, Main, Matches, KeyHash;
      ghost var h := hash[..];
      ghost var w := Main(at[Main(k, sizehash)].value, sizehash);
      ghost var c, place := chains[w], p;
      ChainAt(h, ctx.strings, at, chains, w);
      slot := start;
      while true
        invariant 0 <= slot < sizehash && 0 <= place < |c| && c[place] == slot
        invariant forall q :: 0 <= q < place ==> c[q] < sizehash && at[c[q]] != Some(k)
        decreases |c| - place
      {
        var n := hash[slot];
        Held(h, ctx.strings, at, chains, slot);
        Matching(ctx.strings, n, at[slot].value, k);
        if Matches(ctx.strings, n, k, keyhash) { return; }
        ChainLink(h, at, w, c, place);
        assert n == h[slot] && n.next == if place + 1 < |c| then c[place + 1] else -1;
        if n.next < 0 {
          assert place + 1 == |c|;
          Missing(h, ctx.strings, at, chains, k);
          return -1;
        }
        ChainLink(h, at, w, c, place + 1);
        slot := n.next;
        place := place + 1;
      }
    }

    method PushKey(slot: nat) returns (k: Key)
      requires Valid() && slot < sizehash && hash[slot].v.Some?
      ensures slot < |at| && at[slot] == Some(k)
    {
      hide Chains, Members;
      assert Holds(ctx.strings, hash[slot], at[slot].value);
      if hash[slot].isString { k := StrKey(ctx.strings[hash[slot].key - 1]); } else { k := IntKey(hash[slot].key); }
    }

    method PushFirstHash() returns (k: Option<Key>)
      requires Valid() && forall i :: 0 <= i < sizehash ==> hash[i].v.Some?
      ensures |at| == sizehash && (forall i :: 0 <= i < |at| ==> at[i].Some?) && k == First(SlotKeys(at))
    {
      if sizehash > 0 {
        AllUsed(hash[..], ctx.strings, at, chains);
        var first := PushKey(0);
        k := Some(first);
      } else {
        k := None;
      }
    }

    /** The first index from `from` on that has a value, or the first slot. */
    method NextIndex(from: nat) returns (k: Option<Key>)
      requires Valid() && from <= sizearray && forall i :: 0 <= i < sizehash ==> hash[i].v.Some?
      ensures (forall i :: 0 <= i < |at| ==> at[i].Some?) && k == First(ArrayKeys(arr[..], from) + SlotKeys(at))
    {
      hide Packed;
      var i := from;
      while i < sizearray
        invariant from <= i <= sizearray && ArrayKeys(arr[..], from) == ArrayKeys(arr[..], i)
      {
        if arr[i].Some? {
          if sizehash > 0 { AllUsed(hash[..], ctx.strings, at, chains); }
          return Some(IntKey(i + 1));
        }
        i := i + 1;
      }
      k := PushFirstHash();
      assert [] + SlotKeys(at) == SlotKeys(at);
    }

    /** Every slot is used, and the slots hold exactly the keys of the hash part. */
    ghost predicate Filled(entries: seq<Entry<V>>) reads this, ctx, arr, hash {
      && Valid() && IsTable(entries)
      && ArrayFilled(arr[..], entries, |entries|)
      && (forall i :: 0 <= i < sizehash ==> hash[i].v.Some?)
      && Valued(hash[..], at, entries)
      && Keys(at) == HashKeys(entries, sizearray)
    }

    /** The value under a key is its value in the source table; there is none for an absent
        key. */
    method Index(k: Key, ghost entries: seq<Entry<V>>) returns (v: Option<V>)
      requires Filled(entries)
      ensures v == RawGet(entries, Cut(k))
    {
      hide Cut;
      var k := Cut(k);
      RawGetIs(entries, k);
      if k.IntKey? && k.i > 0 && k.i <= sizearray {
        FilledIndex(arr[..], entries, k);
        return arr[k.i - 1];
      }
      assert !InArray(k, sizearray);
      var slot := LookupKey(k, KeyHash(k));
      if slot >= 0 {
        assert |at| == sizehash;
        FilledSlot(hash[..], at, entries, k, slot);
        v := hash[slot].v;
      } else {
        FilledAbsent(at, entries, k, sizearray);
        v := None;
      }
    }

    /** The key after a key, or the first. A key that is not there has none after it, unless
        it is an index of the array part. */
    method NextKey(given: Option<Key>, ghost entries: seq<Entry<V>>) returns (next: Option<Key>)
      requires Filled(entries)
      ensures forall i :: 0 <= i < |at| ==> at[i].Some?
      ensures given == None ==> next == First(AllKeys(arr[..], at))
      ensures given.Some? && !HasKey(entries, Cut(given.value)) && !InArray(Cut(given.value), sizearray) ==> next == None
      ensures given.Some? ==> forall p :: 0 <= p < |AllKeys(arr[..], at)| && AllKeys(arr[..], at)[p] == Cut(given.value) ==>
                next == First(AllKeys(arr[..], at)[p + 1..])
      ensures Distinct(AllKeys(arr[..], at)) && forall k :: k in AllKeys(arr[..], at) <==> HasKey(entries, k)
    {
      hide Packed, ArrayFilled, HashKeys, Keys, KeyHash, IsTable, Valued, ArrayKeys, SlotKeys, RawGet, Cut;
      FilledSlots(hash[..], ctx.strings, at, chains, sizehash);
      AllKeysOnce(arr[..], at, entries);
      ghost var all := AllKeys(arr[..], at);
      assert all == ArrayKeys(arr[..], 0) + SlotKeys(at);
      if given == None {
        next := NextIndex(0);
        return;
      }
      var k := Cut(given.value);
      if k.IntKey? && k.i > 0 && k.i <= sizearray {
        next := NextIndex(k.i);
        AfterIndex(arr[..], at, entries, k);
        assert InArray(k, sizearray);
        return;
      }
      assert !InArray(k, sizearray);
      var slot := LookupKey(k, KeyHash(k));
      AfterSlot(arr[..], at, k, slot);
      if slot >= 0 {
        if slot + 1 == sizehash { return None; }
        var after := PushKey(slot + 1);
        next := Some(after);
      } else {
        assert forall p :: 0 <= p < |all| ==> all[p] != k by {
          forall p | 0 <= p < |all| ensures all[p] != k { assert all[p] in all; }
        }
        next := None;
      }
    }

    lemma FullyFilled(entries: seq<Entry<V>>)
      requires Valid() && sizehash > 0 && IsTable(entries) && |HashKeys(entries, sizearray)| == sizehash
      requires SecondPass(hash[..], at, entries, |entries|, sizearray) && ArrayFilled(arr[..], entries, |entries|)
      ensures Filled(entries)
    {
      hide Main, Members, Chain, Holds, SecondPass, Keys, HashKeys, IsTable, ArrayFilled;
      AllPlaced(hash[..], at, entries, sizearray);
      KeysBound(at);
      AllValued(hash[..], ctx.strings, at, chains);
    }
  }

  /* ---------- walking ---------- */

  function ArrayKeys<V>(arr: seq<Option<V>>, from: nat): seq<Key>
    decreases |arr| - from
  {
    if from >= |arr| then []
    else if arr[from].Some? then [IntKey(from + 1)] + ArrayKeys(arr, from + 1)
    else ArrayKeys(arr, from + 1)
  }

  function SlotKeys(at: seq<Option<Key>>): seq<Key>
    requires forall i :: 0 <= i < |at| ==> at[i].Some?
  {
    seq(|at|, i requires 0 <= i < |at| => at[i].value)
  }

  /** The order in which a table is walked. */
  function AllKeys<V>(arr: seq<Option<V>>, at: seq<Option<Key>>): seq<Key>
    requires forall i :: 0 <= i < |at| ==> at[i].Some?
  {
    ArrayKeys(arr, 0) + SlotKeys(at)
  }

  function First(keys: seq<Key>): Option<Key> { if keys == [] then None else Some(keys[0]) }

  lemma {:induction false} ArrayKeysSplit<V>(arr: seq<Option<V>>, from: nat, p: nat)
    requires p < |ArrayKeys(arr, from)|
    ensures var k := ArrayKeys(arr, from)[p];
            k.IntKey? && from < k.i <= |arr| && arr[k.i - 1].Some? && ArrayKeys(arr, from)[p + 1..] == ArrayKeys(arr, k.i)
    decreases |arr| - from
  {
    if arr[from].Some? {
      if p > 0 {
        ArrayKeysSplit(arr, from + 1, p - 1);
        assert ArrayKeys(arr, from)[p + 1..] == ArrayKeys(arr, from + 1)[p..];
      }
    } else {
      ArrayKeysSplit(arr, from + 1, p);
    }
  }

  lemma {:induction false} ArrayKeysAll<V>(arr: seq<Option<V>>, from: nat, i: nat)
    requires from <= i < |arr| && arr[i].Some?
    ensures IntKey(i + 1) in ArrayKeys(arr, from)
    decreases i - from
  {
    if from < i { ArrayKeysAll(arr, from + 1, i); }
  }

  /** The walk visits exactly the keys of the source table, each once. */
  lemma AllKeysOnce<V>(arr: seq<Option<V>>, at: seq<Option<Key>>, entries: seq<Entry<V>>)
    requires IsTable(entries) && ArrayFilled(arr, entries, |entries|)
    requires forall i :: 0 <= i < |at| ==> at[i].Some?
    requires forall i, j :: 0 <= i < j < |at| ==> at[i] != at[j]
    requires Keys(at) == HashKeys(entries, |arr|)
    ensures Distinct(AllKeys(arr, at))
    ensures forall k :: k in AllKeys(arr, at) <==> HasKey(entries, k)
  {
    hide IsTable, ArrayFilled, Keys, HashKeys, ArrayKeys, SlotKeys, Distinct, InArray, HasKey;
    ArrayKeysOnce(arr, entries);
    SlotKeysOnce(at, arr, entries);
    DistinctConcat(ArrayKeys(arr, 0), SlotKeys(at));
    KeysComplete(arr, at, entries);
  }

  /** The keys of the array part are in increasing order. */
  lemma ArrayKeysGrow<V>(arr: seq<Option<V>>, i: nat, j: nat)
    requires i < j < |ArrayKeys(arr, 0)|
    ensures ArrayKeys(arr, 0)[i] != ArrayKeys(arr, 0)[j]
  {
    var a := ArrayKeys(arr, 0);
    ArrayKeysSplit(arr, 0, i);
    ArrayKeysSplit(arr, a[i].i, j - i - 1);
    assert a[j] == a[i + 1..][j - i - 1];
  }

  lemma ArrayKeyHas<V>(arr: seq<Option<V>>, entries: seq<Entry<V>>, i: nat)
    requires ArrayFilled(arr, entries, |entries|) && i < |ArrayKeys(arr, 0)|
    ensures InArray(ArrayKeys(arr, 0)[i], |arr|) && HasKey(entries, ArrayKeys(arr, 0)[i])
  {
    ArrayKeysSplit(arr, 0, i);
    var n := ArrayKeys(arr, 0)[i].i - 1;
    assert Entry(IntKey(n + 1), arr[n].value) in entries;
  }

  lemma ArrayKeysOnce<V>(arr: seq<Option<V>>, entries: seq<Entry<V>>)
    requires ArrayFilled(arr, entries, |entries|)
    ensures Distinct(ArrayKeys(arr, 0))
    ensures forall k :: k in ArrayKeys(arr, 0) ==> InArray(k, |arr|) && HasKey(entries, k)
  {
    hide ArrayFilled, ArrayKeys, InArray, HasKey;
    var a := ArrayKeys(arr, 0);
    forall i | 0 <= i < |a| ensures InArray(a[i], |arr|) && HasKey(entries, a[i]) { ArrayKeyHas(arr, entries, i); }
    forall i, j | 0 <= i < j < |a| ensures a[i] != a[j] { ArrayKeysGrow(arr, i, j); }
  }

  lemma DistinctConcat<T>(a: seq<T>, s: seq<T>)
    requires Distinct(a) && Distinct(s) && forall k :: k in a ==> k !in s
    ensures Distinct(a + s)
  {
    forall i, j | 0 <= i < j < |a + s| ensures (a + s)[i] != (a + s)[j] {
      if i < |a| && |a| <= j { assert a[i] in a && s[j - |a|] in s; }
    }
  }

  lemma SlotKeysOnce<V>(at: seq<Option<Key>>, arr: seq<Option<V>>, entries: seq<Entry<V>>)
    requires forall i :: 0 <= i < |at| ==> at[i].Some?
    requires forall i, j :: 0 <= i < j < |at| ==> at[i] != at[j]
    requires Keys(at) == HashKeys(entries, |arr|)
    ensures Distinct(SlotKeys(at))
    ensures forall k :: k in SlotKeys(at) ==> !InArray(k, |arr|) && HasKey(entries, k)
  {
    var s := SlotKeys(at);
    forall i | 0 <= i < |s| ensures !InArray(s[i], |arr|) && HasKey(entries, s[i]) {
      assert at[i].value in Keys(at);
    }
  }

  lemma KeysComplete<V>(arr: seq<Option<V>>, at: seq<Option<Key>>, entries: seq<Entry<V>>)
    requires IsTable(entries) && ArrayFilled(arr, entries, |entries|)
    requires forall i :: 0 <= i < |at| ==> at[i].Some?
    requires Keys(at) == HashKeys(entries, |arr|)
    ensures forall k :: HasKey(entries, k) ==> k in AllKeys(arr, at)
  {
    var a, s := ArrayKeys(arr, 0), SlotKeys(at);
    forall k | HasKey(entries, k) ensures k in a + s {
      var e :| 0 <= e < |entries| && entries[e].key == k;
      if InArray(k, |arr|) {
        ArrayKeysAll(arr, 0, k.i - 1);
        assert k in a;
      } else {
        assert k in HashKeys(entries, |arr|);
        var i :| 0 <= i < |at| && at[i].Some? && at[i].value == k;
        assert s[i] == k;
      }
    }
  }

  lemma FilledSlots<V>(h: seq<Node<V>>, strings: seq<Str>, at: seq<Option<Key>>, chains: seq<seq<nat>>, n: nat)
    requires |h| == n && (n > 0 ==> Packed(h, strings, at, chains)) && (n == 0 ==> at == [])
    requires forall i :: 0 <= i < |h| ==> h[i].v.Some?
    ensures |at| == n && (forall i :: 0 <= i < n ==> at[i].Some?) && forall i, j :: 0 <= i < j < n ==> at[i] != at[j]
  {
    hide Chains, Members, Holds;
  }

  lemma AfterIndex<V>(arr: seq<Option<V>>, at: seq<Option<Key>>, entries: seq<Entry<V>>, k: Key)
    requires forall i :: 0 <= i < |at| ==> at[i].Some?
    requires Keys(at) == HashKeys(entries, |arr|) && InArray(k, |arr|)
    ensures forall p :: 0 <= p < |AllKeys(arr, at)| && AllKeys(arr, at)[p] == k ==>
              AllKeys(arr, at)[p + 1..] == ArrayKeys(arr, k.i) + SlotKeys(at)
  {
    var a, s, all := ArrayKeys(arr, 0), SlotKeys(at), AllKeys(arr, at);
    forall i | 0 <= i < |s| ensures s[i] != k { assert at[i].value in Keys(at); }
    forall p | 0 <= p < |all| && all[p] == k ensures all[p + 1..] == ArrayKeys(arr, k.i) + s {
      assert p < |a| && a[p] == k;
      ArrayKeysSplit(arr, 0, p);
      assert all[p + 1..] == a[p + 1..] + s;
    }
  }

  lemma AfterSlot<V>(arr: seq<Option<V>>, at: seq<Option<Key>>, k: Key, slot: int)
    requires forall i :: 0 <= i < |at| ==> at[i].Some?
    requires forall i, j :: 0 <= i < j < |at| ==> at[i] != at[j]
    requires !InArray(k, |arr|) && -1 <= slot < |at|
    requires if slot >= 0 then at[slot] == Some(k) else Some(k) !in at
    ensures slot == -1 <==> k !in AllKeys(arr, at)
    ensures slot >= 0 ==> forall p :: 0 <= p < |AllKeys(arr, at)| && AllKeys(arr, at)[p] == k ==>
              First(AllKeys(arr, at)[p + 1..]) == if slot + 1 < |at| then at[slot + 1] else None
  {
    var a, s, all := ArrayKeys(arr, 0), SlotKeys(at), AllKeys(arr, at);
    if slot >= 0 { assert all[|a| + slot] == k; }
    forall p | 0 <= p < |all| && all[p] == k
      ensures slot >= 0 && p == |a| + slot
      ensures First(all[p + 1..]) == if slot + 1 < |at| then at[slot + 1] else None
    {
      if p < |a| { ArrayKeysSplit(arr, 0, p); }
      assert at[p - |a|] == Some(k) && at[p - |a|] in at;
      if slot + 1 < |at| { assert all[p + 1..][0] == s[slot + 1]; }
    }
  }

  lemma FilledIndex<V>(arr: seq<Option<V>>, entries: seq<Entry<V>>, k: Key)
    requires IsTable(entries) && ArrayFilled(arr, entries, |entries|) && InArray(k, |arr|)
    ensures arr[k.i - 1] == RawGet(entries, k)
  {
    hide RawGet;
    RawGetIs(entries, k);
    if RawGet(entries, k).Some? {
      var e :| 0 <= e < |entries| && entries[e] == Entry(k, RawGet(entries, k).value);
    }
    assert arr[k.i - 1].Some? ==> Entry(IntKey((k.i - 1) + 1), arr[k.i - 1].value) in entries;
  }

  lemma FilledSlot<V>(h: seq<Node<V>>, at: seq<Option<Key>>, entries: seq<Entry<V>>, k: Key, slot: nat)
    requires IsTable(entries) && Valued(h, at, entries) && slot < |at| && at[slot] == Some(k) && h[slot].v.Some?
    ensures h[slot].v == RawGet(entries, k)
  {
    hide RawGet;
    var e :| 0 <= e < |entries| && entries[e] == Entry(k, h[slot].v.value);
    RawGetKey(entries, e);
  }

  lemma FilledAbsent<V>(at: seq<Option<Key>>, entries: seq<Entry<V>>, k: Key, sizearray: nat)
    requires Some(k) !in at && Keys(at) == HashKeys(entries, sizearray) && !InArray(k, sizearray)
    ensures RawGet(entries, k) == None
  {
    hide RawGet;
    InKeys(at, k);
    RawGetIs(entries, k);
    forall e | 0 <= e < |entries| ensures entries[e].key != k {
      if !InArray(entries[e].key, sizearray) { assert entries[e].key in HashKeys(entries, sizearray); }
    }
  }

  /* ---------- looking up ---------- */

  /** How many slots a table needs. */
  method CountSize<V(==)>(entries: seq<Entry<V>>, sizearray: nat) returns (n: nat)
    requires OnceEach(entries)
    ensures n == |HashKeys(entries, sizearray)|
  {
    n := 0;
    for j := 0 to |entries|
      invariant n == |HashKeys(entries[..j], sizearray)|
    {
      HashKeysNext(entries, j, sizearray);
      NotYet(entries, j, sizearray);
      n := n + 1;
      if entries[j].key.IntKey? {
        var nkey := entries[j].key.i;
        if nkey > 0 && nkey <= sizearray { n := n - 1; }
      }
    }
    assert entries[..|entries|] == entries;
  }

  /* ---------- keys of 64 bits ---------- */

  /** Do the keys stay different as keys of 32 bits, and does none become an index of the
      array part? */
  predicate Fits<V>(source: seq<Entry<V>>, sizearray: nat) {
    && OnceEach(Cuts(source))
    && forall e :: 0 <= e < |source| && InArray(Cut(source[e].key), sizearray) ==> InArray(source[e].key, sizearray)
  }

  /** A table, packed. Without a hash part only the array part is filled. */
  method ConvTable<V(==)>(ctx: Context, source: seq<Entry<V>>, sizearray: nat) returns (t: Table<V>)
    requires ctx.Valid() && IsSource(source) && sizearray < 0x8000_0000 && Fits(source, sizearray)
    modifies ctx
    ensures fresh(t) && fresh(t.arr) && fresh(t.hash) && t.ctx == ctx
    ensures t.sizearray == sizearray && t.sizehash == |HashKeys(source, sizearray)|
    ensures t.Filled(Cuts(source))
  {
    hide Cut, Fits, HashKeys;
    var sizehash := CountSize(source, sizearray);
    t := new Table(ctx, sizearray, sizehash);
    SlotsExactly(source, sizearray);
    CutsTable(source, sizearray);
    if sizehash > 0 {
      t.FillNoColliding(source);
      SecondStart(t.hash[..], t.at, Cuts(source), sizearray);
      t.FillColliding(source);
      t.FullyFilled(Cuts(source));
    } else {
      OnlyArray(source, sizearray);
      t.FillArray(source);
    }
  }

  lemma CutsTable<V>(source: seq<Entry<V>>, sizearray: nat)
    requires Fits(source, sizearray)
    ensures IsTable(Cuts(source))
  {
    hide Cut;
  }

  lemma InHash<V>(entries: seq<Entry<V>>, sizearray: nat, e: nat)
    requires e < |entries|
    ensures entries[e].key in HashKeys(entries, sizearray) <==> !InArray(entries[e].key, sizearray)
  {
  }

  lemma OnlyArray<V>(source: seq<Entry<V>>, sizearray: nat)
    requires HashKeys(source, sizearray) == {} && sizearray < 0x8000_0000
    ensures Cuts(source) == source
  {
    hide Cut;
    forall e | 0 <= e < |source| ensures Cuts(source)[e] == source[e] {
      InHash(source, sizearray, e);
      CutInArray(source[e].key, sizearray);
    }
  }

  lemma CutsPrefix<V>(source: seq<Entry<V>>, j: nat)
    requires j < |source|
    ensures Cuts(source)[..j] == Cuts(source[..j]) && Cuts(source)[..j + 1] == Cuts(source[..j + 1])
  {
    hide Cut;
  }

  lemma CutInArray(k: Key, sizearray: nat)
    requires sizearray < 0x8000_0000 && InArray(k, sizearray)
    ensures Cut(k) == k
  {
  }

  /** The hash part of 32-bit keys is not larger than that of the source, and is as large
      exactly when the keys fit. */
  lemma {:induction false} HashSizes<V>(source: seq<Entry<V>>, sizearray: nat, j: nat)
    requires OnceEach(source) && sizearray < 0x8000_0000 && j <= |source|
    ensures var c, n := |HashKeys(Cuts(source[..j]), sizearray)|, |HashKeys(source[..j], sizearray)|;
            c <= n && (c == n <==> Fits(source[..j], sizearray))
  {
    if j == 0 {
      assert source[..0] == [];
    } else {
      hide Cut, Fits, HashKeys, InArray, Cuts, OnceEach;
      var i, k := j - 1, source[j - 1].key;
      HashSizes(source, sizearray, i);
      CutsPrefix(source, i);
      CutAt(source, i);
      HashKeysNext(source, i, sizearray);
      HashKeysNext(Cuts(source), i, sizearray);
      NotYet(source, i, sizearray);
      FitsNext(source, sizearray, i);
      OneMore(HashKeys(source[..i], sizearray), k);
      OneMore(HashKeys(Cuts(source[..i]), sizearray), Cut(k));
    }
  }

  lemma OneMore(keys: set<Key>, k: Key)
    ensures |keys + {}| == |keys| && |keys + {k}| == |keys| + if k in keys then 0 else 1
  {
    assert keys + {} == keys && (k in keys ==> keys + {k} == keys);
  }

  /** The keys of two entries as 32 bits, when one of them is an index of the array part. */
  lemma IndexApart<V>(source: seq<Entry<V>>, sizearray: nat, j: nat, e: nat)
    requires OnceEach(source) && sizearray < 0x8000_0000 && e < j < |source| && InArray(source[j].key, sizearray)
    requires InArray(Cut(source[e].key), sizearray) ==> InArray(source[e].key, sizearray)
    ensures Cut(source[e].key) != Cut(source[j].key)
  {
    hide Cut;
    CutInArray(source[j].key, sizearray);
    if InArray(source[e].key, sizearray) { CutInArray(source[e].key, sizearray); }
  }

  /** One more key fits when the others do and it is not one of theirs. */
  lemma FitsNext<V>(source: seq<Entry<V>>, sizearray: nat, j: nat)
    requires OnceEach(source) && sizearray < 0x8000_0000 && j < |source|
    ensures var k, c := source[j].key, Cut(source[j].key);
            Fits(source[..j + 1], sizearray) <==>
            Fits(source[..j], sizearray) &&
            (InArray(k, sizearray) || (!InArray(c, sizearray) && c !in HashKeys(Cuts(source[..j]), sizearray)))
    ensures InArray(source[j].key, sizearray) ==> InArray(Cut(source[j].key), sizearray)
  {
    hide Cut;
    var k, c, a, b := source[j].key, Cut(source[j].key), Cuts(source[..j]), Cuts(source[..j + 1]);
    if InArray(k, sizearray) { CutInArray(k, sizearray); }
    CutsPrefix(source, j);
    assert a == b[..j] && b[j].key == c;
    if Fits(source[..j + 1], sizearray) { FitsBefore(source, sizearray, j); }
    if Fits(source[..j], sizearray) && (InArray(k, sizearray) || (!InArray(c, sizearray) && c !in HashKeys(a, sizearray))) {
      FitsAfter(source, sizearray, j);
    }
  }

  lemma FitsBefore<V>(source: seq<Entry<V>>, sizearray: nat, j: nat)
    requires j < |source| && Fits(source[..j + 1], sizearray)
    ensures Fits(source[..j], sizearray)
    ensures InArray(source[j].key, sizearray) ||
            (!InArray(Cut(source[j].key), sizearray) && Cut(source[j].key) !in HashKeys(Cuts(source[..j]), sizearray))
  {
    hide Cut;
    var a, b := Cuts(source[..j]), Cuts(source[..j + 1]);
    assert forall e :: 0 <= e < j ==> a[e] == b[e];
    assert forall e :: 0 <= e < j ==> source[..j][e] == source[..j + 1][e];
    assert b[j].key == Cut(source[j].key) && source[..j + 1][j] == source[j];
  }

  lemma FitsAfter<V>(source: seq<Entry<V>>, sizearray: nat, j: nat)
    requires OnceEach(source) && sizearray < 0x8000_0000 && j < |source| && Fits(source[..j], sizearray)
    requires InArray(source[j].key, sizearray) ||
             (!InArray(Cut(source[j].key), sizearray) && Cut(source[j].key) !in HashKeys(Cuts(source[..j]), sizearray))
    ensures Fits(source[..j + 1], sizearray)
  {
    hide Cut;
    var k, a, b := source[j].key, Cuts(source[..j]), Cuts(source[..j + 1]);
    assert forall e :: 0 <= e < j ==> a[e] == b[e] && source[..j][e] == source[e];
    forall e | 0 <= e < j ensures b[e].key != b[j].key {
      assert b[e].key == Cut(source[e].key) && b[j].key == Cut(k);
      if InArray(k, sizearray) {
        assert InArray(Cut(source[..j][e].key), sizearray) ==> InArray(source[..j][e].key, sizearray);
        IndexApart(source, sizearray, j, e);
      } else {
        InHash(a, sizearray, e);
      }
    }
  }

  lemma SlotsExactly<V>(source: seq<Entry<V>>, sizearray: nat)
    requires OnceEach(source) && sizearray < 0x8000_0000
    ensures |HashKeys(Cuts(source), sizearray)| == |HashKeys(source, sizearray)| <==> Fits(source, sizearray)
  {
    HashSizes(source, sizearray, |source|);
    assert source[..|source|] == source;
  }

  /** For other keys no table with the slots that were counted is complete: a slot is unused,
      or holds a key a second time. */
  lemma NotPacked<V>(source: seq<Entry<V>>, sizearray: nat, at: seq<Option<Key>>)
    requires OnceEach(source) && sizearray < 0x8000_0000 && !Fits(source, sizearray)
    requires |at| == |HashKeys(source, sizearray)| && Keys(at) == HashKeys(Cuts(source), sizearray)
    ensures !(forall i :: 0 <= i < |at| ==> at[i].Some?) || exists i, j :: 0 <= i < j < |at| && at[i] == at[j]
  {
    hide Keys, HashKeys, Fits, Cut;
    SlotsExactly(source, sizearray);
    if (forall i :: 0 <= i < |at| ==> at[i].Some?) && forall i, j :: 0 <= i < j < |at| ==> at[i] != at[j] {
      KeysCount(at);
    }
  }

  /** Looking up a key of 64 bits gives its value in the source exactly when the key is there,
      or no key of the table is the same integer of 32 bits. */
  lemma LookedUp<V>(source: seq<Entry<V>>, k: Key)
    requires IsSource(source) && OnceEach(Cuts(source))
    ensures RawGet(Cuts(source), Cut(k)) == RawGet(source, k) <==> HasKey(source, k) || !HasKey(Cuts(source), Cut(k))
  {
    hide Cut, RawGet;
    RawGetIs(source, k);
    RawGetIs(Cuts(source), Cut(k));
    if HasKey(source, k) {
      var e :| 0 <= e < |source| && source[e].key == k;
      CutAt(source, e);
      RawGetKey(source, e);
      RawGetKey(Cuts(source), e);
    } else if HasKey(Cuts(source), Cut(k)) {
      var e :| 0 <= e < |source| && Cuts(source)[e].key == Cut(k);
      RawGetKey(Cuts(source), e);
      GetsNothing(source, k);
    } else {
      GetsNothing(source, k);
      GetsNothing(Cuts(source), Cut(k));
    }
  }

  lemma GetsNothing<V>(entries: seq<Entry<V>>, k: Key)
    requires !HasKey(entries, k)
    ensures RawGet(entries, k) == None
  {
    hide RawGet;
    GotKey(entries, k);
  }

  lemma GotKey<V>(entries: seq<Entry<V>>, k: Key)
    ensures RawGet(entries, k).Some? ==> HasKey(entries, k)
  {
    hide RawGet;
    RawGetIs(entries, k);
    if RawGet(entries, k).Some? {
      var e :| 0 <= e < |entries| && entries[e] == Entry(k, RawGet(entries, k).value);
    }
  }

  /** Keys of 32 bits are what they are. */
  lemma SameKeys<V>(source: seq<Entry<V>>, sizearray: nat)
    requires IsTable(source)
    ensures Cuts(source) == source && Fits(source, sizearray)
  {
    hide Cut;
  }

  /** The keys 5 and 5 + 2^32 are one slot short of two; and a table with the key 5 answers
      for both. */
  lemma FiveTwice<V>(x: V, y: V)
    ensures var source := [Entry(IntKey(5), x), Entry(IntKey(WRAP + 5), y)];
            IsSource(source) && !Fits(source, 0) && |HashKeys(Cuts(source), 0)| < |HashKeys(source, 0)|
    ensures var source := [Entry(IntKey(5), x)];
            Fits(source, 0) && RawGet(Cuts(source), Cut(IntKey(WRAP + 5))) == Some(x) && RawGet(source, IntKey(WRAP + 5)) == None
  {
    var source := [Entry(IntKey(5), x), Entry(IntKey(WRAP + 5), y)];
    assert Cuts(source)[0].key == Cuts(source)[1].key == IntKey(5);
    HashSizes(source, 0, 2);
    assert source[..2] == source;
    var one := [Entry(IntKey(5), x)];
    SameKeys(one, 0);
    LookedUp(one, IntKey(WRAP + 5));
    RawGetKey(one, 0);
    GetsNothing(one, IntKey(WRAP + 5));
  }
}
