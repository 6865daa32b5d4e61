/** Serialisation of values: what the bytes of a value are, and how they are read back. */
module LuaSeri {

  type Byte = x: int | 0 <= x < 256
  type Bytes = seq<Byte>
  type Int64 = x: int | -0x8000_0000_0000_0000 <= x < 0x8000_0000_0000_0000

  const TYPE_NIL: nat := 0
  const TYPE_BOOLEAN: nat := 1
  const TYPE_NUMBER: nat := 2
  const TYPE_USERDATA: nat := 3
  const TYPE_SHORT_STRING: nat := 4
  const TYPE_LONG_STRING: nat := 5
  const TYPE_TABLE: nat := 6

  const NUMBER_ZERO: nat := 0
  const NUMBER_BYTE: nat := 1
  const NUMBER_WORD: nat := 2
  const NUMBER_DWORD: nat := 4
  const NUMBER_QWORD: nat := 6
  const NUMBER_REAL: nat := 8

  const MAX_COOKIE: nat := 32
  const MAX_DEPTH: nat := 32
  const WORD_SIZE: nat := 8    // bytes of a double, and of a pointer
  const INT_MAX: nat := 0x7fff_ffff

  /** Lua values. A table has the fields that were set, and the length that the raw length
      operator gives; a field that was set again counts as set last, and one that was set
      to nil counts as absent. Doubles and pointers are their bytes. */
  datatype Value =
    | Nil
    | Boolean(b: bool)
    | Integer(i: Int64)
    | Real(bits: Bytes)
    | Pointer(bits: Bytes)
    | String(s: Bytes)
    | Table(length: nat, fields: seq<Field>)
    | Unsupported      // functions, threads and full userdata

  datatype Field = Field(key: Value, value: Value)

  /** A double that is not a number: all bits of the exponent, and one of the fraction. */
  predicate NanKey(k: Value) {
    && k.Real? && |k.bits| == WORD_SIZE
    && k.bits[7] % 128 == 127 && k.bits[6] / 16 == 15
    && (k.bits[6] % 16 != 0 || k.bits[..6] != [0, 0, 0, 0, 0, 0])
  }

  /** What Lua and the sizes of the machine guarantee: no key is nil or not a number, a key
      has one field, and lengths fit in an `int`. Tables as keys are different keys when they
      are equal as values here. */
  predicate Proper(v: Value) {
    match v
    case Real(bits) => |bits| == WORD_SIZE
    case Pointer(bits) => |bits| == WORD_SIZE
    case String(s) => |s| <= INT_MAX
    case Table(length, fields) =>
      && length <= INT_MAX
      && (forall f :: 0 <= f < |fields| ==>
           fields[f].key != Nil && !NanKey(fields[f].key) && Proper(fields[f].key) && Proper(fields[f].value))
      && (forall f, g :: 0 <= f < g < |fields| ==> fields[f].key != fields[g].key || fields[f].key.Table?)
    case _ => true
  }

  /** The last field with a key, or -1. */
  function FindKey(fields: seq<Field>, k: Value): (f: int)
    ensures -1 <= f < |fields| && (f >= 0 ==> fields[f].key == k)
    ensures forall g :: f < g < |fields| ==> fields[g].key != k
  {
    if fields == [] then -1
    else if fields[|fields| - 1].key == k then |fields| - 1
    else FindKey(fields[..|fields| - 1], k)
  }

  function RawGet(fields: seq<Field>, k: Value): Value {
    var f := FindKey(fields, k);
    if f < 0 then Nil else fields[f].value
  }

  predicate InArray(k: Value, length: nat) { k.Integer? && 0 < k.i <= length }

  /* ---------- bytes of numbers ---------- */

  function Le(x: nat, n: nat): (s: Bytes)
    ensures |s| == n
  {
    if n == 0 then [] else [x % 256] + Le(x / 256, n - 1)
  }

  function FromLe(s: Bytes): nat { if s == [] then 0 else s[0] + 256 * FromLe(s[1..]) }

  function Power256(n: nat): nat { if n == 0 then 1 else 256 * Power256(n - 1) }

  lemma {:induction false} FromLeLe(x: nat, n: nat)
    requires x < Power256(n)
    ensures FromLe(Le(x, n)) == x
  {
    if n > 0 {
      FromLeLe(x / 256, n - 1);
      assert Le(x, n)[1..] == Le(x / 256, n - 1);
    }
  }

  lemma Powers()
    ensures Power256(1) == 0x100 && Power256(2) == 0x1_0000 && Power256(4) == 0x1_0000_0000
    ensures Power256(8) == 0x1_0000_0000_0000_0000
  {
    assert Power256(3) == 0x100_0000 && Power256(5) == 0x100_0000_0000;
    assert Power256(6) == 0x1_0000_0000_0000 && Power256(7) == 0x100_0000_0000_0000;
  }

  function Combine(kind: nat, cookie: nat): Byte
    requires kind < 8 && cookie < 32
  {
    kind + 8 * cookie
  }

  function KindOf(b: Byte): nat { b % 8 }

  function CookieOf(b: Byte): (n: nat)
    ensures n < 32
  {
    b / 8
  }

  lemma Uncombine(kind: nat, cookie: nat)
    requires kind < 8 && cookie < 32
    ensures KindOf(Combine(kind, cookie)) == kind && CookieOf(Combine(kind, cookie)) == cookie
  {
  }

  predicate IsInt32(x: int) { -0x8000_0000 <= x < 0x8000_0000 }

  /** Kind, width in bytes and content of an integer. */
  function IntegerCookie(x: Int64): (n: nat)
    ensures n < NUMBER_REAL
  {
    if x == 0 then NUMBER_ZERO
    else if !IsInt32(x) then NUMBER_QWORD
    else if x < 0 then NUMBER_DWORD
    else if x < 0x100 then NUMBER_BYTE
    else if x < 0x1_0000 then NUMBER_WORD
    else NUMBER_DWORD
  }

  function IntegerBytes(x: Int64): Bytes {
    if x == 0 then []
    else if !IsInt32(x) then Le(Unsigned64(x), 8)
    else if x < 0 then Le(Unsigned32(x), 4)
    else if x < 0x100 then Le(x, 1)
    else if x < 0x1_0000 then Le(x, 2)
    else Le(x, 4)
  }

  function Unsigned32(x: int): nat
    requires IsInt32(x)
  {
    if x < 0 then x + 0x1_0000_0000 else x
  }

  function Unsigned64(x: Int64): nat { if x < 0 then x + 0x1_0000_0000_0000_0000 else x }

  function Signed32(u: nat): int { if u >= 0x8000_0000 then u - 0x1_0000_0000 else u }

  function Signed64(u: nat): int { if u >= 0x8000_0000_0000_0000 then u - 0x1_0000_0000_0000_0000 else u }

  lemma {:induction false} FromLeBound(s: Bytes)
    ensures FromLe(s) < Power256(|s|)
  {
    if s != [] { FromLeBound(s[1..]); }
  }

  /** `wb_integer` */
  function PackInteger(x: Int64): Bytes { [Combine(TYPE_NUMBER, IntegerCookie(x))] + IntegerBytes(x) }

  /* ---------- packing ---------- */

  datatype Packed = Packed(bytes: Bytes) | Error(message: string)

  function Then(a: Packed, b: Packed): Packed {
    if a.Error? then a else if b.Error? then b else Packed(a.bytes + b.bytes)
  }

  /** `wb_string` */
  function PackString(s: Bytes): Bytes
    requires |s| <= INT_MAX
  {
    if |s| < MAX_COOKIE then [Combine(TYPE_SHORT_STRING, |s|)] + s
    else if |s| < 0x1_0000 then [Combine(TYPE_LONG_STRING, 2)] + Le(|s|, 2) + s
    else [Combine(TYPE_LONG_STRING, 4)] + Le(|s|, 4) + s
  }

  const NIL_BYTES: Bytes := [Combine(TYPE_NIL, 0)]

  function TableHead(n: nat): Bytes
    requires n <= INT_MAX
  {
    if n >= MAX_COOKIE - 1 then [Combine(TYPE_TABLE, MAX_COOKIE - 1)] + PackInteger(n)
    else [Combine(TYPE_TABLE, n)]
  }

  /** `pack_one`: the bytes of a value at a depth. */
  function PackOf(v: Value, depth: nat): Packed
    requires Proper(v)
    decreases v, 2, 0
  {
    if depth > MAX_DEPTH then Error("serialize can't pack too depth table")
    else
      match v
      case Nil => Packed(NIL_BYTES)
      case Boolean(b) => Packed([Combine(TYPE_BOOLEAN, if b then 1 else 0)])
      case Integer(i) => Packed(PackInteger(i))
      case Real(bits) => Packed([Combine(TYPE_NUMBER, NUMBER_REAL)] + bits)
      case Pointer(bits) => Packed([Combine(TYPE_USERDATA, 0)] + bits)
      case String(s) => Packed(PackString(s))
      case Table(length, _) =>
        Then(Packed(TableHead(length)), Then(PackItems(v, 1, depth + 1), Then(PackOthers(v, 0, depth + 1), Packed(NIL_BYTES))))
      case Unsupported => Error("Unsupport type to serialize")
  }

  /** The items of the array part, from index `i` on. */
  function PackItems(t: Value, i: nat, depth: nat): Packed
    requires t.Table? && Proper(t) && 1 <= i <= t.length + 1
    decreases t, 1, t.length + 1 - i
  {
    if i > t.length then Packed([])
    else Then(PackItem(t, i, depth), PackItems(t, i + 1, depth))
  }

  function PackItem(t: Value, i: nat, depth: nat): Packed
    requires t.Table? && Proper(t) && 1 <= i <= t.length
    decreases t, 0, 0
  {
    var f := FindKey(t.fields, Integer(i));
    if f >= 0 then PackOf(t.fields[f].value, depth)
    else if depth > MAX_DEPTH then Error("serialize can't pack too depth table")
    else Packed(NIL_BYTES)
  }

  /** The fields from `f` on that are not in the array part. */
  function PackOthers(t: Value, f: nat, depth: nat): Packed
    requires t.Table? && Proper(t) && f <= |t.fields|
    decreases t, 1, |t.fields| - f
  {
    if f == |t.fields| then Packed([])
    else if InArray(t.fields[f].key, t.length) then PackOthers(t, f + 1, depth)
    else Then(PackOf(t.fields[f].key, depth), Then(PackOf(t.fields[f].value, depth), PackOthers(t, f + 1, depth)))
  }

  /* ---------- reading ---------- */

  datatype Read<T> = Got(value: T, rest: Bytes) | Invalid

  /** `rb_read` */
  function Take(n: nat, s: Bytes): Read<Bytes> {
    if |s| < n then Invalid else Got(s[..n], s[n..])
  }

  function GetInteger(cookie: nat, s: Bytes): (r: Read<Int64>)
    ensures r.Got? ==> |r.rest| <= |s|
  {
    if cookie == NUMBER_ZERO then Got(0, s)
    else
      var n := if cookie == NUMBER_BYTE then 1 else if cookie == NUMBER_WORD then 2
               else if cookie == NUMBER_DWORD then 4 else 8;
      if cookie !in {NUMBER_BYTE, NUMBER_WORD, NUMBER_DWORD, NUMBER_QWORD} || |s| < n then Invalid
      else
        FromLeBound(s[..n]);
        Powers();
        var u := FromLe(s[..n]);
        Got(if n == 4 then Signed32(u) else if n == 8 then Signed64(u) else u, s[n..])
  }

  /** The conversion of an integer to an `int`. */
  function ToInt(x: Int64): int { Signed32(x % 0x1_0000_0000) }

  /** `unpack_one` */
  function Decode(s: Bytes): (r: Read<Value>)
    ensures r.Got? ==> |r.rest| < |s|
    decreases |s|, 0
  {
    if s == [] then Invalid else PushValue(KindOf(s[0]), CookieOf(s[0]), s[1..])
  }

  function PushValue(kind: nat, cookie: nat, s: Bytes): (r: Read<Value>)
    requires cookie < 32
    ensures r.Got? ==> |r.rest| <= |s|
    decreases |s|, 4
  {
    if kind == TYPE_NIL then Got(Nil, s)
    else if kind == TYPE_BOOLEAN then Got(Boolean(cookie != 0), s)
    else if kind == TYPE_NUMBER && cookie == NUMBER_REAL then
      (match Take(WORD_SIZE, s) case Got(bits, rest) => Got(Real(bits), rest) case Invalid => Invalid)
    else if kind == TYPE_NUMBER then
      (match GetInteger(cookie, s) case Got(i, rest) => Got(Integer(i), rest) case Invalid => Invalid)
    else if kind == TYPE_USERDATA then
      (match Take(WORD_SIZE, s) case Got(bits, rest) => Got(Pointer(bits), rest) case Invalid => Invalid)
    else if kind == TYPE_SHORT_STRING then GetBuffer(cookie, s)
    else if kind == TYPE_LONG_STRING then
      if cookie != 2 && cookie != 4 then Invalid
      else
        (match Take(cookie, s) case Got(n, rest) => GetBuffer(FromLe(n), rest) case Invalid => Invalid)
    else if kind == TYPE_TABLE then UnpackTable(cookie, s)
    else Invalid
  }

  /** `get_buffer`. A length that is negative as an `int` gets past the test for the bytes
      that are left, but Lua refuses to make a string of that size. */
  function GetBuffer(n: nat, s: Bytes): (r: Read<Value>)
    ensures r.Got? ==> |r.rest| <= |s|
  {
    if n > INT_MAX then Invalid
    else (match Take(n, s) case Got(str, rest) => Got(String(str), rest) case Invalid => Invalid)
  }

  function UnpackTable(cookie: nat, s: Bytes): (r: Read<Value>)
    requires cookie < 32
    ensures r.Got? ==> |r.rest| <= |s|
    decreases |s|, 3
  {
    if cookie != MAX_COOKIE - 1 then TableBody(cookie, s)
    else
      match TableSize(s)
      case Got(n, rest) => TableBody(n, rest)
      case Invalid => Invalid
  }

  /** The number of items of a long array. */
  function TableSize(s: Bytes): (r: Read<int>)
    ensures r.Got? ==> |r.rest| < |s| && r.value <= INT_MAX
  {
    if s == [] || KindOf(s[0]) != TYPE_NUMBER || CookieOf(s[0]) == NUMBER_REAL then Invalid
    else
      match GetInteger(CookieOf(s[0]), s[1..])
      case Got(n, rest) => Got(ToInt(n), rest)
      case Invalid => Invalid
  }

  function TableBody(n: int, s: Bytes): (r: Read<Value>)
    requires n <= INT_MAX
    ensures r.Got? ==> |r.rest| <= |s|
    decreases |s|, 2
  {
    match DecodeItems(1, n, s)
    case Invalid => Invalid
    case Got(items, rest) =>
      match DecodeOthers(rest)
      case Invalid => Invalid
      case Got(others, rest) => Got(Table(if n < 0 then 0 else n, items + others), rest)
  }

  /** The items from `i` to `n`; an item that is nil sets no field. */
  function DecodeItems(i: nat, n: int, s: Bytes): (r: Read<seq<Field>>)
    requires i <= INT_MAX + 1 && n <= INT_MAX
    ensures r.Got? ==> |r.rest| <= |s|
    decreases |s|, 1
  {
    if i > n then Got([], s)
    else
      match Decode(s)
      case Invalid => Invalid
      case Got(v, rest) =>
        match DecodeItems(i + 1, n, rest)
        case Invalid => Invalid
        case Got(more, rest) => Got(SetItem(i, v) + more, rest)
  }

  function SetItem(i: nat, v: Value): seq<Field>
    requires i <= INT_MAX
  {
    if v.Nil? then [] else [Field(Integer(i), v)]
  }

  /** Keys and values up to a key that is nil; setting a key that is not a number is an error. */
  function DecodeOthers(s: Bytes): (r: Read<seq<Field>>)
    ensures r.Got? ==> |r.rest| <= |s|
    decreases |s|, 1
  {
    match Decode(s)
    case Invalid => Invalid
    case Got(k, rest) =>
      if k.Nil? then Got([], rest)
      else
        match Decode(rest)
        case Invalid => Invalid
        case Got(v, rest) =>
          if NanKey(k) then Invalid
          else
            match DecodeOthers(rest)
            case Invalid => Invalid
            case Got(more, rest) => Got([Field(k, v)] + more, rest)
  }

  /* ---------- what comes back ---------- */

  /** A value as it is rebuilt: the fields of the array part are set first. */
  function Rebuilt(v: Value): Value
    requires Proper(v)
    decreases v, 2, 0
  {
    match v
    case Table(length, _) => Table(length, RebuiltItems(v, 1) + RebuiltOthers(v, 0))
    case _ => v
  }

  function RebuiltItems(t: Value, i: nat): seq<Field>
    requires t.Table? && Proper(t) && 1 <= i <= t.length + 1
    decreases t, 1, t.length + 1 - i
  {
    if i > t.length then []
    else
      var f := FindKey(t.fields, Integer(i));
      (if f >= 0 then SetItem(i, Rebuilt(t.fields[f].value)) else []) + RebuiltItems(t, i + 1)
  }

  function RebuiltOthers(t: Value, f: nat): seq<Field>
    requires t.Table? && Proper(t) && f <= |t.fields|
    decreases t, 1, |t.fields| - f
  {
    if f == |t.fields| then []
    else if InArray(t.fields[f].key, t.length) then RebuiltOthers(t, f + 1)
    else [Field(Rebuilt(t.fields[f].key), Rebuilt(t.fields[f].value))] + RebuiltOthers(t, f + 1)
  }

  /* ---------- the round trip ---------- */

  lemma DecodeHead(kind: nat, cookie: nat, body: Bytes)
    requires kind < 8 && cookie < 32
    ensures Decode([Combine(kind, cookie)] + body) == PushValue(kind, cookie, body)
  {
    hide PushValue, Combine, KindOf, CookieOf;
    Uncombine(kind, cookie);
    assert ([Combine(kind, cookie)] + body)[1..] == body;
  }

  /** Reading `n` bytes of a number back. */
  lemma FromLeFirst(x: nat, n: nat, tail: Bytes)
    requires x < Power256(n)
    ensures var s := Le(x, n) + tail; |s| >= n && FromLe(s[..n]) == x && s[n..] == tail
  {
    FromLeLe(x, n);
    assert (Le(x, n) + tail)[..n] == Le(x, n);
    assert (Le(x, n) + tail)[n..] == tail;
  }

  lemma IntegerRoundTrip(x: Int64, tail: Bytes)
    ensures GetInteger(IntegerCookie(x), IntegerBytes(x) + tail) == Got(x, tail)
    ensures IntegerCookie(x) != NUMBER_REAL
  {
    hide FromLe, Le, Power256;
    Powers();
    if x != 0 {
      if !IsInt32(x) {
        FromLeFirst(Unsigned64(x), 8, tail);
      } else if x < 0 {
        FromLeFirst(Unsigned32(x), 4, tail);
      } else if x < 0x100 {
        FromLeFirst(x, 1, tail);
      } else if x < 0x1_0000 {
        FromLeFirst(x, 2, tail);
      } else {
        FromLeFirst(x, 4, tail);
      }
    }
  }

  lemma TakeFirst(s: Bytes, tail: Bytes)
    ensures Take(|s|, s + tail) == Got(s, tail)
  {
    assert (s + tail)[..|s|] == s && (s + tail)[|s|..] == tail;
  }

  lemma BufferRoundTrip(s: Bytes, tail: Bytes)
    requires |s| <= INT_MAX
    ensures GetBuffer(|s|, s + tail) == Got(String(s), tail)
  {
    TakeFirst(s, tail);
  }

  /** A long string, with its length in `n` bytes. */
  lemma LongRoundTrip(s: Bytes, n: nat, tail: Bytes)
    requires |s| <= INT_MAX && (n == 2 || n == 4) && |s| < Power256(n)
    ensures Decode([Combine(TYPE_LONG_STRING, n)] + Le(|s|, n) + s + tail) == Got(String(s), tail)
  {
    hide Decode, Combine, FromLe, Le, Power256, Take, GetBuffer;
    FromLeLe(|s|, n);
    TakeFirst(Le(|s|, n), s + tail);
    BufferRoundTrip(s, tail);
    DecodeHead(TYPE_LONG_STRING, n, Le(|s|, n) + (s + tail));
    assert [Combine(TYPE_LONG_STRING, n)] + Le(|s|, n) + s + tail == [Combine(TYPE_LONG_STRING, n)] + (Le(|s|, n) + (s + tail));
  }

  lemma StringRoundTrip(s: Bytes, tail: Bytes)
    requires |s| <= INT_MAX
    ensures Decode(PackString(s) + tail) == Got(String(s), tail)
  {
    hide Decode, Combine, FromLe, Le, Power256, Take, GetBuffer, GetInteger, UnpackTable;
    Powers();
    if |s| < MAX_COOKIE {
      BufferRoundTrip(s, tail);
      DecodeHead(TYPE_SHORT_STRING, |s|, s + tail);
      assert PackString(s) + tail == [Combine(TYPE_SHORT_STRING, |s|)] + (s + tail);
    } else {
      LongRoundTrip(s, if |s| < 0x1_0000 then 2 else 4, tail);
    }
  }

  lemma ScalarRoundTrip(v: Value, depth: nat, tail: Bytes)
    requires Proper(v) && depth <= MAX_DEPTH && (v.Nil? || v.Boolean? || v.Integer? || v.Real? || v.Pointer?)
    ensures Decode(PackOf(v, depth).bytes + tail) == Got(v, tail)
  {
    hide Decode, Combine, FromLe, GetBuffer, GetInteger, UnpackTable, IntegerBytes, IntegerCookie, Take;
    match v
    case Nil => DecodeHead(TYPE_NIL, 0, tail);
    case Boolean(b) => DecodeHead(TYPE_BOOLEAN, if b then 1 else 0, tail);
    case Integer(i) =>
      DecodeHead(TYPE_NUMBER, IntegerCookie(i), IntegerBytes(i) + tail);
      IntegerRoundTrip(i, tail);
      assert PackInteger(i) + tail == [Combine(TYPE_NUMBER, IntegerCookie(i))] + (IntegerBytes(i) + tail);
    case Real(bits) =>
      DecodeHead(TYPE_NUMBER, NUMBER_REAL, bits + tail);
      TakeFirst(bits, tail);
      assert PackOf(v, depth).bytes + tail == [Combine(TYPE_NUMBER, NUMBER_REAL)] + (bits + tail);
    case Pointer(bits) =>
      DecodeHead(TYPE_USERDATA, 0, bits + tail);
      TakeFirst(bits, tail);
      assert PackOf(v, depth).bytes + tail == [Combine(TYPE_USERDATA, 0)] + (bits + tail);
  }

  lemma HeadRoundTrip(n: nat, tail: Bytes)
    requires n <= INT_MAX
    ensures Decode(TableHead(n) + tail) == TableBody(n, tail)
  {
    hide Decode, Combine, TableBody, GetInteger, IntegerCookie, IntegerBytes;
    if n < MAX_COOKIE - 1 {
      DecodeHead(TYPE_TABLE, n, tail);
    } else {
      DecodeHead(TYPE_TABLE, MAX_COOKIE - 1, PackInteger(n) + tail);
      SizeRoundTrip(n, tail);
      assert TableHead(n) + tail == [Combine(TYPE_TABLE, MAX_COOKIE - 1)] + (PackInteger(n) + tail);
    }
  }

  lemma SizeRoundTrip(n: nat, tail: Bytes)
    requires n <= INT_MAX
    ensures TableSize(PackInteger(n) + tail) == Got(n, tail)
  {
    hide Combine, GetInteger, IntegerBytes, KindOf, CookieOf;
    Uncombine(TYPE_NUMBER, IntegerCookie(n));
    IntegerRoundTrip(n, tail);
    assert (PackInteger(n) + tail)[1..] == IntegerBytes(n) + tail;
    assert ToInt(n) == n;
  }

  lemma BodyOf(n: nat, s: Bytes, items: seq<Field>, s1: Bytes, others: seq<Field>, s2: Bytes)
    requires n <= INT_MAX && DecodeItems(1, n, s) == Got(items, s1) && DecodeOthers(s1) == Got(others, s2)
    ensures TableBody(n, s) == Got(Table(n, items + others), s2)
  {
    hide DecodeItems, DecodeOthers;
  }

  lemma TablePacked(t: Value, depth: nat, tail: Bytes)
    requires t.Table? && Proper(t) && PackOf(t, depth).Packed?
    ensures depth <= MAX_DEPTH
    ensures var items, others := PackItems(t, 1, depth + 1), PackOthers(t, 0, depth + 1);
            items.Packed? && others.Packed? &&
            PackOf(t, depth).bytes + tail == TableHead(t.length) + (items.bytes + (others.bytes + (NIL_BYTES + tail)))
  {
    hide PackItems, PackOthers, TableHead, Combine;
    var items, others := PackItems(t, 1, depth + 1), PackOthers(t, 0, depth + 1);
    assert PackOf(t, depth).bytes == TableHead(t.length) + (items.bytes + (others.bytes + NIL_BYTES));
  }

  /** Reading the bytes of a value, with anything behind them, gives the value rebuilt, and
      leaves exactly what is behind them. */
  lemma {:induction false} RoundTrip(v: Value, depth: nat, tail: Bytes)
    requires Proper(v) && PackOf(v, depth).Packed?
    ensures Decode(PackOf(v, depth).bytes + tail) == Got(Rebuilt(v), tail)
    decreases v, 2, 0
  {
    hide Decode, Combine, PackInteger, PackString, PackItems, PackOthers, RebuiltItems, RebuiltOthers, TableHead, TableBody;
    match v
    case String(s) => StringRoundTrip(s, tail);
    case Table(length, _) =>
      var items, others := PackItems(v, 1, depth + 1), PackOthers(v, 0, depth + 1);
      TablePacked(v, depth, tail);
      ItemsRoundTrip(v, 1, depth + 1, others.bytes + (NIL_BYTES + tail));
      OthersRoundTrip(v, 0, depth + 1, tail);
      HeadRoundTrip(length, items.bytes + (others.bytes + (NIL_BYTES + tail)));
      BodyOf(length, items.bytes + (others.bytes + (NIL_BYTES + tail)), RebuiltItems(v, 1),
             others.bytes + (NIL_BYTES + tail), RebuiltOthers(v, 0), tail);
    case Unsupported =>
    case _ => ScalarRoundTrip(v, depth, tail);
  }

  /** The item at `i`, or nil. */
  lemma {:induction false} ItemRoundTrip(t: Value, i: nat, depth: nat, tail: Bytes)
    requires t.Table? && Proper(t) && 1 <= i <= t.length && PackItem(t, i, depth).Packed?
    ensures var f := FindKey(t.fields, Integer(i));
            Decode(PackItem(t, i, depth).bytes + tail) == Got(if f >= 0 then Rebuilt(t.fields[f].value) else Nil, tail)
    decreases t, 0, 0
  {
    hide Decode, PackOf, FindKey, Rebuilt;
    var f := FindKey(t.fields, Integer(i));
    if f >= 0 {
      RoundTrip(t.fields[f].value, depth, tail);
    } else {
      NilRoundTrip(tail);
    }
  }

  lemma NilRoundTrip(tail: Bytes)
    ensures Decode(NIL_BYTES + tail) == Got(Nil, tail)
  {
    DecodeHead(TYPE_NIL, 0, tail);
  }

  lemma ItemsStep(i: nat, n: nat, s: Bytes, v: Value, s1: Bytes, more: seq<Field>, s2: Bytes)
    requires i <= n <= INT_MAX && Decode(s) == Got(v, s1) && DecodeItems(i + 1, n, s1) == Got(more, s2)
    ensures DecodeItems(i, n, s) == Got(SetItem(i, v) + more, s2)
  {
    hide Decode, SetItem;
  }

  lemma ItemsPacked(t: Value, i: nat, depth: nat, tail: Bytes)
    requires t.Table? && Proper(t) && 1 <= i <= t.length && PackItems(t, i, depth).Packed?
    ensures PackItem(t, i, depth).Packed? && PackItems(t, i + 1, depth).Packed?
    ensures PackItems(t, i, depth).bytes + tail == PackItem(t, i, depth).bytes + (PackItems(t, i + 1, depth).bytes + tail)
  {
    hide PackItem, Proper;
    assert PackItems(t, i, depth) == Then(PackItem(t, i, depth), PackItems(t, i + 1, depth));
  }

  lemma ItemsRebuilt(t: Value, i: nat)
    requires t.Table? && Proper(t) && 1 <= i <= t.length
    ensures var f := FindKey(t.fields, Integer(i));
            (f >= 0 ==> Proper(t.fields[f].value)) && t.length <= INT_MAX &&
            RebuiltItems(t, i) == SetItem(i, if f >= 0 then Rebuilt(t.fields[f].value) else Nil) + RebuiltItems(t, i + 1)
  {
    hide FindKey, Rebuilt;
    var f := FindKey(t.fields, Integer(i));
    if f >= 0 { FieldProper(t, f); }
  }

  lemma ItemsOver(t: Value, depth: nat, tail: Bytes)
    requires t.Table? && Proper(t)
    ensures PackItems(t, t.length + 1, depth) == Packed([]) && RebuiltItems(t, t.length + 1) == []
    ensures [] + tail == tail && DecodeItems(t.length + 1, t.length, tail) == Got([], tail)
  {
  }

  lemma {:induction false} ItemsRoundTrip(t: Value, i: nat, depth: nat, tail: Bytes)
    requires t.Table? && Proper(t) && 1 <= i <= t.length + 1 && PackItems(t, i, depth).Packed?
    ensures DecodeItems(i, t.length, PackItems(t, i, depth).bytes + tail) == Got(RebuiltItems(t, i), tail)
    decreases t, 1, t.length + 1 - i
  {
    hide Decode, DecodeItems, PackItem, PackItems, RebuiltItems, Rebuilt, SetItem, FindKey, Proper, PackOf;
    if i > t.length {
      ItemsOver(t, depth, tail);
    } else {
      var item, more := PackItem(t, i, depth), PackItems(t, i + 1, depth);
      ItemsPacked(t, i, depth, tail);
      ItemsRoundTrip(t, i + 1, depth, tail);
      ItemRoundTrip(t, i, depth, more.bytes + tail);
      ItemsRebuilt(t, i);
      var f := FindKey(t.fields, Integer(i));
      ItemsStep(i, t.length, item.bytes + (more.bytes + tail), if f >= 0 then Rebuilt(t.fields[f].value) else Nil,
                more.bytes + tail, RebuiltItems(t, i + 1), tail);
    }
  }

  lemma OthersStep(s: Bytes, k: Value, s1: Bytes, v: Value, s2: Bytes, more: seq<Field>, s3: Bytes)
    requires Decode(s) == Got(k, s1) && k != Nil && !NanKey(k) && Decode(s1) == Got(v, s2) && DecodeOthers(s2) == Got(more, s3)
    ensures DecodeOthers(s) == Got([Field(k, v)] + more, s3)
  {
    hide Decode;
  }

  lemma OthersPacked(t: Value, f: nat, depth: nat, tail: Bytes)
    requires t.Table? && Proper(t) && f < |t.fields| && PackOthers(t, f, depth).Packed? && !InArray(t.fields[f].key, t.length)
    ensures var k, v, more := PackOf(t.fields[f].key, depth), PackOf(t.fields[f].value, depth), PackOthers(t, f + 1, depth);
            k.Packed? && v.Packed? && more.Packed? &&
            PackOthers(t, f, depth).bytes + tail == k.bytes + (v.bytes + (more.bytes + tail))
  {
    hide PackOf;
    var k, v, more := PackOf(t.fields[f].key, depth), PackOf(t.fields[f].value, depth), PackOthers(t, f + 1, depth);
    assert PackOthers(t, f, depth) == Then(k, Then(v, more));
  }

  lemma InArrayPacked(t: Value, f: nat, depth: nat)
    requires t.Table? && Proper(t) && f < |t.fields| && InArray(t.fields[f].key, t.length)
    ensures PackOthers(t, f, depth) == PackOthers(t, f + 1, depth)
  {
    hide InArray;
  }

  lemma OthersRebuilt(t: Value, f: nat)
    requires t.Table? && Proper(t) && f < |t.fields|
    ensures RebuiltOthers(t, f) ==
            (if InArray(t.fields[f].key, t.length) then [] else [Field(Rebuilt(t.fields[f].key), Rebuilt(t.fields[f].value))]) +
            RebuiltOthers(t, f + 1)
    ensures Rebuilt(t.fields[f].key) != Nil && !NanKey(Rebuilt(t.fields[f].key))
  {
    hide InArray;
  }

  lemma {:induction false} OthersRoundTrip(t: Value, f: nat, depth: nat, tail: Bytes)
    requires t.Table? && Proper(t) && f <= |t.fields| && PackOthers(t, f, depth).Packed?
    ensures DecodeOthers(PackOthers(t, f, depth).bytes + (NIL_BYTES + tail)) == Got(RebuiltOthers(t, f), tail)
    decreases t, 1, |t.fields| - f
  {
    hide Decode, PackOf, Rebuilt, RebuiltOthers, InArray, Combine;
    if f == |t.fields| {
      NilRoundTrip(tail);
      NoOthers(t);
      assert [] + (NIL_BYTES + tail) == NIL_BYTES + tail;
    } else {
      OthersRebuilt(t, f);
      if InArray(t.fields[f].key, t.length) {
        OthersRoundTrip(t, f + 1, depth, tail);
        assert [] + RebuiltOthers(t, f + 1) == RebuiltOthers(t, f + 1);
        InArrayPacked(t, f, depth);
      } else {
        OthersPacked(t, f, depth, NIL_BYTES + tail);
        OthersRoundTrip(t, f + 1, depth, tail);
        var k, v := PackOf(t.fields[f].key, depth), PackOf(t.fields[f].value, depth);
        var more := PackOthers(t, f + 1, depth).bytes + (NIL_BYTES + tail);
        RoundTrip(t.fields[f].key, depth, v.bytes + more);
        RoundTrip(t.fields[f].value, depth, more);
        OthersStep(k.bytes + (v.bytes + more), Rebuilt(t.fields[f].key), v.bytes + more, Rebuilt(t.fields[f].value), more,
                   RebuiltOthers(t, f + 1), tail);
      }
    }
  }

  lemma NoOthers(t: Value)
    requires t.Table? && Proper(t)
    ensures RebuiltOthers(t, |t.fields|) == []
  {
  }

  /* ---------- the fields of a rebuilt table ---------- */

  /** The last index is the only one behind which the key is not found. */
  lemma FindIs(fields: seq<Field>, k: Value, f: nat)
    requires f < |fields| && fields[f].key == k && forall g :: f < g < |fields| ==> fields[g].key != k
    ensures FindKey(fields, k) == f
  {
    hide FindKey;
  }

  lemma FindNone(fields: seq<Field>, k: Value)
    requires forall g :: 0 <= g < |fields| ==> fields[g].key != k
    ensures FindKey(fields, k) == -1
  {
    hide FindKey;
  }

  lemma FindKeyInBoth(a: seq<Field>, b: seq<Field>, k: Value)
    ensures FindKey(a + b, k) == if FindKey(b, k) >= 0 then |a| + FindKey(b, k) else FindKey(a, k)
  {
    hide FindKey;
    var g, h := FindKey(b, k), FindKey(a, k);
    forall j | |a| <= j < |a + b| ensures (a + b)[j] == b[j - |a|] { }
    if g >= 0 {
      FindIs(a + b, k, |a| + g);
    } else if h >= 0 {
      FindIs(a + b, k, h);
    } else {
      FindNone(a + b, k);
    }
  }

  lemma FindInBoth(a: seq<Field>, b: seq<Field>, k: Value)
    ensures RawGet(a + b, k) == if FindKey(b, k) >= 0 then RawGet(b, k) else RawGet(a, k)
  {
    hide FindKey;
    FindKeyInBoth(a, b, k);
  }

  lemma SameKey(v: Value, k: Value)
    requires Proper(v) && !k.Table?
    ensures Rebuilt(v) == k <==> v == k
  {
    hide RebuiltItems, RebuiltOthers;
  }

  /** Does `items` give the item under the key `k`, when it is one of those from `i` on? */
  predicate ItemsFrom(t: Value, i: nat, k: Value, items: seq<Field>)
    requires t.Table? && Proper(t)
  {
    var f := FindKey(t.fields, k);
    RawGet(items, k) == if k.Integer? && i <= k.i <= t.length && f >= 0 then Rebuilt(t.fields[f].value) else Nil
  }

  /** The rebuilt items from `i` on have the fields of these items. */
  lemma {:induction false} ItemsGet(t: Value, i: nat, k: Value)
    requires t.Table? && Proper(t) && 1 <= i <= t.length + 1
    ensures ItemsFrom(t, i, k, RebuiltItems(t, i))
    decreases t.length + 1 - i
  {
    hide Rebuilt, RebuiltItems, FindKey, RawGet, SetItem, ItemsFrom, Proper;
    if i > t.length {
      NoItemsLeft(t, k);
    } else {
      ItemsRebuilt(t, i);
      ItemsGet(t, i + 1, k);
      var g := FindKey(RebuiltItems(t, i + 1), k);
      if g >= 0 { ItemKeys(t, i + 1, g); }
      OneMoreItem(t, i, k, RebuiltItems(t, i + 1));
    }
  }

  lemma OneMoreItem(t: Value, i: nat, k: Value, more: seq<Field>)
    requires t.Table? && Proper(t) && 1 <= i <= t.length && ItemsFrom(t, i + 1, k, more)
    requires FindKey(more, k) >= 0 ==> k.Integer? && k.i > i
    ensures var f := FindKey(t.fields, Integer(i));
            ItemsFrom(t, i, k, SetItem(i, if f >= 0 then Rebuilt(t.fields[f].value) else Nil) + more)
  {
    hide Rebuilt, FindKey, RawGet, SetItem;
    var f := FindKey(t.fields, Integer(i));
    var v := if f >= 0 then Rebuilt(t.fields[f].value) else Nil;
    FindInBoth(SetItem(i, v), more, k);
    OneItem(i, v, k);
    if FindKey(more, k) < 0 { GetAbsent(more, k); }
  }

  lemma NoItemsLeft(t: Value, k: Value)
    requires t.Table? && Proper(t)
    ensures RebuiltItems(t, t.length + 1) == [] && ItemsFrom(t, t.length + 1, k, [])
  {
  }

  lemma GetAbsent(fields: seq<Field>, k: Value)
    requires FindKey(fields, k) < 0
    ensures RawGet(fields, k) == Nil
  {
  }

  lemma OneItem(i: nat, v: Value, k: Value)
    requires i <= INT_MAX
    ensures RawGet(SetItem(i, v), k) == if k == Integer(i) then v else Nil
  {
    if !v.Nil? {
      var item := [Field(Integer(i), v)];
      assert item[..0] == [];
      assert FindKey([], k) == -1;
    }
  }

  lemma {:induction false} ItemKeys(t: Value, i: nat, j: nat)
    requires t.Table? && Proper(t) && 1 <= i <= t.length + 1 && j < |RebuiltItems(t, i)|
    ensures var k := RebuiltItems(t, i)[j].key; k.Integer? && i <= k.i <= t.length
    decreases t.length + 1 - i
  {
    ItemsRebuilt(t, i);
    hide Rebuilt, RebuiltItems;
    var f := FindKey(t.fields, Integer(i));
    var item := SetItem(i, if f >= 0 then Rebuilt(t.fields[f].value) else Nil);
    if j >= |item| { ItemKeys(t, i + 1, j - |item|); }
  }

  /** Are the fields `more` those from `f` on that are not in the array part, as far as the
      key `k` can tell? */
  predicate GetsFrom(t: Value, f: nat, k: Value, more: seq<Field>)
    requires t.Table? && Proper(t)
  {
    var g := FindKey(t.fields, k);
    if g >= f && !InArray(k, t.length) then FindKey(more, k) >= 0 && RawGet(more, k) == Rebuilt(t.fields[g].value)
    else FindKey(more, k) == -1
  }

  /** The other fields from `f` on have the values that they had. */
  lemma {:induction false} OthersGet(t: Value, f: nat, k: Value)
    requires t.Table? && Proper(t) && f <= |t.fields| && !k.Table?
    ensures GetsFrom(t, f, k, RebuiltOthers(t, f))
    decreases |t.fields| - f
  {
    if f == |t.fields| {
      NoOthers(t);
    } else {
      hide Rebuilt, RebuiltOthers, InArray, FindKey, RawGet, Proper, GetsFrom;
      FieldProper(t, f);
      OthersRebuilt(t, f);
      OthersGet(t, f + 1, k);
      if InArray(t.fields[f].key, t.length) {
        assert [] + RebuiltOthers(t, f + 1) == RebuiltOthers(t, f + 1);
        NoMoreOther(t, f, k, RebuiltOthers(t, f + 1));
      } else {
        OneMoreOther(t, f, k, RebuiltOthers(t, f + 1));
      }
    }
  }

  lemma NoMoreOther(t: Value, f: nat, k: Value, more: seq<Field>)
    requires t.Table? && Proper(t) && f < |t.fields| && InArray(t.fields[f].key, t.length) && GetsFrom(t, f + 1, k, more)
    ensures GetsFrom(t, f, k, more)
  {
    hide Rebuilt, FindKey, RawGet, Proper, InArray;
    assert FindKey(t.fields, k) == f ==> t.fields[f].key == k;
  }

  lemma FieldProper(t: Value, f: nat)
    requires t.Table? && Proper(t) && f < |t.fields|
    ensures Proper(t.fields[f].key) && Proper(t.fields[f].value) && t.length <= INT_MAX
  {
  }

  lemma OneMoreOther(t: Value, f: nat, k: Value, more: seq<Field>)
    requires t.Table? && Proper(t) && f < |t.fields| && !k.Table? && !InArray(t.fields[f].key, t.length)
    requires Proper(t.fields[f].key) && Proper(t.fields[f].value) && GetsFrom(t, f + 1, k, more)
    ensures GetsFrom(t, f, k, [Field(Rebuilt(t.fields[f].key), Rebuilt(t.fields[f].value))] + more)
  {
    hide Rebuilt, FindKey, RawGet, Proper, InArray;
    var here := t.fields[f];
    var field := Field(Rebuilt(here.key), Rebuilt(here.value));
    SameKey(here.key, k);
    FindInBoth([field], more, k);
    FindFirst(field, more, k);
    var g := FindKey(t.fields, k);
    assert g == f ==> here.key == k;
    assert here.key == k ==> g >= f;
  }

  lemma {:induction false} FindFirst(field: Field, more: seq<Field>, k: Value)
    ensures FindKey([field] + more, k) >= 0 <==> field.key == k || FindKey(more, k) >= 0
    ensures RawGet([field], k) == if field.key == k then field.value else Nil
  {
    assert [field][..0] == [];
    assert FindKey([], k) == -1;
    var all := [field] + more;
    if FindKey(more, k) >= 0 { assert all[FindKey(more, k) + 1].key == k; }
    assert all[0] == field;
    if FindKey(all, k) > 0 { assert more[FindKey(all, k) - 1].key == k; }
  }

  /** A rebuilt table has the same fields as the table: under every key that is not itself
      a table, the value that was there, rebuilt. */
  lemma SameFields(t: Value, k: Value)
    requires t.Table? && Proper(t) && !k.Table?
    ensures Rebuilt(t).Table? && RawGet(Rebuilt(t).fields, k) == RebuiltGet(t, k)
  {
    hide RebuiltItems, RebuiltOthers, InArray, FindKey;
    FindInBoth(RebuiltItems(t, 1), RebuiltOthers(t, 0), k);
    OthersGet(t, 0, k);
    ItemsGet(t, 1, k);
    InArrayIs(k, t.length);
  }

  lemma InArrayIs(k: Value, length: nat)
    ensures InArray(k, length) <==> k.Integer? && 1 <= k.i <= length
  {
  }

  function RebuiltGet(t: Value, k: Value): Value
    requires t.Table? && Proper(t)
  {
    var f := FindKey(t.fields, k);
    if f < 0 then Nil else Rebuilt(t.fields[f].value)
  }

  /* ---------- what can be packed ---------- */

  /** Is a value made of supported values, in at most so many levels of tables? */
  predicate Within(v: Value, levels: int) {
    levels >= 0 &&
    match v
    case Table(length, fields) =>
      (length > 0 || fields != [] ==> levels > 0) &&
      forall f :: 0 <= f < |fields| ==> Within(fields[f].key, levels - 1) && Within(fields[f].value, levels - 1)
    case Unsupported => false
    case _ => true
  }

  /** Packing succeeds exactly for supported values that are not too deep. */
  lemma {:induction false} PackedIff(v: Value, depth: nat)
    requires Proper(v)
    ensures PackOf(v, depth).Packed? <==> Within(v, 32 - depth)
    decreases v, 2, 0
  {
    hide PackOf, Within;
    if v.Table? {
      hide PackItems, PackOthers, TableHead, ItemsWithin, OthersWithin;
      WithinLevels(v, MAX_DEPTH - depth);
      ItemsPackedIff(v, 1, depth + 1);
      OthersPackedIff(v, 0, depth + 1);
      TableMade(v, depth);
      if depth <= MAX_DEPTH { TableParts(v, MAX_DEPTH - depth); }
    } else {
      OtherMade(v, depth);
    }
  }

  lemma TableMade(t: Value, depth: nat)
    requires t.Table? && Proper(t)
    ensures PackOf(t, depth).Packed? <==>
            depth <= MAX_DEPTH && PackItems(t, 1, depth + 1).Packed? && PackOthers(t, 0, depth + 1).Packed?
  {
    hide PackItems, PackOthers, TableHead;
  }

  lemma OtherMade(v: Value, depth: nat)
    requires !v.Table? && Proper(v)
    ensures PackOf(v, depth).Packed? <==> Within(v, 32 - depth)
  {
    hide PackInteger, PackString;
  }

  /** The levels of a table, by its items and its other fields. */
  lemma TableParts(t: Value, levels: nat)
    requires t.Table? && Proper(t)
    ensures Within(t, levels) <==>
            ItemsWithin(t, 1, levels - 1) && OthersWithin(t, 0, levels - 1)
  {
    if Within(t, levels) { PartsOfTable(t, levels, levels - 1); }
    if ItemsWithin(t, 1, levels - 1) && OthersWithin(t, 0, levels - 1) { TableOfParts(t, levels, levels - 1); }
  }

  lemma PartsOfTable(t: Value, levels: nat, inner: int)
    requires t.Table? && Proper(t) && inner == levels - 1 && Within(t, levels)
    ensures ItemsWithin(t, 1, inner) && OthersWithin(t, 0, inner)
  {
    forall g | 0 <= g < |t.fields| ensures Within(t.fields[g].key, inner) && Within(t.fields[g].value, inner) { }
    hide Within, FindKey;
    forall j | 1 <= j <= t.length ensures ItemWithin(t, j, inner) { }
  }

  lemma TableOfParts(t: Value, levels: nat, inner: int)
    requires t.Table? && Proper(t) && inner == levels - 1 && ItemsWithin(t, 1, inner) && OthersWithin(t, 0, inner)
    ensures Within(t, levels)
  {
    forall g | 0 <= g < |t.fields|
      ensures levels > 0 && Within(t.fields[g].key, inner) && Within(t.fields[g].value, inner)
    {
      assert OtherWithin(t, g, inner);
      var k := t.fields[g].key;
      if InArray(k, t.length) {
        assert ItemWithin(t, k.i, inner);
        assert FindKey(t.fields, k) == g;
      }
    }
    if t.length > 0 { assert ItemWithin(t, 1, inner); }
    if t.fields != [] { assert Within(t.fields[0].key, inner); }
  }

  predicate ItemWithin(t: Value, j: int, levels: int)
    requires t.Table? && 1 <= j <= t.length && t.length <= INT_MAX
  {
    var f := FindKey(t.fields, Integer(j));
    levels >= 0 && (f >= 0 ==> Within(t.fields[f].value, levels))
  }

  predicate ItemsWithin(t: Value, i: nat, levels: int)
    requires t.Table? && i >= 1 && t.length <= INT_MAX
  {
    forall j :: i <= j <= t.length ==> ItemWithin(t, j, levels)
  }

  predicate OthersWithin(t: Value, f: nat, levels: int)
    requires t.Table?
  {
    forall g :: f <= g < |t.fields| ==> OtherWithin(t, g, levels)
  }

  predicate OtherWithin(t: Value, g: int, levels: int)
    requires t.Table? && 0 <= g < |t.fields|
  {
    InArray(t.fields[g].key, t.length) || (Within(t.fields[g].key, levels) && Within(t.fields[g].value, levels))
  }

  lemma {:induction false} ItemsPackedIff(t: Value, i: nat, depth: nat)
    requires t.Table? && Proper(t) && 1 <= i <= t.length + 1
    ensures PackItems(t, i, depth).Packed? <==> ItemsWithin(t, i, MAX_DEPTH - depth)
    decreases t, 1, t.length + 1 - i
  {
    hide PackOf, Within, FindKey;
    if i <= t.length {
      ItemsPackedIff(t, i + 1, depth);
      var f := FindKey(t.fields, Integer(i));
      if f >= 0 { PackedIff(t.fields[f].value, depth); WithinLevels(t.fields[f].value, MAX_DEPTH - depth); }
      assert PackItem(t, i, depth).Packed? <==> ItemWithin(t, i, MAX_DEPTH - depth);
    }
  }

  lemma WithinLevels(v: Value, levels: int)
    ensures Within(v, levels) ==> levels >= 0
  {
  }

  lemma {:induction false} OthersPackedIff(t: Value, f: nat, depth: nat)
    requires t.Table? && Proper(t) && f <= |t.fields|
    ensures PackOthers(t, f, depth).Packed? <==> OthersWithin(t, f, MAX_DEPTH - depth)
    decreases t, 1, |t.fields| - f
  {
    hide PackOf, Within, InArray;
    if f < |t.fields| {
      OthersPackedIff(t, f + 1, depth);
      PackedIff(t.fields[f].key, depth);
      PackedIff(t.fields[f].value, depth);
      assert OtherWithin(t, f, MAX_DEPTH - depth) <==>
             InArray(t.fields[f].key, t.length) || (PackOf(t.fields[f].key, depth).Packed? && PackOf(t.fields[f].value, depth).Packed?);
    }
  }
}
