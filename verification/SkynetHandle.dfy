/** The handles of services: a table of slots that doubles when it is full, in which a
    service sits at its handle modulo the size, and a sorted list of names. */
module SkynetHandle {

  const DEFAULT_SLOT_SIZE: nat := 4
  const MAX_SLOT_SIZE: nat := 0x4000_0000
  const HANDLE_MASK: nat := 0xff_ffff
  const HANDLES: nat := 0x100_0000     // HANDLE_MASK + 1

  /** A service with its handle; the high byte of a handle is the number of the node. */
  datatype Context = Context(id: nat, handle: nat)

  datatype Slot = Empty | Full(context: Context)

  /* ---------- where a handle is ---------- */

  /** `x & (n - 1)`, for an `n` that is a power of 2. */
  function Mod(x: nat, n: nat): (r: nat)
    requires n > 0
    ensures r < n
  {
    x % n
  }

  function Two(k: nat): (n: nat)
    ensures n > 0
  {
    if k == 0 then 1 else 2 * Two(k - 1)
  }

  lemma FarMultiple(k: int, n: nat)
    requires k != 0
    ensures k * n >= n || k * n <= 0 - n
  {
    if k >= 1 { assert (k - 1) * n >= 0; } else { assert (-k - 1) * n >= 0; }
  }

  lemma ModIs(x: nat, n: nat, q: int, r: nat)
    requires n > 0 && x == q * n + r && r < n
    ensures Mod(x, n) == r
  {
    var q', r' := x / n, x % n;
    assert x == q' * n + r';
    assert (q - q') * n == r' - r;
    if q != q' { FarMultiple(q - q', n); }
  }

  lemma ModSplit(x: nat, n: nat) returns (q: nat)
    requires n > 0
    ensures x == q * n + Mod(x, n)
  {
    q := x / n;
  }

  /** Is `n` a power of 2 that doubles `k` times until it is the number of handles? */
  predicate DividesInto(n: nat, k: nat) { n * Two(k) == HANDLES }

  /** Only the low bits of a handle count for its place. */
  lemma LowBits(x: nat, high: nat, n: nat, k: nat)
    requires n > 0 && DividesInto(n, k)
    ensures Mod(x + high * HANDLES, n) == Mod(x, n) == Mod(Mod(x, HANDLES), n)
  {
    hide Mod, Two;
    var q := ModSplit(x, n);
    assert high * HANDLES == (high * Two(k)) * n;
    assert x + high * HANDLES == (q + high * Two(k)) * n + Mod(x, n);
    ModIs(x + high * HANDLES, n, q + high * Two(k), Mod(x, n));
    var p := ModSplit(x, HANDLES);
    assert p * HANDLES == (p * Two(k)) * n;
    assert Mod(x, HANDLES) == (q - p * Two(k)) * n + Mod(x, n);
    ModIs(Mod(x, HANDLES), n, q - p * Two(k), Mod(x, n));
  }

  lemma PlaceOf(x: nat, harbor: nat, n: nat, k: nat)
    requires n > 0 && DividesInto(n, k)
    ensures var h := Mod(x, HANDLES); Mod(h, n) == Mod(x, n) && Mod(h + harbor * HANDLES, n) == Mod(h, n)
  {
    hide Mod, DividesInto;
    LowBits(x, 0, n, k);
    LowBits(Mod(x, HANDLES), harbor, n, k);
  }

  /** In a table of twice the size, a handle is in one of two places. */
  lemma Doubled(x: nat, n: nat)
    requires n > 0
    ensures Mod(x, 2 * n) == Mod(x, n) || Mod(x, 2 * n) == Mod(x, n) + n
  {
    hide Mod;
    var q := ModSplit(x, 2 * n);
    var r := Mod(x, 2 * n);
    assert q * (2 * n) == (2 * q) * n;
    if r < n {
      ModIs(x, n, 2 * q, r);
    } else {
      assert (2 * q) * n + n == (2 * q + 1) * n;
      ModIs(x, n, 2 * q + 1, r - n);
    }
  }

  /** Handles that follow each other go through all places. */
  lemma Reaches(first: nat, n: nat, place: nat) returns (i: nat)
    requires place < n
    ensures i < n && Mod(i + first, n) == place
  {
    hide Mod;
    var a := Mod(first, n);
    var q := ModSplit(first, n);
    if place >= a {
      i := place - a;
      ModIs(i + first, n, q, place);
    } else {
      i := place + n - a;
      assert (q + 1) * n == q * n + n;
      ModIs(i + first, n, q + 1, place);
    }
  }

  /* ---------- names ---------- */

  type Text = seq<nat>    // the characters of a name, none of them 0

  datatype Name = Name(name: Text, handle: nat)

  /** `strcmp(a, b) < 0` */
  predicate Less(a: Text, b: Text) {
    if b == [] then false
    else if a == [] then true
    else a[0] < b[0] || (a[0] == b[0] && Less(a[1..], b[1..]))
  }

  lemma {:induction false} LessTrans(a: Text, b: Text, c: Text)
    requires Less(a, b) && Less(b, c)
    ensures Less(a, c)
  {
    if a != [] && a[0] == b[0] == c[0] { LessTrans(a[1..], b[1..], c[1..]); }
  }

  lemma {:induction false} LessTotal(a: Text, b: Text)
    ensures Less(a, b) || Less(b, a) || a == b
    ensures !(Less(a, b) && Less(b, a)) && !Less(a, a)
  {
    if a != [] {
      LessSelf(a);
      if b != [] {
        LessTotal(a[1..], b[1..]);
        if a[0] == b[0] && a[1..] == b[1..] { assert a == [a[0]] + a[1..] == b; }
      }
    }
  }

  lemma {:induction false} LessSelf(a: Text)
    ensures !Less(a, a)
  {
    if a != [] { LessSelf(a[1..]); }
  }

  predicate Sorted(names: seq<Name>) {
    forall i, j :: 0 <= i < j < |names| ==> Less(names[i].name, names[j].name)
  }

  /** The handle of a name; 0 when there is none. */
  function HandleOf(names: seq<Name>, name: Text): nat {
    if names == [] then 0
    else if names[0].name == name then names[0].handle
    else HandleOf(names[1..], name)
  }

  predicate HasName(names: seq<Name>, name: Text) { exists i :: 0 <= i < |names| && names[i].name == name }

  lemma {:induction false} HandleAt(names: seq<Name>, i: nat)
    requires Sorted(names) && i < |names|
    ensures HandleOf(names, names[i].name) == names[i].handle
  {
    if i > 0 {
      LessSelf(names[i].name);
      assert names[0].name != names[i].name;
      HandleAt(names[1..], i - 1);
    }
  }

  lemma {:induction false} HandleNone(names: seq<Name>, name: Text)
    requires !HasName(names, name)
    ensures HandleOf(names, name) == 0
  {
    if names != [] {
      assert names[0].name != name;
      forall i | 0 <= i < |names[1..]| ensures names[1..][i].name != name { assert names[i + 1].name != name; }
      HandleNone(names[1..], name);
    }
  }

  lemma {:induction false} HandleIn(a: seq<Name>, b: seq<Name>, name: Text)
    ensures HandleOf(a + b, name) == if HasName(a, name) then HandleOf(a, name) else HandleOf(b, name)
    decreases |a|
  {
    if a == [] {
      assert a + b == b;
    } else {
      assert (a + b)[1..] == a[1..] + b;
      if a[0].name != name {
        HandleIn(a[1..], b, name);
        if HasName(a, name) {
          var i :| 0 <= i < |a| && a[i].name == name;
          assert a[1..][i - 1].name == name;
        } else {
          assert forall i :: 0 <= i < |a[1..]| ==> a[1..][i] == a[i + 1];
        }
      }
    }
  }

  function Inserted(names: seq<Name>, at: nat, n: Name): seq<Name>
    requires at <= |names|
  {
    names[..at] + [n] + names[at..]
  }

  /** Is `at` where a name belongs? */
  predicate Place(names: seq<Name>, at: nat, name: Text) {
    at <= |names| &&
    (forall i :: 0 <= i < at ==> Less(names[i].name, name)) &&
    (forall i :: at <= i < |names| ==> Less(name, names[i].name))
  }

  lemma InsertedSorted(names: seq<Name>, at: nat, n: Name)
    requires Sorted(names) && Place(names, at, n.name)
    ensures Sorted(Inserted(names, at, n)) && !HasName(names, n.name)
  {
    hide Less;
    LessSelf(n.name);
    var r := Inserted(names, at, n);
    forall i, j | 0 <= i < j < |r| ensures Less(r[i].name, r[j].name) {
      assert r[i] == if i < at then names[i] else if i == at then n else names[i - 1];
      assert r[j] == if j < at then names[j] else if j == at then n else names[j - 1];
    }
  }

  /** A new name is found, and the others are found as before. */
  lemma InsertedHandles(names: seq<Name>, at: nat, n: Name, name: Text)
    requires Sorted(names) && Place(names, at, n.name)
    ensures HandleOf(Inserted(names, at, n), name) == if name == n.name then n.handle else HandleOf(names, name)
  {
    InsertedSorted(names, at, n);
    hide HandleOf, Sorted, Less;
    var a, b := names[..at], names[at..];
    assert names == a + b && Inserted(names, at, n) == a + ([n] + b);
    HandleIn(a, b, name);
    HandleIn(a, [n] + b, name);
    HandleIn([n], b, name);
    OneName(n, name);
    assert forall i :: 0 <= i < |a| ==> a[i] == names[i];
  }

  lemma InsertedNames(names: seq<Name>, at: nat, n: Name, name: Text)
    requires at <= |names|
    ensures HasName(Inserted(names, at, n), name) <==> name == n.name || HasName(names, name)
  {
    var r := Inserted(names, at, n);
    assert r[at] == n;
    if HasName(names, name) {
      var i :| 0 <= i < |names| && names[i].name == name;
      assert r[if i < at then i else i + 1] == names[i];
    }
    if HasName(r, name) {
      var i :| 0 <= i < |r| && r[i].name == name;
      assert i != at ==> r[i] == names[if i < at then i else i - 1];
    }
  }

  lemma OneName(n: Name, name: Text)
    ensures HandleOf([n], name) == (if n.name == name then n.handle else 0) && (HasName([n], name) <==> n.name == name)
  {
    assert [n][1..] == [] && [n][0].name == n.name;
  }

  /** The names of other services. */
  function Without(names: seq<Name>, handle: nat): seq<Name> {
    if names == [] then []
    else
      var last := names[|names| - 1];
      Without(names[..|names| - 1], handle) + if last.handle == handle then [] else [last]
  }

  lemma {:induction false} WithoutSorted(names: seq<Name>, handle: nat)
    requires Sorted(names)
    ensures Sorted(Without(names, handle)) && |Without(names, handle)| <= |names|
    ensures forall n :: n in Without(names, handle) ==> n in names
  {
    hide Less;
    if names != [] {
      var init, last := names[..|names| - 1], names[|names| - 1];
      WithoutSorted(init, handle);
      forall n | n in Without(init, handle) ensures Less(n.name, last.name) { assert n in init; }
    }
  }

  /** The names of a service are lost, all others stay. */
  lemma {:induction false} WithoutHandles(names: seq<Name>, handle: nat, name: Text)
    requires Sorted(names)
    ensures HandleOf(Without(names, handle), name) ==
            if HandleOf(names, name) == handle then 0 else HandleOf(names, name)
  {
    if names != [] {
      hide Less;
      var n := |names| - 1;
      var init, last := names[..n], names[n];
      assert names == init + [last];
      WithoutHandles(init, handle, name);
      WithoutSorted(init, handle);
      HandleIn(init, [last], name);
      HandleIn(Without(init, handle), [last], name);
      OneName(last, name);
      assert Without(init, handle) + [] == Without(init, handle);
      LastName(names, name);
      if !HasName(Without(init, handle), name) { HandleNone(Without(init, handle), name); }
      if !HasName(init, name) {
        HandleNone(init, name);
        StillNone(init, handle, name);
      }
    }
  }

  lemma {:induction false} WithoutNames(names: seq<Name>, handle: nat, name: Text)
    requires Sorted(names)
    ensures HasName(Without(names, handle), name) <==> HasName(names, name) && HandleOf(names, name) != handle
  {
    if names != [] {
      hide Less, HandleOf, Without;
      var n := |names| - 1;
      var init, last := names[..n], names[n];
      assert names == init + [last];
      WithoutNames(init, handle, name);
      WithoutSnoc(init, last, handle);
      HandleIn(init, [last], name);
      OneName(last, name);
      LastName(names, name);
      HasIn(init, [last], name);
      HasIn(Without(init, handle), [last], name);
      assert Without(init, handle) + [] == Without(init, handle);
    } else {
      WithoutNone(handle);
    }
  }

  lemma WithoutSnoc(init: seq<Name>, last: Name, handle: nat)
    ensures Without(init + [last], handle) == Without(init, handle) + if last.handle == handle then [] else [last]
  {
    assert (init + [last])[..|init|] == init;
  }

  lemma HasIn(a: seq<Name>, b: seq<Name>, name: Text)
    ensures HasName(a + b, name) <==> HasName(a, name) || HasName(b, name)
  {
    if HasName(a, name) {
      var i :| 0 <= i < |a| && a[i].name == name;
      assert (a + b)[i].name == name;
    }
    if HasName(b, name) {
      var i :| 0 <= i < |b| && b[i].name == name;
      assert (a + b)[|a| + i].name == name;
    }
    if HasName(a + b, name) {
      var i :| 0 <= i < |a + b| && (a + b)[i].name == name;
      assert if i < |a| then a[i].name == name else b[i - |a|].name == name;
    }
  }

  /** The last name of a sorted list is not also in front of it. */
  lemma LastName(names: seq<Name>, name: Text)
    requires Sorted(names) && names != []
    ensures names[|names| - 1].name == name ==> !HasName(names[..|names| - 1], name)
  {
    hide Less;
    LessSelf(name);
  }

  lemma StillNone(names: seq<Name>, handle: nat, name: Text)
    requires Sorted(names) && !HasName(names, name)
    ensures !HasName(Without(names, handle), name)
  {
    WithoutSorted(names, handle);
    var left := Without(names, handle);
    forall i | 0 <= i < |left| ensures left[i].name != name { assert left[i] in names; }
  }

  /* ---------- the slots, as a value ---------- */

  /** Every service sits at its handle modulo the size, and its handle was given out. */
  ghost predicate Placed(slots: seq<Slot>, issued: set<nat>) {
    |slots| > 0 &&
    forall i :: 0 <= i < |slots| && slots[i].Full? ==>
      Mod(slots[i].context.handle, |slots|) == i && slots[i].context.handle in issued
  }

  /** The service that has a handle. */
  function Holder(slots: seq<Slot>, handle: nat): Slot
    requires |slots| > 0
  {
    var s := slots[Mod(handle, |slots|)];
    if s.Full? && s.context.handle == handle then s else Empty
  }

  lemma PutIn(slots: seq<Slot>, issued: set<nat>, c: Context)
    requires Placed(slots, issued) && slots[Mod(c.handle, |slots|)].Empty?
    ensures var slots' := slots[Mod(c.handle, |slots|) := Full(c)];
            Placed(slots', issued + {c.handle}) &&
            forall h :: Holder(slots', h) == if h == c.handle then Full(c) else Holder(slots, h)
    ensures Holder(slots, c.handle) == Empty
  {
    hide Mod;
  }

  lemma TakeOut(slots: seq<Slot>, issued: set<nat>, handle: nat)
    requires Placed(slots, issued) && Holder(slots, handle).Full?
    ensures var slots' := slots[Mod(handle, |slots|) := Empty];
            Placed(slots', issued) && forall h :: Holder(slots', h) == if h == handle then Empty else Holder(slots, h)
  {
    hide Mod;
  }

  /** The slot of the small table that a slot of the large one takes its service from. */
  function Back(i: nat, n: nat): nat
    requires i < 2 * n
  {
    if i < n then i else i - n
  }

  /** The table of twice the size, with the services from the first `k` slots. */
  ghost predicate Copied(slots: seq<Slot>, slots': seq<Slot>, k: nat) {
    var n := |slots|;
    && |slots'| == 2 * n && k <= n
    && (forall i :: 0 <= i < 2 * n && slots'[i].Full? ==>
          Back(i, n) < k && slots'[i] == slots[Back(i, n)] && Mod(slots'[i].context.handle, 2 * n) == i)
    && (forall i :: 0 <= i < k && slots[i].Full? ==> slots'[Mod(slots[i].context.handle, 2 * n)] == slots[i])
  }

  /** The place of the next service is free: the source asserts it. */
  lemma CopyOne(slots: seq<Slot>, issued: set<nat>, slots': seq<Slot>, k: nat)
    requires Placed(slots, issued) && Copied(slots, slots', k) && k < |slots| && slots[k].Full?
    ensures var hash := Mod(slots[k].context.handle, |slots'|);
            slots'[hash] == Empty && Copied(slots, slots'[hash := slots[k]], k + 1)
  {
    hide Mod;
    Doubled(slots[k].context.handle, |slots|);
  }

  lemma AllCopied(slots: seq<Slot>, issued: set<nat>, slots': seq<Slot>)
    requires Placed(slots, issued) && Copied(slots, slots', |slots|)
    ensures Placed(slots', issued) && forall h :: Holder(slots', h) == Holder(slots, h)
  {
    hide Mod;
    var n := |slots|;
    forall i | 0 <= i < 2 * n && slots'[i].Full?
      ensures slots'[i].context.handle in issued
    {
      assert slots'[i] == slots[Back(i, n)];
    }
    forall h ensures Holder(slots', h) == Holder(slots, h) {
      Doubled(h, n);
    }
  }

  /** A service is in one of two places, so the other one is free. */
  lemma RoomAfter(slots: seq<Slot>, slots': seq<Slot>) returns (i: nat)
    requires |slots| > 0 && Copied(slots, slots', |slots|)
    ensures i < |slots'| && slots'[i].Empty?
  {
    i := if slots'[0].Empty? then 0 else |slots|;
  }

  /* ---------- where the next handle comes from ---------- */

  /** How many places the search passes from `first` on until it finds a free one. */
  function Passed(slots: seq<Slot>, first: nat, i: nat): (r: nat)
    requires i <= |slots|
    ensures i <= r <= |slots|
    decreases |slots| - i
  {
    if i == |slots| || !TakenAt(slots, first, i) then i else Passed(slots, first, i + 1)
  }

  predicate TakenAt(slots: seq<Slot>, first: nat, i: nat)
    requires |slots| > 0
  {
    slots[Mod(i + first, |slots|)].Full?
  }

  /** Up to there every place is taken, and there it is free. */
  lemma {:induction false} PassedIs(slots: seq<Slot>, first: nat, i: nat)
    requires i <= |slots|
    ensures forall j :: i <= j < Passed(slots, first, i) ==> TakenAt(slots, first, j)
    ensures Passed(slots, first, i) < |slots| ==> !TakenAt(slots, first, Passed(slots, first, i))
    decreases |slots| - i
  {
    hide TakenAt;
    if i < |slots| { PassedIs(slots, first, i + 1); }
  }

  predicate HasFree(slots: seq<Slot>) { exists i :: 0 <= i < |slots| && slots[i].Empty? }

  /** The table of twice the size. */
  function Grown(slots: seq<Slot>): (r: seq<Slot>)
    ensures |r| == 2 * |slots|
  {
    seq(2 * |slots|, j requires 0 <= j < 2 * |slots| =>
      var s := slots[Back(j, |slots|)];
      if s.Full? && Mod(s.context.handle, 2 * |slots|) == j then s else Empty)
  }

  /** The table in which the next handle is searched. */
  function Room(slots: seq<Slot>): seq<Slot> { if HasFree(slots) then slots else Grown(slots) }

  /** Where the search stops, counted on from the index without a limit. */
  function NextStop(slots: seq<Slot>, index: nat): nat { Passed(Room(slots), index, 0) + index }

  /** When every place is passed, every slot is full. */
  lemma AllPassed(slots: seq<Slot>, first: nat)
    requires Passed(slots, first, 0) == |slots|
    ensures !HasFree(slots)
  {
    hide Mod, Passed;
    PassedIs(slots, first, 0);
    forall j | 0 <= j < |slots| ensures slots[j].Full? {
      var i := Reaches(first, |slots|, j);
      assert TakenAt(slots, first, i);
    }
  }

  lemma CopiedIsGrown(slots: seq<Slot>, slots': seq<Slot>)
    requires |slots| > 0 && Copied(slots, slots', |slots|)
    ensures slots' == Grown(slots)
  {
    hide Mod;
    forall j | 0 <= j < 2 * |slots| ensures slots'[j] == Grown(slots)[j] {
      var s := slots[Back(j, |slots|)];
      if s.Full? && Mod(s.context.handle, 2 * |slots|) == j { assert slots'[j] == s; }
    }
  }

  /* ---------- the table ---------- */

  class HandleStorage {
    const harbor: nat           // number of this node
    var handleIndex: nat        // where the search for a free handle starts
    var slotSize: nat
    var slot: array<Slot>
    var nameCap: nat
    var nameCount: nat
    var name: array<Name>
    ghost var rooms: nat        // how often the table can still double
    ghost var issued: set<nat>  // all handles that were ever given out
    ghost var wrapped: bool     // did the search pass the last handle?
    ghost var retired: set<nat> // all handles that were retired

    ghost predicate SlotsOk() reads this, slot {
      slotSize == slot.Length > 0 && DividesInto(slotSize, rooms) && Placed(slot[..], issued)
    }

    ghost predicate IssuedOk() reads this {
      && 0 < handleIndex <= HANDLES && Issued(harbor, handleIndex, issued, wrapped)
      && (issued == {} ==> handleIndex == 1 && !wrapped)
    }

    ghost predicate NamesOk() reads this, name {
      nameCap == name.Length >= 2 && nameCount <= nameCap && Sorted(name[..nameCount])
    }

    /** A retired handle does not resolve, as long as no handle is given out again. */
    ghost predicate RetiredOk()
      requires slot.Length > 0
      reads this, slot
    {
      retired <= issued && (!wrapped ==> forall h :: h in retired ==> Holder(slot[..], h) == Empty)
    }

    ghost predicate Valid() reads this, slot, name { SlotsOk() && IssuedOk() && NamesOk() && RetiredOk() }

    /** The service that a handle resolves to. */
    ghost function Resolve(handle: nat): Slot
      requires Valid()
      reads this, slot, name
    {
      Holder(slot[..], handle)
    }

    ghost function Names(): seq<Name>
      requires Valid()
      reads this, slot, name
    {
      name[..nameCount]
    }

    constructor (harbor: nat)
      ensures Valid() && fresh(slot) && fresh(name) && this.harbor == harbor % 256
      ensures (forall h :: Resolve(h) == Empty) && Names() == [] && issued == {} && retired == {} && !wrapped
      ensures handleIndex == 1 && slot[..] == [Empty, Empty, Empty, Empty]
    {
      this.harbor := harbor % 256;
      slotSize := DEFAULT_SLOT_SIZE;
      slot := new Slot[DEFAULT_SLOT_SIZE](_ => Empty);
      handleIndex := 1;
      nameCap, nameCount := 2, 0;
      name := new Name[2](_ => Name([], 0));
      rooms, issued, wrapped, retired := 22, {}, false, {};
      new;
      TwoTwentyTwo();
      assert slot[..] == [Empty, Empty, Empty, Empty];
    }

    /** The search for a free slot, from the handle index on. */
    method FindFree(id: nat) returns (handle: nat, found: bool)
      requires Valid()
      modifies this`handleIndex, this`issued, this`wrapped, slot
      ensures Valid() && (found <==> HasFree(old(slot[..])))
      ensures found ==> Given(id, handle, old(slot[..]), old(handleIndex), old(issued), old(wrapped))
      ensures !found ==> unchanged(this) && slot[..] == old(slot[..])
    {
      hide Mod, DividesInto, Placed, Holder, Issued, Sorted, Passed, HasFree;
      ghost var slots := slot[..];
      for i := 0 to slotSize
        invariant unchanged(this) && slot[..] == slots && Valid()
        invariant Passed(slots, handleIndex, 0) == Passed(slots, handleIndex, i)
      {
        handle := Mod(i + handleIndex, HANDLES);
        PlaceOf(i + handleIndex, harbor, slotSize, rooms);
        var hash := Mod(handle, slotSize);
        PassedStep(slots, handleIndex, i);
        if slot[hash].Empty? {
          FreeAt(slots, hash);
          NextIssued(harbor, handleIndex, issued, wrapped, i + handleIndex);
          PutIn(slots, issued, Context(id, handle + harbor * HANDLES));
          ghost var next := slots[hash := Full(Context(id, handle + harbor * HANDLES))];
          RetiredStays(slots, retired, issued, wrapped, Context(id, handle + harbor * HANDLES), i + handleIndex >= HANDLES);
          wrapped := wrapped || i + handleIndex >= HANDLES;
          handleIndex := handle + 1;
          handle := handle + harbor * HANDLES;
          issued := issued + {handle};
          slot[hash] := Full(Context(id, handle));
          assert slot[..] == next;
          return handle, true;
        }
      }
      PassedEnd(slots, handleIndex);
      AllPassed(slots, handleIndex);
      found := false;
      handle := 0;
    }

    /** What giving a handle out does to the table `slots`, which has a free slot. */
    ghost predicate Given(id: nat, handle: nat, slots: seq<Slot>, index: nat, before: set<nat>, wrappedBefore: bool)
      requires slot.Length > 0
      reads this, slot
    {
      var stop := Passed(slots, index, 0) + index;
      && |slots| > 0 && handle == Mod(stop, HANDLES) + harbor * HANDLES && handleIndex == Mod(stop, HANDLES) + 1
      && slot[..] == slots[Mod(handle, |slots|) := Full(Context(id, handle))]
      && issued == before + {handle} && (wrapped <==> wrappedBefore || stop >= HANDLES)
      && Holder(slots, handle) == Empty && Holder(slot[..], handle) == Full(Context(id, handle))
      && (forall h :: h != handle ==> Holder(slot[..], h) == Holder(slots, h))
      && (!wrapped ==> handle !in before)
    }

    /** All services move into a table of twice the size; no two of them to the same slot. */
    method Expand()
      requires Valid() && slotSize * 2 - 1 <= HANDLE_MASK && forall i :: 0 <= i < slotSize ==> slot[i].Full?
      modifies this`slot, this`slotSize, this`rooms
      ensures Valid() && fresh(slot) && slotSize == 2 * old(slotSize) && slot[..] == Grown(old(slot[..]))
      ensures forall h :: Resolve(h) == old(Resolve(h))
      ensures HasFree(slot[..])
    {
      hide Mod, DividesInto, Holder, Issued, Sorted, Copied, Grown;
      var newSlot := new Slot[slotSize * 2](_ => Empty);
      NoneCopied(slot[..], newSlot[..]);
      for i := 0 to slotSize
        invariant unchanged(this) && slot[..] == old(slot[..])
        invariant Copied(slot[..], newSlot[..], i)
        modifies newSlot
      {
        CopyOne(slot[..], issued, newSlot[..], i);
        var hash := Mod(slot[i].context.handle, slotSize * 2);
        ghost var next := newSlot[..][hash := slot[i]];
        assert newSlot[hash] == Empty;
        newSlot[hash] := slot[i];
        assert newSlot[..] == next;
      }
      AllCopied(slot[..], issued, newSlot[..]);
      ghost var free := RoomAfter(slot[..], newSlot[..]);
      CopiedIsGrown(slot[..], newSlot[..]);
      FreeAt(newSlot[..], free);
      DoubledSize(slotSize, rooms);
      slot := newSlot;
      slotSize := slotSize * 2;
      rooms := rooms - 1;
    }

    /** `skynet_handle_register`: the service gets a handle that no service has. The search
        stops at the first free place from the index on, in a table of twice the size when
        this one is full; before it passes the last handle, no service ever had the handle. */
    method Register(id: nat) returns (handle: nat)
      requires Valid() && (slotSize * 2 - 1 <= HANDLE_MASK || HasFree(slot[..]))
      modifies this, slot
      ensures Valid() && (slot == old(slot) || fresh(slot)) && name == old(name) && Names() == old(Names())
      ensures retired == old(retired)
      ensures Given(id, handle, Room(old(slot[..])), old(handleIndex), old(issued), old(wrapped))
      ensures old(Resolve(handle)) == Empty && Resolve(handle) == Full(Context(id, handle))
      ensures forall h :: h != handle ==> Resolve(h) == old(Resolve(h))
      ensures !old(wrapped) && old(issued) != {} ==>
        (NextStop(old(slot[..]), old(handleIndex)) < HANDLES <==> forall h :: h in old(issued) ==> h < handle)
      ensures wrapped <==> old(wrapped) || exists h :: h in old(issued) && handle <= h
    {
      hide Mod, Placed, Holder, Issued, Sorted, DividesInto, Passed, HasFree, Grown;
      var found;
      ghost var expanded := false;
      ghost var slots := slot[..];
      if issued == {} { FirstStop(slots, issued); }
      while true
        invariant Valid() && (slot == old(slot) || fresh(slot)) && name == old(name) && Names() == old(Names())
        invariant issued == old(issued) && wrapped == old(wrapped) && retired == old(retired) && handleIndex == old(handleIndex)
        invariant forall h :: Resolve(h) == old(Resolve(h))
        invariant slotSize * 2 - 1 <= HANDLE_MASK || HasFree(slot[..])
        invariant if expanded then HasFree(slot[..]) && !HasFree(slots) && slot[..] == Grown(slots) else slot[..] == slots
        decreases !expanded
      {
        ghost var table := slot[..];
        ghost var doublings := rooms;
        handle, found := FindFree(id);
        if found {
          StopBound(table, old(handleIndex), doublings);
          NewestIff(harbor, old(handleIndex), old(issued), old(wrapped), NextStop(slots, old(handleIndex)));
          return;
        }
        assert forall h :: Resolve(h) == old(Resolve(h));
        NoneFree(slot[..]);
        Expand();
        expanded := true;
      }
    }

    /** `skynet_handle_grab`: the service of a handle, if it is still there. */
    method Grab(handle: nat) returns (result: Slot)
      requires Valid()
      ensures result == Resolve(handle)
    {
      var hash := Mod(handle, slotSize);
      result := slot[hash];
      if result.Empty? || result.context.handle != handle { result := Empty; }
    }

    /** `skynet_handle_retire`: the handle is free, and its names are gone. */
    method Retire(handle: nat) returns (ret: bool)
      requires Valid()
      modifies this`nameCount, this`retired, slot, name
      ensures Valid() && (ret <==> old(Resolve(handle)).Full?) && retired == old(retired) + if ret then {handle} else {}
      ensures slot[..] == if ret then old(slot[..])[Mod(handle, slotSize) := Empty] else old(slot[..])
      ensures forall h :: Resolve(h) == if h == handle then Empty else old(Resolve(h))
      ensures Names() == if ret then Without(old(Names()), handle) else old(Names())
    {
      hide Mod, Placed, Issued, Sorted, DividesInto, Without;
      var hash := Mod(handle, slotSize);
      if slot[hash].Empty? || slot[hash].context.handle != handle { return false; }
      TakeOut(slot[..], issued, handle);
      ghost var next := slot[..][hash := Empty];
      WasIssued(slot[..], issued, handle);
      slot[hash] := Empty;
      assert slot[..] == next;
      retired := retired + {handle};
      RemoveNames(handle);
      ret := true;
    }

    /** The names that are left move to the front. */
    method RemoveNames(handle: nat)
      requires NamesOk()
      modifies this`nameCount, name
      ensures NamesOk() && name[..nameCount] == Without(old(name[..nameCount]), handle)
    {
      WithoutSorted(name[..nameCount], handle);
      nameCount := Compact(name, nameCount, handle);
    }

    static method Compact(a: array<Name>, n: nat, handle: nat) returns (j: nat)
      requires n <= a.Length
      modifies a
      ensures j <= n && a[..j] == Without(old(a[..n]), handle)
    {
      hide Without;
      ghost var was := a[..n];
      WithoutNone(handle);
      j := 0;
      for i := 0 to n
        invariant j <= i && a[..j] == Without(was[..i], handle)
        invariant forall k :: i <= k < n ==> a[k] == was[k]
      {
        WithoutNext(was, i, handle);
        if a[i].handle != handle {
          if i != j { a[j] := a[i]; }
          assert a[..j + 1] == a[..j] + [was[i]];
          j := j + 1;
        }
      }
      assert was[..n] == was;
    }

    /** `skynet_handle_findname` */
    method FindName(target: Text) returns (handle: nat)
      requires Valid()
      ensures handle == HandleOf(Names(), target)
    {
      hide Less;
      ghost var names := Names();
      var begin, end: int := 0, nameCount - 1;
      while begin <= end
        invariant 0 <= begin <= end + 1 <= nameCount
        invariant forall i :: 0 <= i < begin ==> Less(names[i].name, target)
        invariant forall i :: end < i < nameCount ==> Less(target, names[i].name)
      {
        var mid := (begin + end) / 2;
        assert name[mid] == names[mid];
        if name[mid].name == target {
          HandleAt(names, mid);
          return name[mid].handle;
        }
        SortedAround(names, mid, target);
        if Less(name[mid].name, target) { begin := mid + 1; } else { end := mid - 1; }
      }
      PlaceMeansNew(names, begin, target);
      HandleNone(names, target);
      handle := 0;
    }

    /** `_insert_name`: a name that is taken stays with its service. */
    method InsertName(target: Text, handle: nat) returns (inserted: bool)
      requires Valid() && (nameCount < nameCap || nameCap * 2 <= MAX_SLOT_SIZE)
      modifies this`name, this`nameCap, this`nameCount, name
      ensures Valid() && (name == old(name) || fresh(name)) && (inserted <==> !HasName(old(Names()), target))
      ensures !inserted ==> Names() == old(Names())
      ensures inserted ==> forall other :: HandleOf(Names(), other) == if other == target then handle else HandleOf(old(Names()), other)
      ensures forall other :: HasName(Names(), other) <==> other == target || HasName(old(Names()), other)
      ensures forall h :: Resolve(h) == old(Resolve(h))
    {
      hide Less, Placed, Holder, Issued, DividesInto, Mod;
      ghost var names := Names();
      var begin, end: int := 0, nameCount - 1;
      while begin <= end
        modifies {}
        invariant 0 <= begin <= end + 1 <= nameCount
        invariant forall i :: 0 <= i < begin ==> Less(names[i].name, target)
        invariant forall i :: end < i < nameCount ==> Less(target, names[i].name)
      {
        var mid := (begin + end) / 2;
        assert name[mid] == names[mid];
        if name[mid].name == target { return false; }
        SortedAround(names, mid, target);
        if Less(name[mid].name, target) { begin := mid + 1; } else { end := mid - 1; }
      }
      PlaceMeansNew(names, begin, target);
      InsertedSorted(names, begin, Name(target, handle));
      forall other
        ensures HandleOf(Inserted(names, begin, Name(target, handle)), other) ==
                if other == target then handle else HandleOf(names, other)
        ensures HasName(Inserted(names, begin, Name(target, handle)), other) <==> other == target || HasName(names, other)
      {
        InsertedHandles(names, begin, Name(target, handle), other);
        InsertedNames(names, begin, Name(target, handle), other);
      }
      assert name[..nameCount] == names;
      InsertNameBefore(Name(target, handle), begin);
      assert name[..nameCount] == Inserted(names, begin, Name(target, handle));
      assert NamesOk();
      assert slot[..] == old(slot[..]);
      assert SlotsOk();
      assert IssuedOk();
      inserted := true;
    }

    /** `_insert_name_before`: a full array moves into one of twice the size. */
    method InsertNameBefore(n: Name, before: nat)
      requires nameCap == name.Length >= 2 && nameCount <= nameCap && before <= nameCount
      requires nameCount < nameCap || nameCap * 2 <= MAX_SLOT_SIZE
      modifies this`name, this`nameCap, this`nameCount, name
      ensures nameCap == name.Length >= 2 && nameCount == old(nameCount) + 1 <= nameCap
      ensures name[..nameCount] == Inserted(old(name[..nameCount]), before, n) && (name == old(name) || fresh(name))
    {
      ghost var was := name[..nameCount];
      if nameCount >= nameCap { GrowNames(before); } else { MakeGap(before); }
      name[before] := n;
      nameCount := nameCount + 1;
      InsertedIs(was, before, n, name[..nameCount]);
    }

    /** The names from `before` on move one place up. */
    method MakeGap(before: nat)
      requires before <= nameCount < name.Length
      modifies name
      ensures forall k :: 0 <= k < before ==> name[k] == old(name[k])
      ensures forall k :: before <= k < nameCount ==> name[k + 1] == old(name[k])
    {
      var i := nameCount;
      while i > before
        invariant before <= i <= nameCount
        invariant forall k :: 0 <= k < i ==> name[k] == old(name[k])
        invariant forall k :: i <= k < nameCount ==> name[k + 1] == old(name[k])
      {
        name[i] := name[i - 1];
        i := i - 1;
      }
    }

    /** An array of twice the size, with a gap for one name. */
    method GrowNames(before: nat)
      requires nameCount == nameCap == name.Length >= 2 && before <= nameCount
      modifies this`name, this`nameCap
      ensures nameCap == name.Length == 2 * old(nameCap) && fresh(name)
      ensures forall k :: 0 <= k < before ==> name[k] == old(name[..])[k]
      ensures forall k :: before <= k < nameCount ==> name[k + 1] == old(name[..])[k]
    {
      var blank := name[0];
      nameCap := nameCap * 2;
      var bigger := new Name[nameCap](_ => blank);
      for i := 0 to before
        invariant forall k :: 0 <= k < i ==> bigger[k] == name[k]
        modifies bigger
      {
        bigger[i] := name[i];
      }
      for i := before to nameCount
        invariant forall k :: 0 <= k < before ==> bigger[k] == name[k]
        invariant forall k :: before <= k < i ==> bigger[k + 1] == name[k]
        modifies bigger
      {
        bigger[i + 1] := name[i];
      }
      name := bigger;
    }
  }

  lemma InsertedIs(was: seq<Name>, before: nat, n: Name, now: seq<Name>)
    requires before <= |was| && |now| == |was| + 1 && now[before] == n
    requires (forall k :: 0 <= k < before ==> now[k] == was[k]) && forall k :: before <= k < |was| ==> now[k + 1] == was[k]
    ensures now == Inserted(was, before, n)
  {
    var r := Inserted(was, before, n);
    forall k | 0 <= k < |now| ensures now[k] == r[k] {
      if k > before { assert now[(k - 1) + 1] == was[k - 1]; }
    }
  }

  lemma WithoutNone(handle: nat)
    ensures Without([], handle) == []
  {
  }

  lemma WithoutNext(names: seq<Name>, i: nat, handle: nat)
    requires i < |names|
    ensures Without(names[..i + 1], handle) ==
            if names[i].handle == handle then Without(names[..i], handle) else Without(names[..i], handle) + [names[i]]
  {
    assert names[..i + 1][..i] == names[..i];
    assert Without(names[..i], handle) + [] == Without(names[..i], handle);
  }

  /** What one comparison of a binary search tells about the other names. */
  lemma SortedAround(names: seq<Name>, mid: nat, target: Text)
    requires Sorted(names) && mid < |names| && names[mid].name != target
    ensures Less(names[mid].name, target) ==> forall i :: 0 <= i <= mid ==> Less(names[i].name, target)
    ensures !Less(names[mid].name, target) ==> forall i :: mid <= i < |names| ==> Less(target, names[i].name)
  {
    hide Less;
    LessTotal(names[mid].name, target);
    if Less(names[mid].name, target) {
      forall i | 0 <= i < mid ensures Less(names[i].name, target) { LessTrans(names[i].name, names[mid].name, target); }
    } else {
      forall i | mid < i < |names| ensures Less(target, names[i].name) { LessTrans(target, names[mid].name, names[i].name); }
    }
  }

  lemma PlaceMeansNew(names: seq<Name>, at: nat, target: Text)
    requires Place(names, at, target)
    ensures !HasName(names, target)
  {
    hide Less;
    LessSelf(target);
  }

  lemma NoneCopied(slots: seq<Slot>, slots': seq<Slot>)
    requires |slots'| == 2 * |slots| && forall i :: 0 <= i < |slots'| ==> slots'[i] == Empty
    ensures Copied(slots, slots', 0)
  {
  }

  lemma DoubledSize(n: nat, k: nat)
    requires DividesInto(n, k) && n * 2 - 1 <= HANDLE_MASK
    ensures k > 0 && DividesInto(n * 2, k - 1)
  {
    assert Two(0) == 1 && n * Two(0) == n;
    assert n * (2 * Two(k - 1)) == n * 2 * Two(k - 1);
  }

  /** The handles that were given out belong to this node, and the last one is right in
      front of the index. While the search did not pass the last handle, they are all in
      front of the index, and the reserved handle 0 is not among them. */
  ghost predicate Issued(harbor: nat, index: nat, issued: set<nat>, wrapped: bool) {
    && (forall h :: h in issued ==>
          harbor * HANDLES <= h < (harbor + 1) * HANDLES &&
          (!wrapped ==> harbor * HANDLES < h < harbor * HANDLES + index))
    && (issued != {} ==> harbor * HANDLES + index - 1 in issued)
  }

  /** The handle is beyond all the earlier ones exactly when the search stops in front of
      the last handle. */
  lemma NewestIff(harbor: nat, index: nat, issued: set<nat>, wrapped: bool, stop: nat)
    requires Issued(harbor, index, issued, wrapped) && 0 < index <= stop <= index + HANDLES - 1
    ensures !wrapped && issued != {} ==>
      (stop < HANDLES <==> forall h :: h in issued ==> h < Mod(stop, HANDLES) + harbor * HANDLES)
  {
    NoWrap(stop);
    if !wrapped && issued != {} && stop >= HANDLES {
      ModIs(stop, HANDLES, 1, stop - HANDLES);
      assert harbor * HANDLES + index - 1 in issued;
    }
  }

  lemma FreeAt(slots: seq<Slot>, i: nat)
    requires i < |slots| && slots[i].Empty?
    ensures HasFree(slots)
  {
  }

  lemma NoneFree(slots: seq<Slot>)
    requires !HasFree(slots)
    ensures forall i :: 0 <= i < |slots| ==> slots[i].Full?
  {
  }

  lemma PassedStep(slots: seq<Slot>, first: nat, i: nat)
    requires i < |slots|
    ensures Passed(slots, first, i) ==
            if slots[Mod(i + first, |slots|)].Empty? then i else Passed(slots, first, i + 1)
  {
    hide Mod;
  }

  /** The search stops inside of the table, and the table is not larger than the handles. */
  lemma StopBound(slots: seq<Slot>, index: nat, k: nat)
    requires HasFree(slots) && DividesInto(|slots|, k)
    ensures Passed(slots, index, 0) + index < index + HANDLES
  {
    hide HasFree, Two;
    if Passed(slots, index, 0) == |slots| { AllPassed(slots, index); }
    assert |slots| * (Two(k) - 1) >= 0;
    assert |slots| * Two(k) == |slots| * (Two(k) - 1) + |slots|;
  }

  /** In a new table the search stops where it starts. */
  lemma FirstStop(slots: seq<Slot>, issued: set<nat>)
    requires Placed(slots, issued) && issued == {}
    ensures NextStop(slots, 1) == 1
  {
    hide Mod, Passed;
    assert forall i :: 0 <= i < |slots| ==> slots[i].Empty?;
    assert slots[0].Empty?;
    PassedStep(slots, 1, 0);
  }

  lemma PassedEnd(slots: seq<Slot>, first: nat)
    ensures Passed(slots, first, |slots|) == |slots|
  {
  }

  lemma WasIssued(slots: seq<Slot>, issued: set<nat>, handle: nat)
    requires Placed(slots, issued) && Holder(slots, handle).Full?
    ensures handle in issued
  {
  }

  /** A new handle is not one that was retired. */
  lemma RetiredStays(slots: seq<Slot>, retired: set<nat>, issued: set<nat>, wrapped: bool, c: Context, wraps: bool)
    requires Placed(slots, issued) && slots[Mod(c.handle, |slots|)].Empty? && retired <= issued
    requires !wrapped ==> forall h :: h in retired ==> Holder(slots, h) == Empty
    requires !wrapped && !wraps ==> c.handle !in issued
    ensures !wrapped && !wraps ==>
      forall h :: h in retired ==> Holder(slots[Mod(c.handle, |slots|) := Full(c)], h) == Empty
  {
    PutIn(slots, issued, c);
    hide Holder, Mod;
  }

  lemma NextIssued(harbor: nat, index: nat, issued: set<nat>, wrapped: bool, x: nat)
    requires Issued(harbor, index, issued, wrapped) && 0 < index <= x
    ensures var h := Mod(x, HANDLES);
            Issued(harbor, h + 1, issued + {h + harbor * HANDLES}, wrapped || x >= HANDLES) &&
            (!wrapped && x < HANDLES ==> h + harbor * HANDLES !in issued)
  {
    NoWrap(x);
  }

  lemma TwoTwentyTwo()
    ensures DividesInto(4, 22)
  {
    assert Two(4) == 16 && Two(8) == 256 && Two(12) == 4096 && Two(16) == 65536 && Two(20) == 1048576;
  }

  lemma NoWrap(x: nat)
    ensures x < HANDLES ==> Mod(x, HANDLES) == x
  {
  }

  /* ---------- runs ---------- */

  datatype Op = RegisterOp(id: nat) | RetireOp(handle: nat) | NameOp(name: Text, handle: nat)

  /** What a call returns: a handle, or whether it found what it asked for. */
  datatype Answer = Got(handle: nat) | Did(ok: bool)

  /** The simple form of the table: handles with their services, names with their handles. */
  datatype Directory = Directory(services: map<nat, nat>, names: map<Text, nat>)

  const NOTHING: Directory := Directory(map[], map[])

  /** The answer to a call. A new handle is one that no service has. */
  predicate Fits(d: Directory, op: Op, answer: Answer) {
    match op
    case RegisterOp(_) => answer.Got? && answer.handle !in d.services
    case RetireOp(handle) => answer == Did(handle in d.services)
    case NameOp(name, _) => answer == Did(name !in d.names)
  }

  /** What is there after a call. The names of a service go with it. */
  function After(d: Directory, op: Op, answer: Answer): Directory {
    match op
    case RegisterOp(id) => if answer.Got? then d.(services := d.services[answer.handle := id]) else d
    case RetireOp(handle) =>
      if handle !in d.services then d
      else Directory(d.services - {handle}, map x | x in d.names && d.names[x] != handle :: d.names[x])
    case NameOp(name, handle) => if name in d.names then d else d.(names := d.names[name := handle])
  }

  /** What is there after a run. */
  function Directories(ops: seq<Op>, answers: seq<Answer>): Directory
    requires |answers| <= |ops|
  {
    if answers == [] then NOTHING
    else
      var k := |answers| - 1;
      After(Directories(ops[..k], answers[..k]), ops[k], answers[k])
  }

  /** The handles that a run gave out, and those that it retired. */
  function GivenOut(answers: seq<Answer>): set<nat> { set k | 0 <= k < |answers| && answers[k].Got? :: answers[k].handle }

  function Gone(ops: seq<Op>, answers: seq<Answer>): set<nat>
    requires |answers| <= |ops|
  {
    set k | 0 <= k < |answers| && ops[k].RetireOp? && answers[k] == Did(true) :: ops[k].handle
  }

  /** A handle was given out that is not above all earlier ones. */
  ghost predicate Falls(answers: seq<Answer>) {
    exists j, k :: 0 <= j < k < |answers| && answers[j].Got? && answers[k].Got? && answers[k].handle <= answers[j].handle
  }

  ghost predicate NamesShow(names: seq<Name>, m: map<Text, nat>) {
    forall x :: (HasName(names, x) <==> x in m) && HandleOf(names, x) == if x in m then m[x] else 0
  }

  /** The table answers every question as the simple form does. */
  ghost predicate Shows(s: HandleStorage, d: Directory)
    requires s.Valid()
    reads s, s.slot, s.name
  {
    && (forall h :: s.Resolve(h) == if h in d.services then Full(Context(d.services[h], h)) else Empty)
    && NamesShow(s.Names(), d.names)
  }

  lemma WithoutShows(names: seq<Name>, m: map<Text, nat>, handle: nat)
    requires Sorted(names) && NamesShow(names, m)
    ensures NamesShow(Without(names, handle), map x | x in m && m[x] != handle :: m[x])
  {
    hide Sorted, Without, HandleOf, HasName;
    forall x
      ensures HasName(Without(names, handle), x) <==> x in m && m[x] != handle
      ensures HandleOf(Without(names, handle), x) == if x in m && m[x] != handle then m[x] else 0
    {
      WithoutNames(names, handle, x);
      WithoutHandles(names, handle, x);
    }
  }

  /** There is no room for the call: the source asserts that there is. */
  predicate NoRoom(s: HandleStorage, op: Op) reads s, s.slot {
    match op
    case RegisterOp(_) => s.slotSize * 2 - 1 > HANDLE_MASK && !HasFree(s.slot[..])
    case RetireOp(_) => false
    case NameOp(_, _) => s.nameCount == s.nameCap && s.nameCap * 2 > MAX_SLOT_SIZE
  }

  /** One call. */
  method Perform(s: HandleStorage, op: Op, ghost d: Directory) returns (answer: Answer)
    requires s.Valid() && Shows(s, d) && !NoRoom(s, op)
    modifies s, s.slot, s.name
    ensures s.Valid() && (s.slot == old(s.slot) || fresh(s.slot)) && (s.name == old(s.name) || fresh(s.name))
    ensures Fits(d, op, answer) && Shows(s, After(d, op, answer))
    ensures s.issued == old(s.issued) + if answer.Got? then {answer.handle} else {}
    ensures s.retired == old(s.retired) + if op.RetireOp? && answer == Did(true) then {op.handle} else {}
    ensures s.wrapped <==> old(s.wrapped) || (answer.Got? && exists h :: h in old(s.issued) && answer.handle <= h)
  {
    hide Mod, Passed, HasFree, Grown, Holder, Placed, Issued, HandleOf, HasName, Sorted, Without;
    match op {
      case RegisterOp(id) =>
        var handle := s.Register(id);
        answer := Got(handle);
      case RetireOp(handle) =>
        WithoutShows(s.Names(), d.names, handle);
        var ret := s.Retire(handle);
        answer := Did(ret);
      case NameOp(name, handle) =>
        var inserted := s.InsertName(name, handle);
        answer := Did(inserted);
    }
  }

  ghost predicate AllFit(ops: seq<Op>, answers: seq<Answer>)
    requires |answers| <= |ops|
  {
    forall k :: 0 <= k < |answers| ==> Fits(Directories(ops[..k], answers[..k]), ops[k], answers[k])
  }

  lemma FitBefore(ops: seq<Op>, answers: seq<Answer>, n: nat)
    requires n <= |answers| <= |ops| && AllFit(ops, answers)
    ensures AllFit(ops[..n], answers[..n])
  {
    hide Fits, Directories;
    forall k | 0 <= k < n
      ensures Fits(Directories(ops[..n][..k], answers[..n][..k]), ops[..n][k], answers[..n][k])
    {
      assert ops[..n][..k] == ops[..k] && answers[..n][..k] == answers[..k];
    }
  }

  /** A service stays under its handle through every call but the one that retires it. */
  lemma StaysThere(d: Directory, op: Op, answer: Answer, handle: nat)
    requires Fits(d, op, answer) && handle in d.services && op != RetireOp(handle)
    ensures var d' := After(d, op, answer); handle in d'.services && d'.services[handle] == d.services[handle]
  {
  }

  /** A handle that was given out, and not retired later, still leads to its service. */
  lemma {:induction false} StillThere(ops: seq<Op>, answers: seq<Answer>, k: nat)
    requires k < |answers| <= |ops| && AllFit(ops, answers) && ops[k].RegisterOp?
    requires forall j :: k < j < |answers| && answers[k].Got? ==> ops[j] != RetireOp(answers[k].handle)
    ensures answers[k].Got?
    ensures var d := Directories(ops, answers);
            answers[k].handle in d.services && d.services[answers[k].handle] == ops[k].id
    decreases |answers|
  {
    var n := |answers| - 1;
    var before := Directories(ops[..n], answers[..n]);
    assert Fits(before, ops[n], answers[n]);
    assert Directories(ops, answers) == After(before, ops[n], answers[n]);
    if k < n {
      FitBefore(ops, answers, n);
      hide Directories, Fits, After, AllFit;
      StillThere(ops[..n], answers[..n], k);
      StaysThere(before, ops[n], answers[n], answers[k].handle);
    }
  }

  lemma NothingShown(s: HandleStorage)
    requires s.Valid() && (forall h :: s.Resolve(h) == Empty) && s.Names() == []
    ensures Shows(s, NOTHING)
  {
  }

  lemma NoFall()
    ensures !Falls([])
  {
  }

  lemma NoAnswers(ops: seq<Op>)
    ensures Directories(ops, []) == NOTHING && GivenOut([]) == {} && Gone(ops, []) == {}
  {
  }

  /** What is there after the first calls does not depend on the later ones. */
  lemma SoFar(ops: seq<Op>, answers: seq<Answer>)
    requires |answers| <= |ops|
    ensures Directories(ops[..|answers|], answers) == Directories(ops, answers)
    ensures answers[..|answers|] == answers
  {
    if answers != [] { assert ops[..|answers|][..|answers| - 1] == ops[..|answers| - 1]; }
  }

  lemma MoreAnswers(ops: seq<Op>, answers: seq<Answer>, answer: Answer)
    requires |answers| < |ops|
    ensures var n, more := |answers|, answers + [answer];
            && Directories(ops, more) == After(Directories(ops, answers), ops[n], answer)
            && GivenOut(more) == GivenOut(answers) + (if answer.Got? then {answer.handle} else {})
            && Gone(ops, more) == Gone(ops, answers) + (if ops[n].RetireOp? && answer == Did(true) then {ops[n].handle} else {})
    ensures forall k :: 0 <= k <= |answers| ==> (answers + [answer])[..k] == answers[..k]
  {
    hide After;
    var n, more := |answers|, answers + [answer];
    SoFar(ops, answers);
    assert more[..n] == answers && more[n] == answer;
    assert forall k :: 0 <= k < n ==> more[k] == answers[k];
    MoreGiven(answers, answer);
    MoreGone(ops, answers, answer);
  }

  lemma MoreGiven(answers: seq<Answer>, answer: Answer)
    ensures GivenOut(answers + [answer]) == GivenOut(answers) + if answer.Got? then {answer.handle} else {}
  {
    var more := answers + [answer];
    forall h | h in GivenOut(answers) ensures h in GivenOut(more) {
      var k :| 0 <= k < |answers| && answers[k].Got? && answers[k].handle == h;
      assert more[k] == answers[k];
    }
    assert more[|answers|] == answer;
  }

  lemma MoreGone(ops: seq<Op>, answers: seq<Answer>, answer: Answer)
    requires |answers| < |ops|
    ensures var n := |answers|;
            Gone(ops, answers + [answer]) ==
            Gone(ops, answers) + if ops[n].RetireOp? && answer == Did(true) then {ops[n].handle} else {}
  {
    var n, more := |answers|, answers + [answer];
    forall h | h in Gone(ops, answers) ensures h in Gone(ops, more) {
      var k :| 0 <= k < n && ops[k].RetireOp? && answers[k] == Did(true) && ops[k].handle == h;
      assert more[k] == answers[k];
    }
    assert more[n] == answer;
  }

  lemma MoreFalls(answers: seq<Answer>, answer: Answer)
    ensures Falls(answers + [answer]) <==>
            Falls(answers) || (answer.Got? && exists h :: h in GivenOut(answers) && answer.handle <= h)
  {
    var n, more := |answers|, answers + [answer];
    assert more[n] == answer && forall k :: 0 <= k < n ==> more[k] == answers[k];
    if Falls(answers) {
      var j, k :| 0 <= j < k < n && answers[j].Got? && answers[k].Got? && answers[k].handle <= answers[j].handle;
      assert more[j].Got? && more[k].Got?;
    }
    if answer.Got? && exists h :: h in GivenOut(answers) && answer.handle <= h {
      var h :| h in GivenOut(answers) && answer.handle <= h;
      var j :| 0 <= j < n && answers[j].Got? && answers[j].handle == h;
      assert more[j].Got? && more[n].Got?;
    }
    if Falls(more) {
      var j, k :| 0 <= j < k < |more| && more[j].Got? && more[k].Got? && more[k].handle <= more[j].handle;
      if k < n { assert answers[j].Got? && answers[k].Got?; } else { assert answers[j].handle in GivenOut(answers); }
    }
  }

  /** Any run of calls on a new table, up to one for which there is no room left: every
      answer is that of the simple form, and so is what every handle resolves to at the
      end, and every name. As long as each new handle is above all earlier ones, no retired
      one resolves again, and the reserved handle 0 was not given out; the first handle that
      is not above the others is given out when the search has passed the last one. */
  method RunAll(harbor: nat, ops: seq<Op>) returns (s: HandleStorage, answers: seq<Answer>)
    ensures s.Valid() && |answers| <= |ops| && (|answers| < |ops| ==> NoRoom(s, ops[|answers|]))
    ensures AllFit(ops, answers)
    ensures Shows(s, Directories(ops, answers))
    ensures s.issued == GivenOut(answers) && s.retired == Gone(ops, answers)
    ensures s.wrapped <==> Falls(answers)
    ensures !Falls(answers) ==> forall h :: h in Gone(ops, answers) ==> s.Resolve(h) == Empty
    ensures !Falls(answers) ==> harbor % 256 * HANDLES !in GivenOut(answers)
  {
    hide Fits, After, Shows, NoRoom, Directories, GivenOut, Gone, Falls;
    s := new HandleStorage(harbor);
    answers := [];
    NothingShown(s);
    NoAnswers(ops);
    NoFall();
    while |answers| < |ops|
      invariant fresh(s) && fresh(s.slot) && fresh(s.name) && s.Valid() && s.harbor == harbor % 256 && |answers| <= |ops|
      invariant forall k :: 0 <= k < |answers| ==> Fits(Directories(ops[..k], answers[..k]), ops[k], answers[k])
      invariant Shows(s, Directories(ops, answers))
      invariant s.issued == GivenOut(answers) && s.retired == Gone(ops, answers)
      invariant s.wrapped <==> Falls(answers)
      decreases |ops| - |answers|
    {
      var n := |answers|;
      if NoRoom(s, ops[n]) { return; }
      SoFar(ops, answers);
      var answer := Perform(s, ops[n], Directories(ops, answers));
      MoreFalls(answers, answer);
      MoreAnswers(ops, answers, answer);
      answers := answers + [answer];
    }
  }

  /* ---------- what happens when the index wraps ---------- */

  const NO_SERVICES: seq<Slot> := [Empty, Empty, Empty, Empty]

  /** The slots after the handles in front of `k`, when only the fourth handle from the end
      stays, if it is to be kept. */
  function LastKept(keep: bool, k: nat): seq<Slot> {
    if keep && k > HANDLES - 4 then [Full(Context(5, HANDLES - 4)), Empty, Empty, Empty] else NO_SERVICES
  }

  lemma KeptFree(keep: bool, k: nat)
    ensures |LastKept(keep, k)| == 4 && HasFree(LastKept(keep, k))
  {
    assert LastKept(keep, k)[1].Empty?;
  }

  /** The slot of the next handle is free, until the index is behind the last one. */
  lemma KeptNext(keep: bool, k: nat)
    requires 0 < k < HANDLES
    ensures Passed(LastKept(keep, k), k, 0) == 0 && Mod(k, HANDLES) == k
    ensures var slots := LastKept(keep, k)[Mod(k, 4) := Full(Context(5, k))];
            |slots| == 4 && Holder(slots, k).Full? &&
            if keep && k == HANDLES - 4 then slots == LastKept(keep, k + 1)
            else slots[Mod(k, 4) := Empty] == LastKept(keep, k + 1)
  {
    NoWrap(k);
    if k > HANDLES - 4 { assert Mod(k, 4) != 0; }
    PassedStep(LastKept(keep, k), k, 0);
  }

  lemma KeptLast(keep: bool)
    ensures Passed(LastKept(keep, HANDLES), HANDLES, 0) == if keep then 1 else 0
    ensures Mod(HANDLES, HANDLES) == 0 && Mod(HANDLES + 1, HANDLES) == 1
  {
    ModIs(HANDLES, HANDLES, 1, 0);
    ModIs(HANDLES + 1, HANDLES, 1, 1);
    assert Mod(HANDLES, 4) == 0 && Mod(HANDLES + 1, 4) == 1;
    PassedStep(LastKept(keep, HANDLES), HANDLES, 0);
    PassedStep(LastKept(keep, HANDLES), HANDLES, 1);
  }

  /** The next handle is given out, and retired again unless it is the one to be kept. */
  method GiveAndRetire(s: HandleStorage, keep: bool, k: nat)
    requires s.Valid() && s.harbor == 0 && 0 < k < HANDLES && s.handleIndex == k && s.slot[..] == LastKept(keep, k)
    modifies s, s.slot, s.name
    ensures s.Valid() && (s.slot == old(s.slot) || fresh(s.slot)) && s.name == old(s.name)
    ensures s.handleIndex == k + 1 && s.slot[..] == LastKept(keep, k + 1)
    ensures s.retired == if keep && k == HANDLES - 4 then old(s.retired) else old(s.retired) + {k}
  {
    hide Passed, Mod, HasFree, Grown, Holder, LastKept, Placed, Issued;
    KeptFree(keep, k);
    KeptNext(keep, k);
    var h := s.Register(5);
    assert h == k;
    if !(keep && k == HANDLES - 4) {
      var ret := s.Retire(h);
      assert ret;
    }
  }

  /** A run in which every handle of node 0 is given out and retired again, up to the last
      one, all of them in the first table. The next service gets the reserved handle 0; or,
      when a service has stayed in the slot of handle 0, the first handle a second time. */
  method WrapAround(keep: bool) returns (s: HandleStorage, first: nat, again: nat)
    ensures fresh(s) && s.Valid() && s.wrapped && first == 1
    ensures keep ==> again == first && first in s.retired && s.Resolve(first) == Full(Context(6, first))
    ensures !keep ==> again == 0 && s.Resolve(0) == Full(Context(6, 0))
  {
    hide Passed, Mod, HasFree, Grown, Holder, LastKept, Placed, Issued;
    s := new HandleStorage(0);
    first := 1;
    var k := 1;
    assert s.slot[..] == LastKept(keep, 1) by { KeptStart(keep); }
    while k < HANDLES
      invariant 1 <= k <= HANDLES && fresh(s) && s.Valid() && fresh(s.slot) && fresh(s.name)
      invariant s.harbor == 0 && s.handleIndex == k && s.slot[..] == LastKept(keep, k)
      invariant k > 1 ==> first in s.retired
    {
      GiveAndRetire(s, keep, k);
      k := k + 1;
    }
    KeptFree(keep, HANDLES);
    KeptLast(keep);
    again := s.Register(6);
  }

  lemma KeptStart(keep: bool)
    ensures LastKept(keep, 1) == NO_SERVICES
  {
  }
}
