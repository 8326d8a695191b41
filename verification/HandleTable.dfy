/** The table from handles to contexts, and the sorted array of names. */
module HandleTable {
  import opened Arithmetic

  /** Handles below this are local; the bits above it say which harbor they belong to. */
  const SPACE: nat := 0x100_0000
  const HANDLE_MASK: nat := 0xff_ffff
  const DEFAULT_SLOT_BITS: nat := 2

  /** A slot of the table: free, or a context with what its handle field holds. */
  datatype Entry = Free | Held(ctx: nat, handle: nat)

  datatype Name = Name(name: string, handle: nat)

  datatype Option = None | Some(value: nat)

  // ---------- Powers of two ----------

  function Two(k: nat): (r: nat)
    ensures r > 0
  {
    if k == 0 then 1 else 2 * Two(k - 1)
  }

  lemma {:induction false} TwoSum(j: nat, k: nat)
    ensures Two(j + k) == Two(j) * Two(k)
  {
    if j > 0 {
      TwoSum(j - 1, k);
      Associate(2, Two(j - 1), Two(k));
    }
  }

  lemma {:induction false} TwoOrder(j: nat, k: nat)
    requires j <= k
    ensures Two(j) <= Two(k)
  {
    if j < k { TwoOrder(j, k - 1); }
  }

  lemma SpaceIsTwo()
    ensures Two(24) == SPACE
  {
    assert Two(8) == 256;
    TwoSum(8, 8);
    TwoSum(8, 16);
  }

  /** The low bits of the low bits are the low bits. */
  lemma LowBits(x: nat, n: nat, m: nat)
    requires n > 0 && m > 0
    ensures n * m > 0 && x % (n * m) % n == x % n
  {
    var q, r := x / (n * m), x % (n * m);
    MulOrder(1, n, m);
    Commute(q, n * m);
    Associate(n, m, q);
    Commute(n, m * q);
    var q1, r1 := r / n, r % n;
    Commute(n, q1);
    Distribute(m * q, q1, n);
    Division(x, n, m * q + q1, r1);
  }

  lemma LocalBits(x: nat, bits: nat)
    requires bits <= 24
    ensures x % SPACE % Two(bits) == x % Two(bits)
  {
    SpaceIsTwo();
    TwoSum(bits, 24 - bits);
    LowBits(x, Two(bits), Two(24 - bits));
  }

  lemma HarborBits(harbor: nat, low: nat, bits: nat)
    requires bits <= 24 && harbor % SPACE == 0 && low < SPACE
    ensures (harbor + low) % Two(bits) == low % Two(bits)
  {
    Division(harbor + low, SPACE, harbor / SPACE, low);
    LocalBits(harbor + low, bits);
  }

  // ---------- Slots ----------

  /** Every context is where the low bits of its handle say. */
  predicate Placed(slots: seq<Entry>)
  {
    forall i | 0 <= i < |slots| && slots[i].Held? :: slots[i].handle % |slots| == i
  }

  /** Context `c` is in the table under handle `h`. */
  predicate Bound(slots: seq<Entry>, h: nat, c: nat)
  {
    Held(c, h) in slots
  }

  predicate Full(slots: seq<Entry>)
  {
    forall i | 0 <= i < |slots| :: slots[i].Held?
  }

  function Count(slots: seq<Entry>): (r: nat)
    ensures r <= |slots|
  {
    if slots == [] then 0 else Count(slots[..|slots| - 1]) + (if slots[|slots| - 1].Held? then 1 else 0)
  }

  lemma {:induction false} FullCount(slots: seq<Entry>)
    requires Full(slots)
    ensures Count(slots) == |slots|
  {
    if slots != [] { FullCount(slots[..|slots| - 1]); }
  }

  /** A handle is in the table when its own slot says so, and in no other case. */
  lemma BoundAt(slots: seq<Entry>, h: nat, c: nat)
    requires Placed(slots) && |slots| > 0
    ensures Bound(slots, h, c) <==> slots[h % |slots|] == Held(c, h)
  {
  }

  /** The slot looked at for the `i`-th handle after `index`. */
  function SlotOf(index: nat, i: nat, n: nat): (r: nat)
    requires n > 0
    ensures r < n
  {
    (i + index) % SPACE % n
  }

  /** How many handles from `index` on have no free slot, counting from the `i`-th. */
  function Probe(slots: seq<Entry>, index: nat, i: nat): (r: nat)
    requires i <= |slots|
    ensures i <= r <= |slots|
    decreases |slots| - i
  {
    if i == |slots| || slots[SlotOf(index, i, |slots|)].Free? then i else Probe(slots, index, i + 1)
  }

  /** The handle that is given next, besides the harbor. */
  function Given(slots: seq<Entry>, index: nat): nat
  {
    (Probe(slots, index, 0) + index) % SPACE
  }

  /** A table with twice as many slots, with the contexts of the first `i` slots. */
  function DoubledTo(slots: seq<Entry>, i: nat): (r: seq<Entry>)
    ensures |r| == 2 * |slots|
  {
    seq(2 * |slots|, q requires 0 <= q < 2 * |slots| =>
      var x := slots[q % |slots|];
      if q % |slots| < i && x.Held? && x.handle % (2 * |slots|) == q then x else Free)
  }

  function Doubled(slots: seq<Entry>): (r: seq<Entry>)
    ensures |r| == 2 * |slots|
  {
    DoubledTo(slots, |slots|)
  }

  /** The next context goes to a slot that is still free. */
  lemma DoubledNext(slots: seq<Entry>, i: nat)
    requires Placed(slots) && i < |slots| && slots[i].Held?
    ensures var hash := slots[i].handle % (2 * |slots|);
            && DoubledTo(slots, i)[hash] == Free
            && DoubledTo(slots, i)[hash := slots[i]] == DoubledTo(slots, i + 1)
  {
    var n, hash := |slots|, slots[i].handle % (2 * |slots|);
    LowBits(slots[i].handle, n, 2);
    Commute(n, 2);
    assert hash % n == i;
  }

  lemma NothingDoubled(slots: seq<Entry>, empty: seq<Entry>)
    requires |empty| == 2 * |slots| && forall q | 0 <= q < |empty| :: empty[q] == Free
    ensures empty == DoubledTo(slots, 0)
  {
  }

  lemma AllHeld(slots: seq<Entry>, i: nat)
    requires Full(slots) && i < |slots|
    ensures slots[i].Held?
  {
  }

  /** Twice as many slots hold the same contexts, each where its handle says. */
  lemma DoubledHolds(slots: seq<Entry>)
    requires Placed(slots) && |slots| > 0
    ensures Placed(Doubled(slots))
    ensures forall h: nat, c: nat :: Bound(Doubled(slots), h, c) <==> Bound(slots, h, c)
  {
    var n := |slots|;
    forall h: nat, c: nat ensures Bound(Doubled(slots), h, c) <==> Bound(slots, h, c) { DoubledHolds1(slots, h, c); }
  }

  lemma DoubledHolds1(slots: seq<Entry>, h: nat, c: nat)
    requires Placed(slots) && |slots| > 0
    ensures Bound(Doubled(slots), h, c) <==> Bound(slots, h, c)
  {
    LowBits(h, |slots|, 2);
    Commute(|slots|, 2);
    BoundAt(slots, h, c);
    if Bound(slots, h, c) { assert Doubled(slots)[h % (2 * |slots|)] == Held(c, h); }
  }

  /** Every slot is looked at. */
  lemma AllProbed(slots: seq<Entry>, index: nat, bits: nat)
    requires bits <= 24 && |slots| == Two(bits) && Probe(slots, index, 0) == |slots|
    ensures Full(slots)
  {
    forall r | 0 <= r < |slots| ensures slots[r].Held? {
      hide Probe, SlotOf, Two;
      var i := Reaches(index, bits, r);
      NoneFree(slots, index, 0, i);
    }
  }

  /** Some handle from the index on has slot `r`. */
  lemma Reaches(index: nat, bits: nat, r: nat) returns (i: nat)
    requires bits <= 24 && r < Two(bits)
    ensures i < Two(bits) && SlotOf(index, i, Two(bits)) == r
  {
    hide Two;
    var n := Two(bits);
    i := (r - index) % n;
    var k := (r - index) / n;
    LocalBits(i + index, bits);
    Commute(n, k);
    MinusTimes(k, n);
    Division(i + index, n, -k, r);
  }

  lemma MinusTimes(k: int, n: int)
    ensures (-k) * n == -(k * n)
  {
  }

  lemma {:induction false} NoneFree(slots: seq<Entry>, index: nat, i: nat, k: nat)
    requires i <= |slots| && i <= k < Probe(slots, index, i)
    ensures slots[SlotOf(index, k, |slots|)].Held?
    decreases k - i
  {
    if i < k { NoneFree(slots, index, i + 1, k); }
  }

  lemma {:induction false} FirstFree(slots: seq<Entry>, index: nat, i: nat)
    requires i <= |slots| && Probe(slots, index, i) < |slots|
    ensures slots[SlotOf(index, Probe(slots, index, i), |slots|)].Free?
    decreases |slots| - i
  {
    if i < |slots| && slots[SlotOf(index, i, |slots|)].Held? { FirstFree(slots, index, i + 1); }
  }

  lemma SlotLow(index: nat, i: nat, n: nat)
    requires n > 0
    ensures i + index < SPACE ==> SlotOf(index, i, n) == (i + index) % n
    ensures i + index == SPACE ==> SlotOf(index, i, n) == 0
  {
    if i + index == SPACE { Division(0, n, 0, 0); }
  }

  /** The slots of all handles from the index up to the end of the handle space are taken. */
  predicate TakenToTheEnd(slots: seq<Entry>, index: nat)
    requires |slots| > 0
  {
    forall h | index <= h < SPACE :: slots[h % |slots|].Held?
  }

  lemma NotTaken(slots: seq<Entry>, index: nat, h: nat)
    requires |slots| > 0 && index <= h < SPACE && slots[h % |slots|].Free?
    ensures !TakenToTheEnd(slots, index)
  {
  }

  /** Handles passed over before the end of the handle space have taken slots. */
  lemma HeldUpTo(slots: seq<Entry>, index: nat)
    requires |slots| > 0 && index <= SPACE <= Probe(slots, index, 0) + index
    ensures TakenToTheEnd(slots, index)
  {
    forall h | index <= h < SPACE ensures slots[h % |slots|].Held? {
      hide SlotOf, Probe;
      NoneFree(slots, index, 0, h - index);
      SlotLow(index, h - index, |slots|);
    }
  }

  /**
   * The handle 0, which is kept for the system, is given exactly when slot 0 is free and all handles from the index up
   * to the end of the handle space have taken slots.
   */
  lemma GivesZero(slots: seq<Entry>, index: nat, bits: nat)
    requires bits <= 24 && |slots| == Two(bits) && 1 <= index <= SPACE && !Full(slots)
    ensures Given(slots, index) == 0 <==> slots[0].Free? && TakenToTheEnd(slots, index)
  {
    hide Two, Full, SlotOf, Probe, TakenToTheEnd;
    var n, k := |slots|, Probe(slots, index, 0);
    SpaceIsTwo();
    TwoOrder(bits, 24);
    if k == n { AllProbed(slots, index, bits); }
    FirstFree(slots, index, 0);
    SlotLow(index, k, n);
    if k + index == SPACE { HeldUpTo(slots, index); }
    if k + index < SPACE { NotTaken(slots, index, k + index); }
    if k + index > SPACE {
      NoneFree(slots, index, 0, SPACE - index);
      SlotLow(index, SPACE - index, n);
    }
  }

  /** In the first table, once the index has reached the end of the handle space and slot 0 is free again. */
  lemma ZeroGiven(slots: seq<Entry>)
    requires |slots| == 4 && slots[0].Free?
    ensures Given(slots, SPACE) == 0
  {
    assert Two(2) == 4;
    GivesZero(slots, SPACE, 2);
  }

  // ---------- Growing before a handle is stored ----------

  /** The larger table after the contexts of the first `i` slots have moved, each to where its handle field says. */
  function Rehashed(slots: seq<Entry>, i: nat): (r: seq<Entry>)
    requires Full(slots) && i <= |slots|
    ensures |r| == 2 * |slots|
    decreases i
  {
    if i == 0 then seq(2 * |slots|, _ => Free)
    else Rehashed(slots, i - 1)[slots[i - 1].handle % (2 * |slots|) := slots[i - 1]]
  }

  lemma {:induction false} RehashedFrom(slots: seq<Entry>, i: nat, q: nat)
    requires Full(slots) && i <= |slots| && q < 2 * |slots| && Rehashed(slots, i)[q].Held?
    ensures exists j :: 0 <= j < i && slots[j] == Rehashed(slots, i)[q] && slots[j].handle % (2 * |slots|) == q
    decreases i
  {
    if i > 0 && slots[i - 1].handle % (2 * |slots|) != q { RehashedFrom(slots, i - 1, q); }
  }

  lemma {:induction false} RehashedTo(slots: seq<Entry>, i: nat, j: nat)
    requires Full(slots) && j < i <= |slots|
    requires forall k | j < k < i :: slots[k].handle % (2 * |slots|) != slots[j].handle % (2 * |slots|)
    ensures Rehashed(slots, i)[slots[j].handle % (2 * |slots|)] == slots[j]
    decreases i
  {
    if j < i - 1 { RehashedTo(slots, i - 1, j); }
  }

  /**
   * The creator of a context stores the handle it was given only after it has left the lock. Growing the table finds
   * every context a slot where its given handle will be looked up, exactly when the stored fields already have the low
   * bits of the given handles.
   */
  lemma GrowthExact(slots: seq<Entry>, given: seq<nat>)
    requires Full(slots) && |given| == |slots| && forall i | 0 <= i < |slots| :: given[i] % |slots| == i
    requires forall i, j | 0 <= i < j < |slots| :: slots[i].ctx != slots[j].ctx
    ensures (forall i | 0 <= i < |slots| :: Rehashed(slots, |slots|)[given[i] % (2 * |slots|)] == slots[i])
            <==> forall i | 0 <= i < |slots| :: slots[i].handle % (2 * |slots|) == given[i] % (2 * |slots|)
  {
    var n := |slots|;
    if forall i | 0 <= i < n :: slots[i].handle % (2 * n) == given[i] % (2 * n) {
      forall i | 0 <= i < n ensures Rehashed(slots, n)[given[i] % (2 * n)] == slots[i] {
        forall k | i < k < n ensures slots[k].handle % (2 * n) != slots[i].handle % (2 * n) {
          LowBits(given[k], n, 2);
          LowBits(given[i], n, 2);
          Commute(n, 2);
        }
        RehashedTo(slots, n, i);
      }
    }
    if forall i | 0 <= i < n :: Rehashed(slots, n)[given[i] % (2 * n)] == slots[i] {
      forall i | 0 <= i < n ensures slots[i].handle % (2 * n) == given[i] % (2 * n) {
        RehashedFrom(slots, n, given[i] % (2 * n));
      }
    }
  }

  /** A fourth context that is registered but has not stored its handle 4 is lost when a fifth makes the table grow. */
  lemma EarlyGrowthLoses()
    ensures var slots := [Held(40, 0), Held(10, 1), Held(20, 2), Held(30, 3)];
            Full(slots) && Rehashed(slots, 4)[4 % 8] == Free && Rehashed(slots, 4)[0] == Held(40, 0)
  {
    var slots := [Held(40, 0), Held(10, 1), Held(20, 2), Held(30, 3)];
    if Rehashed(slots, 4)[4].Held? { RehashedFrom(slots, 4, 4); }
    RehashedTo(slots, 4, 0);
  }

  // ---------- Names ----------

  /** strcmp. */
  function StrCmp(a: string, b: string): int
  {
    if a == [] then (if b == [] then 0 else -1)
    else if b == [] then 1
    else if a[0] != b[0] then a[0] as int - b[0] as int
    else StrCmp(a[1..], b[1..])
  }

  lemma {:induction false} StrCmpOrder(a: string, b: string, c: string)
    ensures StrCmp(a, b) == 0 <==> a == b
    ensures StrCmp(a, b) < 0 <==> StrCmp(b, a) > 0
    ensures StrCmp(a, b) < 0 && StrCmp(b, c) < 0 ==> StrCmp(a, c) < 0
  {
    if a != [] && b != [] && a[0] == b[0] {
      assert a == [a[0]] + a[1..] && b == [b[0]] + b[1..];
      if c != [] && c[0] == b[0] { StrCmpOrder(a[1..], b[1..], c[1..]); } else { StrCmpOrder(a[1..], b[1..], []); }
    }
  }

  /** The strings agree before the `k`-th character, and there `a` has the smaller one. */
  predicate DiffersAt(a: string, b: string, k: nat)
  {
    k < |a| && k < |b| && a[..k] == b[..k] && a[k] < b[k]
  }

  /** A name comes first when it is a proper prefix, or has the smaller character where the two differ first. */
  lemma {:induction false} StrCmpExact(a: string, b: string)
    ensures StrCmp(a, b) < 0 <==> a < b || exists k: nat :: DiffersAt(a, b, k)
  {
    if a == [] || b == [] {
      assert a == [] && b != [] ==> a < b;
    } else if a[0] != b[0] {
      assert a[0] < b[0] ==> DiffersAt(a, b, 0);
      forall k: nat | 0 < k <= |a| && k <= |b| ensures a[..k] != b[..k] {
        assert a[..k][0] == a[0] && b[..k][0] == b[0];
      }
    } else {
      var a', b' := a[1..], b[1..];
      StrCmpExact(a', b');
      assert a == [a[0]] + a' && b == [b[0]] + b';
      if k: nat :| DiffersAt(a', b', k) {
        assert a[..k + 1] == [a[0]] + a'[..k] && b[..k + 1] == [b[0]] + b'[..k];
        assert DiffersAt(a, b, k + 1);
      }
      if k: nat :| DiffersAt(a, b, k) {
        assert a'[..k - 1] == a[..k][1..] && b'[..k - 1] == b[..k][1..];
        assert DiffersAt(a', b', k - 1);
      }
    }
  }

  predicate Sorted(names: seq<Name>)
  {
    forall i, j | 0 <= i < j < |names| :: StrCmp(names[i].name, names[j].name) < 0
  }

  /** The names of other handles. */
  function Without(names: seq<Name>, handle: nat): (r: seq<Name>)
    ensures |r| <= |names|
    ensures forall x :: x in r <==> x in names && x.handle != handle
  {
    if names == [] then []
    else
      var x := names[|names| - 1];
      assert names == names[..|names| - 1] + [x];
      Without(names[..|names| - 1], handle) + (if x.handle == handle then [] else [x])
  }

  lemma WithoutNone(handle: nat)
    ensures Without([], handle) == []
  {
  }

  lemma WithoutNext(names: seq<Name>, i: nat, handle: nat)
    requires i < |names|
    ensures names[i].handle == handle ==> Without(names[..i + 1], handle) == Without(names[..i], handle)
    ensures names[i].handle != handle ==> Without(names[..i + 1], handle) == Without(names[..i], handle) + [names[i]]
  {
    assert names[..i + 1][..i] == names[..i];
  }

  lemma {:induction false} WithoutSorted(names: seq<Name>, handle: nat)
    requires Sorted(names)
    ensures Sorted(Without(names, handle))
  {
    if names != [] {
      var init, x := names[..|names| - 1], names[|names| - 1];
      WithoutSorted(init, handle);
      var r := Without(init, handle);
      forall i | 0 <= i < |r| ensures StrCmp(r[i].name, x.name) < 0 {
        assert r[i] in init;
        var k :| 0 <= k < |init| && init[k] == r[i];
        assert names[k] == r[i];
      }
    }
  }

  lemma Unnamed(names: seq<Name>, name: string, p: nat)
    requires Sorted(names) && p <= |names|
    requires forall k | 0 <= k < p :: StrCmp(names[k].name, name) < 0
    requires forall k | p <= k < |names| :: StrCmp(names[k].name, name) > 0
    ensures forall k | 0 <= k < |names| :: names[k].name != name
  {
    forall k | 0 <= k < |names| ensures names[k].name != name { StrCmpOrder(names[k].name, name, name); }
  }

  lemma SortedInsert(names: seq<Name>, x: Name, p: nat)
    requires Sorted(names) && p <= |names|
    requires forall k | 0 <= k < p :: StrCmp(names[k].name, x.name) < 0
    requires forall k | p <= k < |names| :: StrCmp(names[k].name, x.name) > 0
    ensures Sorted(names[..p] + [x] + names[p..])
    ensures forall y :: y in names[..p] + [x] + names[p..] <==> y in names || y == x
  {
    var r := names[..p] + [x] + names[p..];
    assert names == names[..p] + names[p..];
    forall i, j | 0 <= i < j < |r| ensures StrCmp(r[i].name, r[j].name) < 0 {
      if j > p { StrCmpOrder(x.name, r[j].name, x.name); }
    }
  }

  class Storage {
    var slot: array<Entry>
    var handleIndex: nat
    const harbor: nat
    var name: array<Name>
    var nameCount: nat
    /** The table has two to the power of this many slots. */
    ghost var bits: nat

    ghost predicate Valid()
      reads this, slot, name
    {
      && 2 <= bits <= 24 && slot.Length == Two(bits) && harbor % SPACE == 0 && handleIndex <= SPACE
      && Placed(slot[..]) && nameCount <= name.Length && name.Length > 0 && Sorted(Names())
    }

    ghost function Slots(): seq<Entry>
      reads `slot, slot
    {
      slot[..]
    }

    ghost function Names(): seq<Name>
      reads `nameCount, `name, name
    {
      if nameCount <= name.Length then name[..nameCount] else []
    }

    /** skynet_handle_init. */
    constructor (harborId: nat)
      requires harborId < 256
      ensures Valid() && Names() == [] && handleIndex == 1 && harbor == harborId * SPACE
      ensures forall h, c :: !Bound(Slots(), h, c)
      ensures fresh(slot) && fresh(name)
    {
      slot := new Entry[4](_ => Free);
      harbor := harborId * SPACE;
      handleIndex, nameCount, bits := 1, 0, DEFAULT_SLOT_BITS;
      name := new Name[2](_ => Name("", 0));
      new;
      Division(harborId * SPACE, SPACE, harborId, 0);
      assert Two(2) == 4;
    }

    /** How many handles have to be skipped; all when the table is full. */
    method Scan() returns (i: nat)
      requires Valid()
      ensures i == Probe(Slots(), handleIndex, 0)
    {
      i := 0;
      while i < slot.Length && slot[(i + handleIndex) % SPACE % slot.Length].Held?
        invariant i <= slot.Length && Probe(Slots(), handleIndex, 0) == Probe(Slots(), handleIndex, i)
      {
        i := i + 1;
      }
    }

    /** Move to a table of twice the size; no two contexts meet in a slot. */
    method Grow()
      requires Valid() && Full(Slots()) && slot.Length * 2 - 1 <= HANDLE_MASK
      modifies this
      ensures Valid() && Slots() == Doubled(old(Slots())) && fresh(slot)
      ensures handleIndex == old(handleIndex) && name == old(name) && nameCount == old(nameCount)
    {
      hide Two, Full, Placed, DoubledTo, Sorted;
      var n := slot.Length;
      ghost var was := slot[..];
      var newSlot := new Entry[2 * n](_ => Free);
      NothingDoubled(was, newSlot[..]);
      var i := 0;
      while i < n
        modifies newSlot
        invariant 0 <= i <= n && newSlot[..] == DoubledTo(was, i)
      {
        AllHeld(was, i);
        DoubledNext(was, i);
        var hash := slot[i].handle % (2 * n);
        assert newSlot[hash] == Free;
        newSlot[hash] := slot[i];
        i := i + 1;
      }
      DoubledHolds(was);
      GrownBits(bits, n);
      slot := newSlot;
      bits := bits + 1;
    }

    lemma GrownBits(bits: nat, n: nat)
      requires n == Two(bits) && 2 * n - 1 <= HANDLE_MASK
      ensures 2 * n == Two(bits + 1) && bits < 24
    {
      SpaceIsTwo();
      if bits >= 24 { TwoOrder(24, bits); }
    }

    /** How many handles have to be skipped, in a table of twice the size when this one is full. */
    method ScanWithRoom() returns (i: nat)
      requires Valid() && Count(Slots()) < SPACE
      modifies this
      ensures Valid() && (slot == old(slot) || fresh(slot))
      ensures Slots() == if Full(old(Slots())) then Doubled(old(Slots())) else old(Slots())
      ensures i == Probe(Slots(), handleIndex, 0) < |Slots()| && handleIndex == old(handleIndex)
      ensures forall h, c :: Bound(Slots(), h, c) <==> Bound(old(Slots()), h, c)
      ensures Names() == old(Names()) && name == old(name)
    {
      hide Two, Full, Placed, DoubledTo, Doubled, Sorted, Probe, Bound;
      i := Scan();
      ghost var was := slot[..];
      if i == slot.Length {
        AllProbed(was, handleIndex, bits);
        RoomToGrow(was, bits);
        DoubledHolds(was);
        Grow();
        i := Scan();
        HalfFree(was, handleIndex, bits);
      } else {
        NotFull(was, handleIndex);
      }
    }

    /** Put a context into the free slot of a handle. */
    method Store(ctx: nat, low: nat, handle: nat)
      requires Valid() && low < SPACE && slot[low % slot.Length].Free? && handle == harbor + low
      modifies slot, `handleIndex
      ensures Valid() && handleIndex == low + 1 && Names() == old(Names())
      ensures forall c :: !Bound(old(Slots()), handle, c)
      ensures forall h, c :: Bound(Slots(), h, c) <==> Bound(old(Slots()), h, c) || (h == handle && c == ctx)
    {
      hide Two, Full, Placed, Sorted, Bound;
      ghost var before := slot[..];
      var hash := low % slot.Length;
      HarborBits(harbor, low, bits);
      Stored(before, hash, ctx, handle);
      slot[hash] := Held(ctx, handle);
      handleIndex := low + 1;
      assert slot[..] == before[hash := Held(ctx, handle)];
    }

    /** The slot that is found is free. */
    lemma FoundFree(i: nat)
      requires Valid() && i == Probe(Slots(), handleIndex, 0) < |Slots()|
      ensures var low := (i + handleIndex) % SPACE; slot[low % slot.Length].Free? && low == Given(Slots(), handleIndex)
    {
      FirstFree(Slots(), handleIndex, 0);
    }

    /**
     * skynet_handle_register: the first free handle from the index on, in a table of twice the size when there is none.
     * The assertion on the size holds while fewer contexts are registered than there are handles.
     */
    method Register(ctx: nat) returns (handle: nat)
      requires Valid() && Count(Slots()) < SPACE
      modifies this, slot
      ensures Valid() && (slot == old(slot) || fresh(slot))
      ensures var before := if Full(old(Slots())) then Doubled(old(Slots())) else old(Slots());
              handle == harbor + Given(before, old(handleIndex)) && handleIndex == handle - harbor + 1
      ensures forall c :: !Bound(old(Slots()), handle, c)
      ensures forall h, c :: Bound(Slots(), h, c) <==> Bound(old(Slots()), h, c) || (h == handle && c == ctx)
      ensures Names() == old(Names()) && name == old(name)
    {
      hide Valid, Full, Doubled, Probe, Bound, Given, Names, Slots;
      var i := ScanWithRoom();
      FoundFree(i);
      var low := (i + handleIndex) % SPACE;
      handle := harbor + low;
      Store(ctx, low, handle);
    }

    /** skynet_handle_grab, and the search of skynet_handle_retire: the context of a handle, if it is registered. */
    method Grab(handle: nat) returns (r: Option)
      requires Valid()
      ensures r == None ==> forall c :: !Bound(Slots(), handle, c)
      ensures r.Some? ==> forall c :: Bound(Slots(), handle, c) <==> c == r.value
    {
      hide Two, Sorted;
      SlotsThere(bits);
      var x := slot[handle % slot.Length];
      forall c: nat ensures Bound(Slots(), handle, c) <==> x == Held(c, handle) { BoundAt(slot[..], handle, c); }
      hide Bound;
      if x.Held? && x.handle == handle { return Some(x.ctx); }
      return None;
    }

    lemma SlotsThere(bits: nat)
      ensures Two(bits) > 0
    {
    }

    /** skynet_handle_retire: a registered handle goes, with its names. */
    method Retire(handle: nat) returns (gone: Option)
      requires Valid()
      modifies slot, name, `nameCount
      ensures Valid() && (gone == None <==> forall c :: !Bound(old(Slots()), handle, c))
      ensures gone.Some? ==> Bound(old(Slots()), handle, gone.value)
      ensures forall h, c :: Bound(Slots(), h, c) <==> Bound(old(Slots()), h, c) && h != handle
      ensures Names() == if gone == None then old(Names()) else Without(old(Names()), handle)
      ensures handleIndex == old(handleIndex)
    {
      hide *;
      gone := Grab(handle);
      assert Slots() == old(Slots()) && Names() == old(Names());
      if gone.Some? {
        assert Bound(Slots(), handle, gone.value);
        Vacate(handle, gone.value);
        RemoveNames(handle);
      }
    }

    method Vacate(handle: nat, ghost ctx: nat)
      requires Valid() && Bound(Slots(), handle, ctx)
      modifies slot
      ensures Valid() && Names() == old(Names())
      ensures forall h, c :: Bound(Slots(), h, c) <==> Bound(old(Slots()), h, c) && h != handle
    {
      hide Two, Sorted, Bound;
      SlotsThere(bits);
      ghost var was := slot[..];
      Vacated(was, handle, ctx);
      hide Placed;
      slot[handle % slot.Length] := Free;
      assert slot[..] == was[handle % |was| := Free];
    }

    /** Close the gaps that the names of a handle leave. */
    method RemoveNames(handle: nat)
      requires Valid()
      modifies name, `nameCount
      ensures Valid() && Names() == Without(old(Names()), handle)
    {
      hide Without, Sorted, Placed, Two, Names;
      NamesSorted();
      WithoutSorted(Names(), handle);
      Compact(handle);
    }

    lemma NamesSorted()
      requires Valid()
      ensures nameCount <= name.Length && Sorted(Names())
    {
    }

    method Compact(handle: nat)
      requires nameCount <= name.Length
      modifies name, `nameCount
      ensures nameCount <= name.Length && Names() == Without(old(Names()), handle)
    {
      hide Without;
      ghost var was := Names();
      var i, j, n := 0, 0, nameCount;
      WithoutNone(handle);
      while i < n
        modifies name
        invariant 0 <= j <= i <= n <= name.Length
        invariant name[..j] == Without(was[..i], handle)
        invariant forall k | i <= k < n :: name[k] == was[k]
      {
        WithoutNext(was, i, handle);
        ghost var kept := name[..j];
        if name[i].handle != handle {
          if i != j { name[j] := name[i]; }
          assert name[..j + 1] == kept + [was[i]];
          j := j + 1;
        }
        i := i + 1;
      }
      assert was[..n] == was;
      nameCount := j;
    }

    /** Where a name is, or else where it belongs. */
    method Search(key: string) returns (found: bool, p: nat)
      requires Valid()
      ensures found ==> p < nameCount && Names()[p].name == key
      ensures !found ==> p <= nameCount
      ensures !found ==> forall k | 0 <= k < p :: StrCmp(Names()[k].name, key) < 0
      ensures !found ==> forall k | p <= k < nameCount :: StrCmp(Names()[k].name, key) > 0
    {
      hide Two, Placed;
      var begin: int, end: int := 0, nameCount - 1;
      while begin <= end
        invariant 0 <= begin <= end + 1 <= nameCount
        invariant forall k | 0 <= k < begin :: StrCmp(Names()[k].name, key) < 0
        invariant forall k | end < k < nameCount :: StrCmp(Names()[k].name, key) > 0
      {
        var mid := (begin + end) / 2;
        var c := StrCmp(name[mid].name, key);
        if c == 0 {
          StrCmpOrder(name[mid].name, key, key);
          return true, mid;
        }
        if c < 0 {
          forall k | begin <= k < mid ensures StrCmp(Names()[k].name, key) < 0 {
            StrCmpOrder(Names()[k].name, Names()[mid].name, key);
          }
          begin := mid + 1;
        } else {
          forall k | mid < k <= end ensures StrCmp(Names()[k].name, key) > 0 {
            StrCmpOrder(key, Names()[mid].name, Names()[k].name);
            StrCmpOrder(Names()[mid].name, key, key);
            StrCmpOrder(Names()[k].name, key, key);
          }
          end := mid - 1;
        }
      }
      return false, begin;
    }

    /** skynet_handle_findname: the handle of a name, or 0. */
    method FindName(key: string) returns (handle: nat)
      requires Valid()
      ensures Name(key, handle) in Names() || (handle == 0 && forall h :: Name(key, h) !in Names())
    {
      var found, p := Search(key);
      if found {
        assert Names()[p] == Name(key, name[p].handle);
        return name[p].handle;
      }
      Unnamed(Names(), key, p);
      return 0;
    }

    /** skynet_handle_namehandle: a name that is taken is refused. */
    method NameHandle(handle: nat, key: string) returns (ok: bool)
      requires Valid()
      modifies this, name
      ensures Valid() && Slots() == old(Slots()) && handleIndex == old(handleIndex) && (name == old(name) ||
              fresh(name))
      ensures ok <==> forall h :: Name(key, h) !in old(Names())
      ensures forall x :: x in Names() <==> x in old(Names()) || (ok && x == Name(key, handle))
    {
      ghost var names := Names();
      var found, p := Search(key);
      if found {
        assert names[p] == Name(key, names[p].handle);
        return false;
      }
      hide Two, Placed, Sorted, StrCmp;
      assert names == Names();
      var x := Name(key, handle);
      Unnamed(names, key, p);
      SortedInsert(names, x, p);
      InsertBefore(x, p);
      ok := true;
    }

    /** Put a name in front of another. */
    method InsertBefore(x: Name, before: nat)
      requires before <= nameCount <= name.Length && name.Length > 0
      modifies `name, `nameCount, name
      ensures nameCount <= name.Length && name.Length > 0 && (name == old(name) || fresh(name))
      ensures Names() == old(Names())[..before] + [x] + old(Names())[before..]
    {
      ghost var was := Names();
      MakeRoom(x, before);
      name[before] := x;
      nameCount := nameCount + 1;
      InsertedList(was, name[..nameCount], before, x);
    }

    /** Make room for a name, in an array of twice the size when there is none. */
    method MakeRoom(x: Name, before: nat)
      requires before <= nameCount <= name.Length && name.Length > 0
      modifies `name, name
      ensures nameCount < name.Length && (name == old(name) || fresh(name))
      ensures forall k | 0 <= k < before :: name[k] == old(name[k])
      ensures forall k | before < k <= nameCount :: name[k] == old(name[k - 1])
    {
      if nameCount >= name.Length {
        var n := new Name[name.Length * 2](_ => x);
        forall i | 0 <= i < before { n[i] := name[i]; }
        forall i | before < i <= nameCount { n[i] := name[i - 1]; }
        name := n;
      } else {
        var i := nameCount;
        while i > before
          modifies name
          invariant before <= i <= nameCount
          invariant forall k | 0 <= k < i :: name[k] == old(name[k])
          invariant forall k | i < k <= nameCount :: name[k] == old(name[k - 1])
        {
          name[i] := name[i - 1];
          i := i - 1;
        }
      }
    }
  }

  lemma InsertedList(was: seq<Name>, now: seq<Name>, before: nat, x: Name)
    requires before <= |was| && |now| == |was| + 1 && now[before] == x
    requires forall k | 0 <= k < before :: now[k] == was[k]
    requires forall k | before < k <= |was| :: now[k] == was[k - 1]
    ensures now == was[..before] + [x] + was[before..]
  {
  }

  /** Freeing the slot of a handle. */
  lemma Vacated(was: seq<Entry>, handle: nat, ctx: nat)
    requires Placed(was) && |was| > 0 && Bound(was, handle, ctx)
    ensures var after := was[handle % |was| := Free];
            Placed(after) && forall h: nat, c: nat :: Bound(after, h, c) <==> Bound(was, h, c) && h != handle
  {
    var after := was[handle % |was| := Free];
    BoundAt(was, handle, ctx);
    forall h: nat, c: nat ensures Bound(after, h, c) <==> Bound(was, h, c) && h != handle {
      BoundAt(was, h, c);
      BoundAt(after, h, c);
    }
  }

  /** A full table with a handle left has not reached its largest size. */
  lemma RoomToGrow(slots: seq<Entry>, bits: nat)
    requires Full(slots) && |slots| == Two(bits) && bits <= 24 && Count(slots) < SPACE
    ensures |slots| * 2 - 1 <= HANDLE_MASK && |slots| > 0
  {
    FullCount(slots);
    SpaceIsTwo();
    TwoOrder(bits, 23);
  }

  lemma NotFull(slots: seq<Entry>, index: nat)
    requires Probe(slots, index, 0) < |slots|
    ensures !Full(slots)
  {
    FirstFree(slots, index, 0);
  }

  /** A table just doubled is not full. */
  lemma HalfFree(was: seq<Entry>, index: nat, bits: nat)
    requires 1 <= bits <= 24 && |Doubled(was)| == Two(bits) && Placed(was) && |was| > 0
    ensures Probe(Doubled(was), index, 0) < |Doubled(was)|
  {
    var n, d := |was|, Doubled(was);
    if Probe(d, index, 0) == |d| {
      AllProbed(d, index, bits);
      assert d[0].Held? && d[n].Held?;
      Division(n, n, 1, 0);
    }
  }

  /** Storing a context in a free slot. */
  lemma Stored(before: seq<Entry>, hash: nat, ctx: nat, handle: nat)
    requires Placed(before) && hash < |before| && before[hash].Free? && handle % |before| == hash
    ensures var after := before[hash := Held(ctx, handle)];
            && Placed(after) && (forall c :: !Bound(before, handle, c))
            && forall h, c :: Bound(after, h, c) <==> Bound(before, h, c) || (h == handle && c == ctx)
  {
    var after := before[hash := Held(ctx, handle)];
    forall h, c ensures Bound(after, h, c) <==> Bound(before, h, c) || (h == handle && c == ctx) {
      BoundAt(before, h, c);
      BoundAt(after, h, c);
    }
    forall c ensures !Bound(before, handle, c) { BoundAt(before, handle, c); }
  }
}
