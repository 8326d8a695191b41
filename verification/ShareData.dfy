/** Tables flattened into an array part and a hash of chained slots, so that other states can read them. */
module ShareData {
  type Byte = x: nat | x < 256

  /** Keys; integer keys are kept as 32-bit ints, and tables as the empty string. */
  datatype Key = IntKey(n: int) | StrKey(s: seq<Byte>) | TableKey(table: nat)

  datatype Value = Integer(n: int) | Real(bits: nat) | Text(s: seq<Byte>) | Truth(b: bool) | Sub(table: nat)

  datatype Entry = Entry(key: Key, value: Value)

  datatype Option<T> = None | Some(value: T)

  /** A slot: empty, or an entry with its hash, the next slot of its chain and whether it has none beside it. */
  datatype Node = Empty | Node(entry: Entry, hash: nat, next: int, alone: bool)

  // ---------- Keys ----------

  /** A 64-bit integer stored as an int. */
  function Narrow(n: int): int
  {
    (n + 0x8000_0000) % 0x1_0000_0000 - 0x8000_0000
  }

  function NarrowKey(k: Key): Key
  {
    match k
    case IntKey(n) => IntKey(Narrow(n))
    case StrKey(_) => k
    case TableKey(_) => StrKey([])
  }

  /** Keys that are kept as they are. */
  predicate Fits(k: Key)
  {
    match k
    case IntKey(n) => -0x8000_0000 <= n < 0x8000_0000
    case StrKey(_) => true
    case TableKey(_) => false
  }

  lemma FitsExact(k: Key)
    ensures Fits(k) <==> NarrowKey(k) == k
    ensures Fits(k) ==> !k.TableKey?
    ensures Fits(NarrowKey(k))
  {
  }

  /** Different keys that cannot be told apart any more. */
  predicate Meets(a: Key, b: Key)
  {
    match a
    case IntKey(m) => b.IntKey? && m != b.n && (m - b.n) % 0x1_0000_0000 == 0
    case StrKey(s) => b.TableKey? && s == []
    case TableKey(_) => a != b && !b.IntKey? && (b.StrKey? ==> b.s == [])
  }

  lemma MeetsExact(a: Key, b: Key)
    ensures Meets(a, b) <==> a != b && NarrowKey(a) == NarrowKey(b)
  {
  }

  function Mix(h: bv32, c: Byte): bv32
  {
    h ^ ((h << 5) + (h >> 2) + (c as bv32))
  }

  /** calchash, from the character before `l1` down. */
  function HashFrom(h: bv32, s: seq<Byte>, l1: nat, step: nat): bv32
    requires l1 <= |s| && step > 0
    decreases l1
  {
    if l1 < step then h else HashFrom(Mix(h, s[l1 - 1]), s, l1 - step, step)
  }

  function CalcHash(s: seq<Byte>): nat
  {
    HashFrom((|s| % 0x1_0000_0000) as bv32, s, |s|, |s| / 32 + 1) as nat
  }

  function KeyHash(k: Key): nat
  {
    match k
    case IntKey(n) => n % 0x1_0000_0000
    case StrKey(s) => CalcHash(s)
    case TableKey(_) => CalcHash([])
  }

  /** calchash: from the last character down, not more than 32 of them. */
  method ComputeHash(str: seq<Byte>) returns (hash: nat)
    ensures hash == CalcHash(str)
  {
    hide Mix;
    var h: bv32 := (|str| % 0x1_0000_0000) as bv32;
    ghost var start := h;
    var step := |str| / 32 + 1;
    var l1 := |str|;
    while l1 >= step
      invariant 0 <= l1 <= |str|
      invariant HashFrom(h, str, l1, step) == HashFrom(start, str, |str|, step)
    {
      h := Mix(h, str[l1 - 1]);
      l1 := l1 - step;
    }
    return h as nat;
  }

  method HashOf(k: Key) returns (hash: nat)
    ensures hash == KeyHash(k)
  {
    match k
    case IntKey(n) => hash := n % 0x1_0000_0000;
    case StrKey(s) => hash := ComputeHash(s);
    case TableKey(_) => hash := ComputeHash([]);
  }

  /** The slot where a key belongs. */
  function Main(k: Key, n: nat): (q: nat)
    requires n > 0
    ensures q < n
  {
    KeyHash(k) % n
  }

  // ---------- The entries of a table ----------

  predicate DistinctKeys(entries: seq<Entry>)
  {
    forall i, j | 0 <= i < j < |entries| :: entries[i].key != entries[j].key
  }

  // ---------- Slots and chains ----------

  type Chains = seq<seq<nat>>

  /** The slot that comes next on a chain, or -1. */
  function After(c: seq<nat>, j: nat): int
  {
    if j + 1 < |c| then c[j + 1] else -1
  }

  /** The chain of a slot starts there and follows the links to its end; its entries all belong to the slot. */
  predicate ChainOK(ns: seq<Node>, c: seq<nat>, q: nat)
    requires q < |ns|
  {
    && |c| > 0 && c[0] == q && (forall i, j | 0 <= i < j < |c| :: c[i] != c[j])
    && (forall j | 0 <= j < |c| :: c[j] < |ns| && ns[c[j]].Node? && Main(ns[c[j]].entry.key, |ns|) == q)
    && (forall j | 0 <= j < |c| :: ns[c[j]].next == After(c, j))
    && (ns[q].alone ==> |c| == 1)
  }

  /** Every filled slot is on the chain of its main slot, with its hash. */
  predicate Linked(ns: seq<Node>, cs: Chains)
  {
    && |cs| == |ns|
    && (forall q | 0 <= q < |ns| && cs[q] != [] :: ChainOK(ns, cs[q], q))
    && (forall x | 0 <= x < |ns| && ns[x].Node? :: x in cs[Main(ns[x].entry.key, |ns|)])
    && (forall x | 0 <= x < |ns| && ns[x].Node? :: ns[x].hash == KeyHash(ns[x].entry.key))
  }

  predicate KeysOnce(ns: seq<Node>)
  {
    forall x, y | 0 <= x < y < |ns| && ns[x].Node? && ns[y].Node? :: ns[x].entry.key != ns[y].entry.key
  }

  predicate AllFilled(ns: seq<Node>)
  {
    forall x | 0 <= x < |ns| :: ns[x].Node?
  }

  /** Slots hold entries of the table only. */
  predicate From(ns: seq<Node>, entries: seq<Entry>)
  {
    forall x | 0 <= x < |ns| && ns[x].Node? :: ns[x].entry in entries
  }

  predicate Stored(ns: seq<Node>, e: Entry)
  {
    exists x :: 0 <= x < |ns| && ns[x].Node? && ns[x].entry == e
  }

  predicate Represents(ns: seq<Node>, cs: Chains, entries: seq<Entry>)
  {
    && |ns| == |entries| && DistinctKeys(entries) && Linked(ns, cs) && KeysOnce(ns) && From(ns, entries)
    && forall i | 0 <= i < |entries| :: Stored(ns, entries[i])
  }

  // ---------- Room for everything ----------

  /** The numbers below a bound. */
  function Below(n: nat): (s: set<nat>)
    ensures |s| == n && forall k: nat :: k in s <==> k < n
  {
    if n == 0 then {} else Below(n - 1) + {n - 1}
  }

  lemma {:induction false} Values(f: seq<nat>) returns (s: set<nat>)
    requires forall i, j | 0 <= i < j < |f| :: f[i] != f[j]
    ensures |s| == |f| && forall v :: v in s <==> v in f
    decreases |f|
  {
    if f == [] { s := {}; }
    else {
      var n := |f| - 1;
      var rest := Values(f[..n]);
      s := rest + {f[n]};
      assert f == f[..n] + [f[n]];
      assert f[n] !in f[..n];
    }
  }

  /** As many distinct numbers as there are below a bound are all of them. */
  lemma Pigeons(f: seq<nat>, v: nat)
    requires forall i, j | 0 <= i < j < |f| :: f[i] != f[j]
    requires forall i | 0 <= i < |f| :: f[i] < |f|
    requires v < |f|
    ensures v in f
  {
    var all := Below(|f|);
    var hit := Values(f);
    assert hit <= all;
    if v !in f {
      assert hit <= all - {v};
      Smaller(hit, all - {v});
    }
  }

  lemma {:induction false} Smaller(a: set<nat>, b: set<nat>)
    requires a <= b
    ensures |a| <= |b|
  {
    if a != {} {
      var x :| x in a;
      Smaller(a - {x}, b - {x});
    }
  }

  /** With everything stored, no slot is empty. */
  lemma AllFull(ns: seq<Node>, cs: Chains, entries: seq<Entry>, x: nat)
    requires Represents(ns, cs, entries) && x < |ns|
    ensures ns[x].Node?
  {
    if ns[x].Empty? {
      var f := seq(|entries|, i requires 0 <= i < |entries| => SlotOf(ns, entries[i]));
      forall i, j | 0 <= i < j < |entries| ensures f[i] != f[j] { assert entries[i] != entries[j]; }
      Pigeons(f, x);
    }
  }

  /** Where an entry is stored. */
  ghost function SlotOf(ns: seq<Node>, e: Entry): (x: nat)
    requires Stored(ns, e)
    ensures x < |ns| && ns[x].Node? && ns[x].entry == e
  {
    var x: nat :| x < |ns| && ns[x].Node? && ns[x].entry == e;
    x
  }

  // ---------- Filling slots ----------

  predicate Head(ns: seq<Node>, q: nat)
    requires |ns| > 0
  {
    q < |ns| && ns[q].Node? && Main(ns[q].entry.key, |ns|) == q
  }

  predicate OtherKey(ns: seq<Node>, x: nat, k: Key)
  {
    x < |ns| && ns[x].Node? && ns[x].entry.key != k
  }

  predicate Unknown(ns: seq<Node>, k: Key)
  {
    forall x | 0 <= x < |ns| && ns[x].Node? :: ns[x].entry.key != k
  }

  lemma NothingLinked(ns: seq<Node>)
    requires forall x | 0 <= x < |ns| :: ns[x].Empty?
    ensures Linked(ns, seq(|ns|, _ => []))
  {
  }

  /** An entry in its empty main slot starts a chain. */
  lemma StartChain(ns: seq<Node>, cs: Chains, e: Entry)
    requires |ns| > 0 && Linked(ns, cs) && ns[Main(e.key, |ns|)].Empty?
    ensures var q := Main(e.key, |ns|); Linked(ns[q := Node(e, KeyHash(e.key), -1, true)], cs[q := [q]])
  {
    hide KeyHash;
    var q := Main(e.key, |ns|);
    var ns', cs' := ns[q := Node(e, KeyHash(e.key), -1, true)], cs[q := [q]];
    hide Main;
    forall p | 0 <= p < |ns| && cs'[p] != [] ensures ChainOK(ns', cs'[p], p) {
      if p != q { assert ChainOK(ns, cs[p], p); }
    }
  }

  /** An entry in some other slot is linked in behind the main slot. */
  lemma ExtendChain(ns: seq<Node>, cs: Chains, e: Entry, x: nat)
    requires |ns| > 0 && Linked(ns, cs) && x < |ns| && ns[x].Empty?
    requires Head(ns, Main(e.key, |ns|))
    ensures var q := Main(e.key, |ns|);
            var ns1 := ns[x := Node(e, KeyHash(e.key), ns[q].next, false)];
            Linked(ns1[q := ns1[q].(next := x, alone := false)], cs[q := [q, x] + cs[q][1..]])
  {
    hide KeyHash;
    var q := Main(e.key, |ns|);
    var ns1 := ns[x := Node(e, KeyHash(e.key), ns[q].next, false)];
    var ns', cs' := ns1[q := ns1[q].(next := x, alone := false)], cs[q := [q, x] + cs[q][1..]];
    assert q in cs[q] && ChainOK(ns, cs[q], q);
    Extended(ns, cs[q], q, x, e, ns', cs'[q]);
    OtherChains(ns, cs, q, x, e, ns', cs');
    Reached(ns, cs, q, x, ns', cs');
  }

  lemma Reached(ns: seq<Node>, cs: Chains, q: nat, x: nat, ns': seq<Node>, cs': Chains)
    requires Linked(ns, cs) && q < |ns| && x < |ns| && ChainOK(ns, cs[q], q)
    requires |ns'| == |ns| && ns'[x].Node? && Main(ns'[x].entry.key, |ns|) == q
    requires forall y | 0 <= y < |ns| && y != x && ns'[y].Node? :: ns[y].Node? && ns'[y].entry == ns[y].entry
    requires cs' == cs[q := [q, x] + cs[q][1..]]
    ensures forall y | 0 <= y < |ns| && ns'[y].Node? :: y in cs'[Main(ns'[y].entry.key, |ns|)]
  {
    hide Main, KeyHash;
    forall y | 0 <= y < |ns| && ns'[y].Node? ensures y in cs'[Main(ns'[y].entry.key, |ns|)] {
      if y == x { assert cs'[q][1] == x; }
      else if y in cs[q] {
        var j :| 0 <= j < |cs[q]| && cs[q][j] == y;
        assert cs'[q][if j == 0 then 0 else j + 1] == y;
      }
    }
  }

  lemma ChainStep(ns: seq<Node>, c: seq<nat>, p: nat, j: nat)
    requires p < |ns| && ChainOK(ns, c, p) && j < |c|
    ensures c[j] < |ns| && ns[c[j]].Node? && Main(ns[c[j]].entry.key, |ns|) == p
    ensures ns[c[j]].next == if j + 1 < |c| then c[j + 1] else -1
  {
    hide KeyHash, Main;
    assert ns[c[j]].next == After(c, j);
  }

  lemma Extended(ns: seq<Node>, c: seq<nat>, q: nat, x: nat, e: Entry, ns': seq<Node>, c': seq<nat>)
    requires q < |ns| && x < |ns| && ns[x].Empty? && ChainOK(ns, c, q) && Main(e.key, |ns|) == q
    requires var ns1 := ns[x := Node(e, KeyHash(e.key), ns[q].next, false)];
             ns' == ns1[q := ns1[q].(next := x, alone := false)]
    requires c' == [q, x] + c[1..]
    ensures ChainOK(ns', c', q)
  {
    hide KeyHash, Main, After;
    Distinct(ns, c, q);
    ChainStep(ns, c, q, 0);
    forall j | 0 <= j < |c'|
      ensures c'[j] < |ns'| && ns'[c'[j]].Node?
      ensures Main(ns'[c'[j]].entry.key, |ns'|) == q
      ensures ns'[c'[j]].next == After(c', j)
    {
      ExtendedAt(ns, c, q, x, e, ns', c', j);
    }
    forall j | 0 <= j < |c| ensures c[j] != x { ChainStep(ns, c, q, j); }
  }

  lemma Distinct(ns: seq<Node>, c: seq<nat>, q: nat)
    requires q < |ns| && ChainOK(ns, c, q)
    ensures |c| > 0 && c[0] == q && forall i, j | 0 <= i < j < |c| :: c[i] != c[j]
  {
  }

  lemma ExtendedAt(ns: seq<Node>, c: seq<nat>, q: nat, x: nat, e: Entry, ns': seq<Node>, c': seq<nat>, j: nat)
    requires q < |ns| && x < |ns| && ns[x].Empty? && ChainOK(ns, c, q) && Main(e.key, |ns|) == q
    requires var ns1 := ns[x := Node(e, KeyHash(e.key), ns[q].next, false)];
             ns' == ns1[q := ns1[q].(next := x, alone := false)]
    requires |c| > 0 && c' == [q, x] + c[1..] && j < |c'|
    ensures c'[j] < |ns'| && ns'[c'[j]].Node? && Main(ns'[c'[j]].entry.key, |ns'|) == q
    ensures ns'[c'[j]].next == After(c', j)
  {
    hide KeyHash, Main, ChainOK;
    Distinct(ns, c, q);
    ChainStep(ns, c, q, 0);
    assert |c'| == |c| + 1 && forall k | 2 <= k < |c'| :: c'[k] == c[k - 1];
    if j >= 2 {
      ChainStep(ns, c, q, j - 1);
      assert c[0] != c[j - 1];
    }
  }

  lemma OtherChains(ns: seq<Node>, cs: Chains, q: nat, x: nat, e: Entry, ns': seq<Node>, cs': Chains)
    requires Linked(ns, cs) && q < |ns| && x < |ns| && ns[x].Empty? && ns[q].Node? && Main(ns[q].entry.key, |ns|) == q
    requires |ns'| == |ns| && forall y | 0 <= y < |ns| && y != q && y != x :: ns'[y] == ns[y]
    requires |cs'| == |cs| && forall p | 0 <= p < |ns| && p != q :: cs'[p] == cs[p]
    ensures forall p | 0 <= p < |ns| && p != q && cs'[p] != [] :: ChainOK(ns', cs'[p], p)
  {
    hide KeyHash, Main;
    forall p | 0 <= p < |ns| && p != q && cs'[p] != [] ensures ChainOK(ns', cs'[p], p) {
      var c := cs[p];
      assert ChainOK(ns, c, p);
      forall j | 0 <= j < |c| ensures ns'[c[j]] == ns[c[j]] { assert c[j] != x && c[j] != q; }
    }
  }

  // ---------- Tables ----------

  predicate AllFit(entries: seq<Entry>)
  {
    forall i | 0 <= i < |entries| :: Fits(entries[i].key)
  }

  /** ishashkey: whether an entry goes to the hash. */
  predicate Hashed(k: Key, size: nat)
  {
    k.IntKey? ==> !(0 < k.n <= size)
  }

  /** The entries kept in the hash. */
  function HashPart(entries: seq<Entry>, size: nat): seq<Entry>
  {
    if entries == [] then []
    else
      var n := |entries| - 1;
      HashPart(entries[..n], size) + if Hashed(entries[n].key, size) then [entries[n]] else []
  }

  /** What a table holds at a key. */
  function Find(entries: seq<Entry>, k: Key): Option<Value>
  {
    if entries == [] then None
    else
      var n := |entries| - 1;
      if entries[n].key == k then Some(entries[n].value) else Find(entries[..n], k)
  }

  lemma {:induction false} FindIn(entries: seq<Entry>, k: Key)
    ensures Find(entries, k).Some? ==> Entry(k, Find(entries, k).value) in entries
    ensures Find(entries, k).None? ==> forall i | 0 <= i < |entries| :: entries[i].key != k
    ensures forall i | 0 <= i < |entries| && DistinctKeys(entries) && entries[i].key == k ::
              Find(entries, k) == Some(entries[i].value)
  {
    if entries != [] {
      var n := |entries| - 1;
      FindIn(entries[..n], k);
      assert entries == entries[..n] + [entries[n]];
      assert DistinctKeys(entries) ==> DistinctKeys(entries[..n]);
    }
  }

  lemma {:induction false} InHashPart(entries: seq<Entry>, size: nat, e: Entry)
    ensures e in HashPart(entries, size) <==> e in entries && Hashed(e.key, size)
  {
    if entries != [] {
      var n := |entries| - 1;
      InHashPart(entries[..n], size, e);
      assert entries == entries[..n] + [entries[n]];
    }
  }

  lemma {:induction false} PartDistinct(entries: seq<Entry>, size: nat)
    requires DistinctKeys(entries)
    ensures DistinctKeys(HashPart(entries, size))
  {
    if entries != [] {
      var n := |entries| - 1;
      PartDistinct(entries[..n], size);
      var h := HashPart(entries[..n], size);
      forall i | 0 <= i < |h| ensures h[i].key != entries[n].key {
        InHashPart(entries[..n], size, h[i]);
        var j :| 0 <= j < n && entries[j] == h[i];
      }
    }
  }

  lemma {:induction false} HashIndices(entries: seq<Entry>, size: nat) returns (s: set<nat>)
    ensures |s| == |HashPart(entries, size)|
    ensures forall j: nat :: j in s <==> j < |entries| && Hashed(entries[j].key, size)
  {
    if entries == [] { s := {}; }
    else {
      assert forall j: nat | j < |entries| - 1 :: entries[..|entries| - 1][j] == entries[j];
      var n := |entries| - 1;
      s := HashIndices(entries[..n], size);
      if Hashed(entries[n].key, size) { s := s + {n}; }
    }
  }

  // ---------- What the cut does ----------

  /** The entries as they are stored. */
  function Cut(entries: seq<Entry>): (es: seq<Entry>)
    ensures |es| == |entries|
    ensures forall i | 0 <= i < |es| :: es[i] == Entry(NarrowKey(entries[i].key), entries[i].value)
  {
    seq(|entries|, i requires 0 <= i < |entries| => Entry(NarrowKey(entries[i].key), entries[i].value))
  }

  /** A key counted for the hash that the cut moves into the array. */
  predicate IntoArray(k: Key, size: nat)
  {
    k.IntKey? && Hashed(k, size) && 0 < k.n % 0x1_0000_0000 <= size
  }

  lemma IntoArrayExact(k: Key, size: nat)
    requires size < 0x8000_0000
    ensures IntoArray(k, size) <==> Hashed(k, size) && !Hashed(NarrowKey(k), size)
    ensures !Hashed(k, size) ==> NarrowKey(k) == k
  {
  }

  /** No keys meet, and none is moved into the array. */
  predicate CutSafe(entries: seq<Entry>, size: nat)
  {
    && (forall i, j | 0 <= i < j < |entries| :: !Meets(entries[i].key, entries[j].key))
    && forall i | 0 <= i < |entries| :: !IntoArray(entries[i].key, size)
  }

  lemma CutDistinct(entries: seq<Entry>)
    requires DistinctKeys(entries)
    ensures DistinctKeys(Cut(entries)) <==>
            forall i, j | 0 <= i < j < |entries| :: !Meets(entries[i].key, entries[j].key)
  {
    hide NarrowKey, Meets;
    forall i, j | 0 <= i < j < |entries|
      ensures Meets(entries[i].key, entries[j].key) <==> Cut(entries)[i].key == Cut(entries)[j].key
    {
      MeetsExact(entries[i].key, entries[j].key);
    }
  }

  /** A table whose keys all fit is kept as it is, and only such a table is. */
  lemma {:induction false} CutSame(entries: seq<Entry>)
    ensures AllFit(Cut(entries))
    ensures Cut(entries) == entries <==> AllFit(entries)
    ensures multiset(Cut(entries)) == multiset(entries) <==> AllFit(entries)
  {
    hide NarrowKey, Fits;
    var es := Cut(entries);
    forall i | 0 <= i < |entries| ensures Fits(es[i].key) && (Fits(entries[i].key) <==> es[i] == entries[i]) {
      FitsExact(entries[i].key);
    }
    if multiset(es) == multiset(entries) {
      forall i | 0 <= i < |entries| ensures Fits(entries[i].key) {
        assert entries[i] in multiset(es);
        var j :| 0 <= j < |es| && es[j] == entries[i];
      }
    }
  }

  /** Tables whose keys fit are safe. */
  lemma FitIsSafe(entries: seq<Entry>, size: nat)
    requires AllFit(entries) && DistinctKeys(entries) && size < 0x8000_0000
    ensures CutSafe(entries, size)
  {
    hide NarrowKey, Fits, Meets, IntoArray;
    CutSame(entries);
    CutDistinct(entries);
    forall i | 0 <= i < |entries| ensures !IntoArray(entries[i].key, size) {
      FitsExact(entries[i].key);
      IntoArrayExact(entries[i].key, size);
    }
  }

  /** Reading is right for a key exactly when no other key of the table meets it. */
  lemma ReadExact(entries: seq<Entry>, k: Key)
    requires DistinctKeys(entries) && DistinctKeys(Cut(entries))
    ensures Find(Cut(entries), NarrowKey(k)) == Find(entries, k) <==>
            forall i | 0 <= i < |entries| :: !Meets(entries[i].key, k)
  {
    hide NarrowKey, Meets, Find, DistinctKeys;
    var es := Cut(entries);
    FindIn(entries, k);
    FindIn(es, NarrowKey(k));
    forall i | 0 <= i < |entries| ensures Meets(entries[i].key, k) <==>
        entries[i].key != k && es[i].key == NarrowKey(k) {
      MeetsExact(entries[i].key, k);
    }
    if Find(entries, k).Some? {
      var i :| 0 <= i < |entries| && entries[i] == Entry(k, Find(entries, k).value);
      assert es[i].key == NarrowKey(k);
    }
    if Find(es, NarrowKey(k)).Some? {
      var i :| 0 <= i < |es| && es[i] == Entry(NarrowKey(k), Find(es, NarrowKey(k)).value);
      if entries[i].key != k {
        OtherRead(entries, k, i);
        assert Meets(entries[i].key, k);
      } else {
        assert es[i].value == entries[i].value;
        forall j | 0 <= j < |entries| ensures !Meets(entries[j].key, k) {
          if Meets(entries[j].key, k) { OtherRead(entries, k, j); }
        }
      }
    }
  }

  lemma OtherRead(entries: seq<Entry>, k: Key, i: nat)
    requires DistinctKeys(Cut(entries)) && i < |entries| && entries[i].key != k
    requires Cut(entries)[i].key == NarrowKey(k)
    ensures Find(entries, k) == None
  {
    hide NarrowKey;
    FindIn(entries, k);
    var es := Cut(entries);
    forall j | 0 <= j < |entries| ensures entries[j].key != k {
      if j != i { assert es[j].key != es[i].key; }
    }
  }

  // ---------- The two passes over the entries ----------

  /** Which entry each filled slot comes from; no entry fills two slots. */
  predicate Comes(ns: seq<Node>, os: seq<nat>, es: seq<Entry>, size: nat)
  {
    && |os| == |ns|
    && (forall x | 0 <= x < |ns| && ns[x].Node? ::
          os[x] < |es| && es[os[x]] == ns[x].entry && Hashed(es[os[x]].key, size))
    && forall x, y | 0 <= x < y < |ns| && ns[x].Node? && ns[y].Node? :: os[x] != os[y]
  }

  /** Every slot filled so far is the main slot of its entry, and the main slots of the entries seen are filled. */
  predicate FirstPass(ns: seq<Node>, cs: Chains, os: seq<nat>, es: seq<Entry>, size: nat, i: nat)
    requires |ns| > 0 && i <= |es|
  {
    && Linked(ns, cs) && Comes(ns, os, es, size)
    && (forall x | 0 <= x < |ns| && ns[x].Node? :: os[x] < i && Main(ns[x].entry.key, |ns|) == x)
    && (forall j | 0 <= j < i && Hashed(es[j].key, size) :: Head(ns, Main(es[j].key, |ns|)))
  }

  function Placed(ns: seq<Node>, e: Entry): seq<Node>
    requires |ns| > 0
  {
    ns[Main(e.key, |ns|) := Node(e, KeyHash(e.key), -1, true)]
  }

  lemma PartGrows(entries: seq<Entry>, size: nat, i: nat)
    requires i < |entries|
    ensures HashPart(entries[..i + 1], size) ==
            HashPart(entries[..i], size) + if Hashed(entries[i].key, size) then [entries[i]] else []
  {
    assert entries[..i + 1][..i] == entries[..i];
  }

  lemma FirstStep(ns: seq<Node>, cs: Chains, os: seq<nat>, es: seq<Entry>, size: nat, i: nat)
    requires |ns| > 0 && i < |es| && FirstPass(ns, cs, os, es, size, i)
    ensures !Hashed(es[i].key, size) ==> FirstPass(ns, cs, os, es, size, i + 1)
    ensures Hashed(es[i].key, size) ==>
              var q := Main(es[i].key, |ns|);
              if ns[q].Empty? then FirstPass(Placed(ns, es[i]), cs[q := [q]], os[q := i], es, size, i + 1)
              else FirstPass(ns, cs, os, es, size, i + 1)
  {
    hide Linked, Main, KeyHash;
    var e := es[i];
    if Hashed(e.key, size) {
      var q := Main(e.key, |ns|);
      if ns[q].Empty? {
        StartChain(ns, cs, e);
        var ns' := Placed(ns, e);
        forall j | 0 <= j < i + 1 && Hashed(es[j].key, size) ensures Head(ns', Main(es[j].key, |ns|)) {
          if j < i { assert Head(ns, Main(es[j].key, |ns|)); }
        }
      }
    }
  }

  /** A key kept outside its main slot is not also in it. */
  predicate KeptOutside(ns: seq<Node>)
  {
    forall x | 0 <= x < |ns| && ns[x].Node? && x != Main(ns[x].entry.key, |ns|) ::
      OtherKey(ns, Main(ns[x].entry.key, |ns|), ns[x].entry.key)
  }

  /** The keys seen are stored; what comes later is only in main slots, which are all filled. */
  predicate SecondPass(ns: seq<Node>, cs: Chains, os: seq<nat>, es: seq<Entry>, size: nat, i: nat)
    requires |ns| > 0 && i <= |es|
  {
    && Linked(ns, cs) && Comes(ns, os, es, size) && KeptOutside(ns)
    && (forall j | 0 <= j < |es| && Hashed(es[j].key, size) :: Head(ns, Main(es[j].key, |ns|)))
    && (forall j | 0 <= j < i && Hashed(es[j].key, size) :: !Unknown(ns, es[j].key))
    && (forall x | 0 <= x < |ns| && ns[x].Node? && os[x] >= i :: x == Main(ns[x].entry.key, |ns|))
  }

  lemma FirstNothing(ns: seq<Node>, cs: Chains, os: seq<nat>, es: seq<Entry>, size: nat)
    requires |ns| > 0 && Linked(ns, cs) && |os| == |ns| && forall x | 0 <= x < |ns| :: ns[x].Empty?
    ensures FirstPass(ns, cs, os, es, size, 0)
  {
  }

  lemma FirstLengths(ns: seq<Node>, cs: Chains, os: seq<nat>, es: seq<Entry>, size: nat, i: nat)
    requires |ns| > 0 && i <= |es| && FirstPass(ns, cs, os, es, size, i)
    ensures |cs| == |os| == |ns|
  {
  }

  lemma FindSkips(entries: seq<Entry>, i: nat, size: nat)
    requires i < |entries| && Hashed(entries[i].key, size)
    ensures forall k | !Hashed(k, size) :: Find(entries[..i + 1], k) == Find(entries[..i], k)
  {
    assert entries[..i + 1][..i] == entries[..i];
  }

  lemma PassesMeet(ns: seq<Node>, cs: Chains, os: seq<nat>, es: seq<Entry>, size: nat)
    requires |ns| > 0 && FirstPass(ns, cs, os, es, size, |es|)
    ensures SecondPass(ns, cs, os, es, size, 0)
  {
    hide Main, KeyHash, Linked;
  }

  /** An entry whose main slot holds another key fills no slot yet. */
  lemma NotPlaced(ns: seq<Node>, cs: Chains, os: seq<nat>, es: seq<Entry>, size: nat, i: nat)
    requires |ns| > 0 && i < |es| && SecondPass(ns, cs, os, es, size, i)
    requires OtherKey(ns, Main(es[i].key, |ns|), es[i].key)
    ensures forall x | 0 <= x < |ns| && ns[x].Node? :: os[x] != i
  {
    hide Main, KeyHash, Linked;
  }

  /** Such an entry finds an empty slot, since there is one for each key counted. */
  lemma RoomLeft(ns: seq<Node>, cs: Chains, os: seq<nat>, entries: seq<Entry>, size: nat, i: nat)
    requires |ns| > 0 && i < |entries| && SecondPass(ns, cs, os, Cut(entries), size, i) && size < 0x8000_0000
    requires Hashed(Cut(entries)[i].key, size) && |ns| == |HashPart(entries, size)|
    requires OtherKey(ns, Main(Cut(entries)[i].key, |ns|), Cut(entries)[i].key)
    ensures !AllFilled(ns)
  {
    hide Main, KeyHash, Linked, NarrowKey;
    NotPlaced(ns, cs, os, Cut(entries), size, i);
    IntoArrayExact(entries[i].key, size);
    if AllFilled(ns) {
      CoversAll(ns, os, entries, size, i);
    }
  }

  /** When no slot is empty, every entry counted for the hash fills one. */
  lemma CoversAll(ns: seq<Node>, os: seq<nat>, entries: seq<Entry>, size: nat, i: nat)
    requires Comes(ns, os, Cut(entries), size) && AllFilled(ns) && |ns| == |HashPart(entries, size)|
    requires i < |entries| && Hashed(entries[i].key, size) && size < 0x8000_0000
    ensures i in os
  {
    hide NarrowKey;
    assert forall x, y | 0 <= x < y < |os| :: ns[x].Node? && ns[y].Node?;
    var hit := Values(os);
    var all := HashIndices(entries, size);
    forall v: nat | v in hit ensures v in all && v < |entries| {
      var x :| 0 <= x < |os| && os[x] == v;
      assert ns[x].Node?;
      IntoArrayExact(entries[v].key, size);
    }
    if i !in os {
      assert hit <= all - {i};
      Smaller(hit, all - {i});
    }
  }

  function Behind(ns: seq<Node>, e: Entry, x: nat): (ns': seq<Node>)
    requires |ns| > 0 && x < |ns| && Head(ns, Main(e.key, |ns|)) && ns[x].Empty?
    ensures |ns'| == |ns|
  {
    var q := Main(e.key, |ns|);
    var ns1 := ns[x := Node(e, KeyHash(e.key), ns[q].next, false)];
    ns1[q := ns1[q].(next := x, alone := false)]
  }

  lemma BehindKeeps(ns: seq<Node>, e: Entry, x: nat)
    requires |ns| > 0 && x < |ns| && Head(ns, Main(e.key, |ns|)) && ns[x].Empty?
    ensures var ns' := Behind(ns, e, x);
            && ns'[x].Node? && ns'[x].entry == e
            && (forall y | 0 <= y < |ns| && y != x :: ns'[y].Node? == ns[y].Node?)
            && forall y | 0 <= y < |ns| && ns[y].Node? :: ns'[y].entry == ns[y].entry
  {
    hide Main, KeyHash;
  }

  lemma SecondStep(ns: seq<Node>, cs: Chains, os: seq<nat>, es: seq<Entry>, size: nat, i: nat, x: nat)
    requires |ns| > 0 && i < |es| && SecondPass(ns, cs, os, es, size, i)
    requires Hashed(es[i].key, size) && x < |ns| && ns[x].Empty? && OtherKey(ns, Main(es[i].key, |ns|), es[i].key)
    ensures var q := Main(es[i].key, |ns|);
            && Head(ns, q)
            && SecondPass(Behind(ns, es[i], x), cs[q := [q, x] + cs[q][1..]], os[x := i], es, size, i + 1)
  {
    hide Main, KeyHash, Linked;
    var e := es[i];
    var q := Main(e.key, |ns|);
    ExtendChain(ns, cs, e, x);
    NotPlaced(ns, cs, os, es, size, i);
    BehindKeeps(ns, e, x);
    var ns' := Behind(ns, e, x);
    hide Behind;
    forall j | 0 <= j < |es| && Hashed(es[j].key, size) ensures Head(ns', Main(es[j].key, |ns|)) {
      assert Head(ns, Main(es[j].key, |ns|));
    }
    forall j | 0 <= j < i + 1 && Hashed(es[j].key, size) ensures !Unknown(ns', es[j].key) {
      if j < i {
        var y: nat :| y < |ns| && ns[y].Node? && ns[y].entry.key == es[j].key;
        assert ns'[y].entry.key == es[j].key;
      } else {
        assert ns'[x].entry.key == es[j].key;
      }
    }
  }

  /** An entry found in its main slot needs nothing more. */
  lemma SecondSkip(ns: seq<Node>, cs: Chains, os: seq<nat>, es: seq<Entry>, size: nat, i: nat)
    requires |ns| > 0 && i < |es| && SecondPass(ns, cs, os, es, size, i)
    requires Hashed(es[i].key, size) ==>
               var q := Main(es[i].key, |ns|); ns[q].Node? && ns[q].entry.key == es[i].key
    ensures SecondPass(ns, cs, os, es, size, i + 1)
  {
    hide Main, KeyHash, Linked;
  }

  lemma SecondLinked(ns: seq<Node>, cs: Chains, os: seq<nat>, es: seq<Entry>, size: nat, i: nat)
    requires |ns| > 0 && i <= |es| && SecondPass(ns, cs, os, es, size, i)
    ensures Linked(ns, cs) && |os| == |ns|
  {
  }

  lemma MainFilled(ns: seq<Node>, cs: Chains, os: seq<nat>, es: seq<Entry>, size: nat, i: nat)
    requires |ns| > 0 && i < |es| && SecondPass(ns, cs, os, es, size, i) && Hashed(es[i].key, size)
    ensures Head(ns, Main(es[i].key, |ns|)) && ns[Main(es[i].key, |ns|)].Node?
  {
  }

  lemma MainIs(k: Key, n: nat)
    requires n > 0
    ensures Main(k, n) == KeyHash(k) % n
  {
  }

  lemma HeadIs(ns: seq<Node>, cs: Chains, q: nat)
    requires |ns| > 0 && Head(ns, q) && Linked(ns, cs)
    ensures q < |ns| == |cs| && ns[q].Node? && cs[q] != []
  {
  }

  /** What holds of the slots of every table, whatever its keys. */
  predicate Built(ns: seq<Node>, es: seq<Entry>, size: nat)
  {
    && (forall x | 0 <= x < |ns| && ns[x].Node? :: ns[x].entry in es && Hashed(ns[x].entry.key, size))
    && KeptOutside(ns)
    && forall j | 0 <= j < |es| && Hashed(es[j].key, size) && |ns| > 0 :: Head(ns, Main(es[j].key, |ns|))
  }

  /** With no keys lost by the cut, what is left after the passes is the table. */
  lemma SafeDone(ns: seq<Node>, cs: Chains, os: seq<nat>, entries: seq<Entry>, size: nat)
    requires |ns| > 0 && SecondPass(ns, cs, os, Cut(entries), size, |entries|) && DistinctKeys(entries)
    requires |ns| == |HashPart(entries, size)| && size < 0x8000_0000 && CutSafe(entries, size)
    ensures Represents(ns, cs, HashPart(Cut(entries), size))
  {
    hide Main, KeyHash, Linked, NarrowKey, Meets, IntoArray, Hashed, HashPart;
    var es := Cut(entries);
    var part := HashPart(es, size);
    CutDistinct(entries);
    PartDistinct(es, size);
    SameIndices(entries, size);
    forall x | 0 <= x < |ns| && ns[x].Node? ensures ns[x].entry in part { InHashPart(es, size, ns[x].entry); }
    forall i | 0 <= i < |part| ensures Stored(ns, part[i]) {
      InHashPart(es, size, part[i]);
      var j :| 0 <= j < |es| && es[j] == part[i];
      var x: nat :| x < |ns| && ns[x].Node? && ns[x].entry.key == es[j].key;
      assert os[x] == j;
    }
  }

  lemma SameIndices(entries: seq<Entry>, size: nat)
    requires size < 0x8000_0000 && forall i | 0 <= i < |entries| :: !IntoArray(entries[i].key, size)
    ensures |HashPart(Cut(entries), size)| == |HashPart(entries, size)|
  {
    hide NarrowKey, IntoArray, Hashed, HashPart;
    var a := HashIndices(entries, size);
    var b := HashIndices(Cut(entries), size);
    forall j: nat ensures j in a <==> j in b {
      if j < |entries| { IntoArrayExact(entries[j].key, size); }
    }
    assert a == b;
  }

  /** Slots filled with different keys hold all entries, so that no key was lost by the cut. */
  lemma FilledIsSafe(ns: seq<Node>, cs: Chains, os: seq<nat>, entries: seq<Entry>, size: nat)
    requires Comes(ns, os, Cut(entries), size) && DistinctKeys(entries)
    requires |ns| == |HashPart(entries, size)| && size < 0x8000_0000 && AllFilled(ns) && KeysOnce(ns)
    ensures CutSafe(entries, size)
  {
    hide NarrowKey, Meets, IntoArray, Hashed, HashPart;
    var es := Cut(entries);
    forall i | 0 <= i < |entries|
      ensures !IntoArray(entries[i].key, size)
      ensures Hashed(entries[i].key, size) ==> i in os
      ensures !Hashed(entries[i].key, size) ==> es[i].key == entries[i].key
    {
      IntoArrayExact(entries[i].key, size);
      if Hashed(entries[i].key, size) {
        CoversAll(ns, os, entries, size, i);
        var x :| 0 <= x < |os| && os[x] == i;
        assert ns[x].Node?;
      }
    }
    forall i, j | 0 <= i < j < |entries| ensures es[i].key != es[j].key {
      IntoArrayExact(entries[i].key, size);
      IntoArrayExact(entries[j].key, size);
      if Hashed(entries[i].key, size) && Hashed(entries[j].key, size) {
        var x :| 0 <= x < |os| && os[x] == i;
        var y :| 0 <= y < |os| && os[y] == j;
        assert ns[x].Node? && ns[y].Node?;
        assert if x < y then ns[x].entry.key != ns[y].entry.key else ns[y].entry.key != ns[x].entry.key;
      }
    }
    CutDistinct(entries);
  }

  // ---------- Reading ----------

  /** Where on the chains a slot is. */
  lemma OnChain(ns: seq<Node>, cs: Chains, x: nat) returns (p: nat, j: nat)
    requires Linked(ns, cs) && x < |ns| && ns[x].Node?
    ensures p < |ns| == |cs| && cs[p] != [] && j < |cs[p]| && cs[p][j] == x && p == Main(ns[x].entry.key, |ns|)
    ensures ChainOK(ns, cs[p], p) && (x == p ==> j == 0)
  {
    hide Main, KeyHash;
    p := Main(ns[x].entry.key, |ns|);
    j :| 0 <= j < |cs[p]| && cs[p][j] == x;
    assert ChainOK(ns, cs[p], p);
  }

  lemma Hashes(ns: seq<Node>, cs: Chains)
    requires Linked(ns, cs)
    ensures |cs| == |ns| && forall x | 0 <= x < |ns| && ns[x].Node? :: ns[x].hash == KeyHash(ns[x].entry.key)
  {
  }

  /** When a key is stored, its main slot begins the chain that holds it. */
  lemma KnownChain(ns: seq<Node>, cs: Chains, k: Key)
    requires |ns| > 0 && Linked(ns, cs) && !Unknown(ns, k)
    ensures var q := Main(k, |ns|); cs[q] != [] && ChainOK(ns, cs[q], q) && Head(ns, q)
    ensures var q := Main(k, |ns|); exists j :: 0 <= j < |cs[q]| && ns[cs[q][j]].entry.key == k
  {
    hide Main, KeyHash;
    var x: nat :| x < |ns| && ns[x].Node? && ns[x].entry.key == k;
    var p, j := OnChain(ns, cs, x);
  }

  /** Without a hash no key is cut. */
  lemma NoneKept(entries: seq<Entry>, size: nat)
    requires DistinctKeys(entries) && HashPart(entries, size) == [] && size < 0x8000_0000
    ensures Cut(entries) == entries && CutSafe(entries, size) && Built([], Cut(entries), size)
    ensures Represents([], [], HashPart(Cut(entries), size)) && AllFilled([]) && KeysOnce([])
  {
    hide HashPart, NarrowKey, Meets;
    var none := HashIndices(entries, size);
    forall i | 0 <= i < |entries|
      ensures !Hashed(entries[i].key, size) && NarrowKey(entries[i].key) == entries[i].key
    {
      assert i !in none;
      IntoArrayExact(entries[i].key, size);
    }
    assert Cut(entries) == entries;
    CutDistinct(entries);
  }

  lemma IsOther(ns: seq<Node>, x: nat, k: Key)
    requires x < |ns| && ns[x].Node? && ns[x].entry.key != k
    ensures OtherKey(ns, x, k)
  {
  }

  /** A slot alone on its chain, with another hash, says that the key is nowhere. */
  lemma AloneMisses(ns: seq<Node>, cs: Chains, k: Key)
    requires |ns| > 0 && Linked(ns, cs) && var n := ns[Main(k, |ns|)]; n.Node? && n.alone && n.hash != KeyHash(k)
    ensures Unknown(ns, k)
  {
    hide KeyHash, Main;
    if !Unknown(ns, k) { KnownChain(ns, cs, k); }
  }

  /** A key missing from the chain through its main slot is nowhere. */
  lemma WholeChain(ns: seq<Node>, cs: Chains, k: Key, p: nat, j: nat)
    requires |ns| > 0 && Linked(ns, cs) && p < |ns| && ChainOK(ns, cs[p], p) && j < |cs[p]|
    requires cs[p][j] == Main(k, |ns|) && forall i | j <= i < |cs[p]| :: OtherKey(ns, cs[p][i], k)
    ensures Unknown(ns, k)
  {
    hide KeyHash, Main;
    if !Unknown(ns, k) {
      KnownChain(ns, cs, k);
    }
  }

  lemma Full(ns: seq<Node>, cs: Chains, entries: seq<Entry>)
    requires Represents(ns, cs, entries)
    ensures Linked(ns, cs) && KeysOnce(ns) && forall x | 0 <= x < |ns| :: ns[x].Node?
  {
    forall x | 0 <= x < |ns| ensures ns[x].Node? { AllFull(ns, cs, entries, x); }
  }

  /** A key of the hash is kept in a slot exactly when the table has it, with what the table holds there. */
  lemma Finds(ns: seq<Node>, cs: Chains, entries: seq<Entry>, size: nat, k: Key)
    requires Represents(ns, cs, HashPart(entries, size)) && DistinctKeys(entries) && Hashed(k, size)
    ensures Unknown(ns, k) ==> Find(entries, k) == None
    ensures forall x | 0 <= x < |ns| && ns[x].Node? && ns[x].entry.key == k ::
              Find(entries, k) == Some(ns[x].entry.value)
  {
    hide Main, KeyHash, Linked;
    FindIn(entries, k);
    if Find(entries, k).Some? {
      var e := Entry(k, Find(entries, k).value);
      InHashPart(entries, size, e);
      var i :| 0 <= i < |HashPart(entries, size)| && HashPart(entries, size)[i] == e;
      assert Stored(ns, HashPart(entries, size)[i]);
    }
    forall x | 0 <= x < |ns| && ns[x].Node? && ns[x].entry.key == k
      ensures Find(entries, k) == Some(ns[x].entry.value)
    {
      InHashPart(entries, size, ns[x].entry);
      var i :| 0 <= i < |entries| && entries[i] == ns[x].entry;
    }
  }

  // ---------- Going through the keys ----------

  function First(ks: seq<Key>): Option<Key>
  {
    if ks == [] then None else Some(ks[0])
  }

  /** The keys of the array that hold something, from an index on. */
  function ArrayKeys(items: seq<Option<Value>>, i: nat): seq<Key>
    requires i <= |items|
    decreases |items| - i
  {
    if i == |items| then []
    else (if items[i] == None then [] else [IntKey(i + 1)]) + ArrayKeys(items, i + 1)
  }

  /** The keys of the slots, in the order of the slots. */
  function HashKeys(ns: seq<Node>): (ks: seq<Key>)
    requires forall x | 0 <= x < |ns| :: ns[x].Node?
    ensures |ks| == |ns| && forall x | 0 <= x < |ns| :: ks[x] == ns[x].entry.key
  {
    seq(|ns|, x requires 0 <= x < |ns| => ns[x].entry.key)
  }

  function KeysOf(es: seq<Entry>): (ks: seq<Key>)
    ensures |ks| == |es| && forall i | 0 <= i < |es| :: ks[i] == es[i].key
  {
    seq(|es|, i requires 0 <= i < |es| => es[i].key)
  }

  /** How far the keys have been given out. */
  datatype Cursor = Cursor(i: nat, x: nat)

  predicate AtOK(items: seq<Option<Value>>, ns: seq<Node>, at: Cursor)
  {
    && at.i <= |items| && at.x <= |ns| && (at.x > 0 ==> ArrayKeys(items, at.i) == [])
    && forall x | 0 <= x < |ns| :: ns[x].Node?
  }

  function Remaining(items: seq<Option<Value>>, ns: seq<Node>, at: Cursor): seq<Key>
    requires AtOK(items, ns, at)
  {
    ArrayKeys(items, at.i) + HashKeys(ns)[at.x..]
  }

  /** The first key left in the array, and what comes after it. */
  lemma {:induction false} ArrayHead(items: seq<Option<Value>>, i: nat) returns (m: nat)
    requires i <= |items| && ArrayKeys(items, i) != []
    ensures i <= m < |items| && items[m] != None
    ensures ArrayKeys(items, i) == [IntKey(m + 1)] + ArrayKeys(items, m + 1)
    decreases |items| - i
  {
    if items[i] == None { m := ArrayHead(items, i + 1); } else { m := i; }
  }

  ghost predicate Keeps(items: seq<Option<Value>>, ns: seq<Node>, cs: Chains, entries: seq<Entry>)
  {
    && DistinctKeys(entries) && AllFit(entries)
    && (forall i | 0 <= i < |items| :: items[i] == Find(entries, IntKey(i + 1)))
    && Represents(ns, cs, HashPart(entries, |items|))
  }

  /** Keys in slots are keys of the table that belong to the hash. */
  lemma SlotKey(items: seq<Option<Value>>, ns: seq<Node>, cs: Chains, entries: seq<Entry>, x: nat)
    requires Keeps(items, ns, cs, entries) && x < |ns| && ns[x].Node?
    ensures var k := ns[x].entry.key; Hashed(k, |items|) && Fits(k) && Find(entries, k).Some?
  {
    hide Main, KeyHash, Linked;
    InHashPart(entries, |items|, ns[x].entry);
    FindIn(entries, ns[x].entry.key);
  }

  lemma ArrayKey(items: seq<Option<Value>>, ns: seq<Node>, cs: Chains, entries: seq<Entry>, m: nat)
    requires Keeps(items, ns, cs, entries) && m < |items| && items[m] != None
    ensures Fits(IntKey(m + 1)) && Find(entries, IntKey(m + 1)).Some?
  {
    hide Main, KeyHash, Linked;
    FindIn(entries, IntKey(m + 1));
  }

  lemma AtFits(items: seq<Option<Value>>, ns: seq<Node>, at: Cursor)
    requires AtOK(items, ns, at)
    ensures at.i <= |items| && at.x <= |ns| && forall x | 0 <= x < |ns| :: ns[x].Node?
  {
  }

  lemma TakeArray(items: seq<Option<Value>>, ns: seq<Node>, at: Cursor, m: nat)
    requires AtOK(items, ns, at) && m < |items| && ArrayKeys(items, at.i) == [IntKey(m + 1)] + ArrayKeys(items, m + 1)
    ensures AtOK(items, ns, Cursor(m + 1, 0)) && Remaining(items, ns, at) != []
    ensures Remaining(items, ns, at)[0] == IntKey(m + 1)
    ensures Remaining(items, ns, Cursor(m + 1, 0)) == Remaining(items, ns, at)[1..]
  {
    hide ArrayKeys;
    assert at.x == 0 && HashKeys(ns)[0..] == HashKeys(ns);
  }

  lemma TakeSlot(items: seq<Option<Value>>, ns: seq<Node>, at: Cursor)
    requires AtOK(items, ns, at) && ArrayKeys(items, at.i) == [] && Remaining(items, ns, at) != []
    ensures at.x < |ns| && AtOK(items, ns, Cursor(at.i, at.x + 1))
    ensures Remaining(items, ns, at)[0] == HashKeys(ns)[at.x] == ns[at.x].entry.key
    ensures Remaining(items, ns, Cursor(at.i, at.x + 1)) == Remaining(items, ns, at)[1..]
  {
    hide ArrayKeys;
    assert Remaining(items, ns, at) == HashKeys(ns)[at.x..];
  }

  /** The first key left is a key of the table; giving it out leaves the others. */
  lemma Advance(items: seq<Option<Value>>, ns: seq<Node>, cs: Chains, entries: seq<Entry>, at: Cursor)
    returns (next: Cursor)
    requires Keeps(items, ns, cs, entries) && AtOK(items, ns, at) && Remaining(items, ns, at) != []
    ensures AtOK(items, ns, next) && Remaining(items, ns, next) == Remaining(items, ns, at)[1..]
    ensures var k := Remaining(items, ns, at)[0];
            && NarrowKey(k) == k && !k.TableKey? && Find(entries, k).Some?
            && if ArrayKeys(items, at.i) != [] then 0 < next.i <= |items| && k == IntKey(next.i) && next.x == 0
               else Hashed(k, |items|) && at.x < |ns| && k == HashKeys(ns)[at.x] && next == Cursor(at.i, at.x + 1)
  {
    hide *;
    AtFits(items, ns, at);
    if ArrayKeys(items, at.i) != [] {
      var m := ArrayHead(items, at.i);
      ArrayKey(items, ns, cs, entries, m);
      FitsExact(IntKey(m + 1));
      next := Cursor(m + 1, 0);
      TakeArray(items, ns, at, m);
    } else {
      TakeSlot(items, ns, at);
      SlotKey(items, ns, cs, entries, at.x);
      FitsExact(ns[at.x].entry.key);
      next := Cursor(at.i, at.x + 1);
    }
  }

  /** What lnextkey answers: the first key, or the first after a given one; nothing after a key it has not. */
  predicate NextSpec(items: seq<Option<Value>>, ns: seq<Node>, k: Option<Key>, r: Option<Key>)
    requires forall x | 0 <= x < |ns| :: ns[x].Node?
  {
    var rest := HashKeys(ns);
    match k
    case None => r == First(ArrayKeys(items, 0) + rest)
    case Some(wide) =>
      var key := NarrowKey(wide);
      if !Hashed(key, |items|) then r == First(ArrayKeys(items, key.n) + rest)
      else
        && (forall x | 0 <= x < |ns| && rest[x] == key :: r == First(rest[x + 1..]))
        && (key !in rest ==> r == None)
  }

  lemma NextFirst(items: seq<Option<Value>>, ns: seq<Node>, r: Option<Key>)
    requires (forall x | 0 <= x < |ns| :: ns[x].Node?) && NextSpec(items, ns, None, r)
    ensures AtOK(items, ns, Cursor(0, 0)) && r == First(Remaining(items, ns, Cursor(0, 0)))
  {
    assert HashKeys(ns)[0..] == HashKeys(ns);
  }

  /** The key after the first one left is the first of the others. */
  lemma NextAfter(items: seq<Option<Value>>, ns: seq<Node>, cs: Chains, entries: seq<Entry>, at: Cursor,
                  next: Cursor, k: Key, r: Option<Key>)
    requires AtOK(items, ns, at) && AtOK(items, ns, next) && NarrowKey(k) == k
    requires if ArrayKeys(items, at.i) != [] then 0 < next.i <= |items| && k == IntKey(next.i) && next.x == 0
             else Hashed(k, |items|) && at.x < |ns| && k == HashKeys(ns)[at.x] && next == Cursor(at.i, at.x + 1)
    requires NextSpec(items, ns, Some(k), r)
    ensures r == First(Remaining(items, ns, next))
  {
    hide NarrowKey;
    if ArrayKeys(items, at.i) != [] {
      assert HashKeys(ns)[0..] == HashKeys(ns);
    } else {
      assert Remaining(items, ns, next) == HashKeys(ns)[at.x + 1..];
    }
  }

  lemma StartsWhole(items: seq<Option<Value>>, ns: seq<Node>)
    requires forall x | 0 <= x < |ns| :: ns[x].Node?
    ensures Remaining(items, ns, Cursor(0, 0)) == ArrayKeys(items, 0) + HashKeys(ns)
  {
    assert HashKeys(ns)[0..] == HashKeys(ns);
  }

  lemma FirstIs(ks: seq<Key>)
    ensures First(ks) == if ks == [] then None else Some(ks[0])
  {
  }

  lemma KeysGrow(es: seq<Entry>, e: Entry)
    ensures KeysOf(es + [e]) == KeysOf(es) + [e.key]
  {
  }

  lemma {:induction false} InArrayKeys(items: seq<Option<Value>>, i: nat, k: Key)
    requires i <= |items|
    ensures k in ArrayKeys(items, i) <==> k.IntKey? && i < k.n <= |items| && items[k.n - 1] != None
    ensures forall a, b | 0 <= a < b < |ArrayKeys(items, i)| :: ArrayKeys(items, i)[a] != ArrayKeys(items, i)[b]
    decreases |items| - i
  {
    if i < |items| {
      InArrayKeys(items, i + 1, k);
      InArrayKeys(items, i + 1, IntKey(i + 1));
    }
  }

  /** The keys of the array and of the hash are the keys of the table, each once. */
  lemma OrderIsKeys(items: seq<Option<Value>>, ns: seq<Node>, cs: Chains, entries: seq<Entry>)
    requires Keeps(items, ns, cs, entries) && forall x | 0 <= x < |ns| :: ns[x].Node?
    ensures var order := ArrayKeys(items, 0) + HashKeys(ns);
            && (forall a, b | 0 <= a < b < |order| :: order[a] != order[b])
            && forall k :: k in order <==> Find(entries, k).Some?
  {
    hide Main, KeyHash, Linked;
    var front, rest := ArrayKeys(items, 0), HashKeys(ns);
    var order := front + rest;
    forall x | 0 <= x < |ns| ensures rest[x] !in front {
      SlotKey(items, ns, cs, entries, x);
      InArrayKeys(items, 0, rest[x]);
    }
    InArrayKeys(items, 0, IntKey(0));
    forall k ensures k in order <==> Find(entries, k).Some? {
      InArrayKeys(items, 0, k);
      if Hashed(k, |items|) {
        Finds(ns, cs, entries, |items|, k);
        if k in rest { var x :| 0 <= x < |rest| && rest[x] == k; }
        if !Unknown(ns, k) {
          var x: nat :| x < |ns| && ns[x].Node? && ns[x].entry.key == k;
          assert rest[x] == k;
        }
      } else if k in rest {
        var x :| 0 <= x < |rest| && rest[x] == k;
        SlotKey(items, ns, cs, entries, x);
      }
    }
  }

  lemma {:induction false} OneOfEach(es: seq<Entry>, e: Entry)
    requires DistinctKeys(es)
    ensures multiset(es)[e] == if e in es then 1 else 0
  {
    if es != [] {
      var n := |es| - 1;
      OneOfEach(es[..n], e);
      assert es == es[..n] + [es[n]];
    }
  }

  lemma AllGiven(items: seq<Option<Value>>, ns: seq<Node>, cs: Chains, entries: seq<Entry>, got: seq<Entry>)
    requires Keeps(items, ns, cs, entries) && forall x | 0 <= x < |ns| :: ns[x].Node?
    requires KeysOf(got) == ArrayKeys(items, 0) + HashKeys(ns)
    requires forall j | 0 <= j < |got| :: Find(entries, got[j].key) == Some(got[j].value)
    ensures multiset(got) == multiset(entries)
  {
    hide Main, KeyHash, Linked, Represents, ArrayKeys;
    OrderIsKeys(items, ns, cs, entries);
    assert forall a, b | 0 <= a < b < |got| :: KeysOf(got)[a] != KeysOf(got)[b];
    forall e: Entry ensures multiset(got)[e] == multiset(entries)[e] {
      OneOfEach(got, e);
      OneOfEach(entries, e);
      FindIn(entries, e.key);
      if e in entries {
        assert e.key in KeysOf(got);
        var j :| 0 <= j < |got| && KeysOf(got)[j] == e.key;
        assert got[j] == e;
      }
    }
  }

  /** After both passes. */
  lemma Done(ns: seq<Node>, cs: Chains, os: seq<nat>, entries: seq<Entry>, size: nat)
    requires |ns| > 0 && SecondPass(ns, cs, os, Cut(entries), size, |entries|) && DistinctKeys(entries)
    requires |ns| == |HashPart(entries, size)| && size < 0x8000_0000
    ensures Built(ns, Cut(entries), size)
    ensures AllFilled(ns) && KeysOnce(ns) <==> CutSafe(entries, size)
    ensures Represents(ns, cs, HashPart(Cut(entries), size)) <==> CutSafe(entries, size)
  {
    hide Main, KeyHash, Linked, NarrowKey, CutSafe, HashPart;
    if CutSafe(entries, size) {
      SafeDone(ns, cs, os, entries, size);
    }
    if Represents(ns, cs, HashPart(Cut(entries), size)) {
      Full(ns, cs, HashPart(Cut(entries), size));
    }
    if AllFilled(ns) && KeysOnce(ns) {
      FilledIsSafe(ns, cs, os, entries, size);
    }
  }

  lemma KeepsExact(items: seq<Option<Value>>, ns: seq<Node>, cs: Chains, entries: seq<Entry>)
    requires DistinctKeys(entries)
    requires forall i | 0 <= i < |items| :: items[i] == Find(Cut(entries), IntKey(i + 1))
    requires Represents(ns, cs, HashPart(Cut(entries), |items|)) <==> CutSafe(entries, |items|)
    ensures Keeps(items, ns, cs, Cut(entries)) <==> CutSafe(entries, |items|)
  {
    hide Represents, Meets, IntoArray, NarrowKey, Fits, Find;
    CutSame(entries);
    CutDistinct(entries);
  }

  // ---------- Tables that are not kept ----------

  lemma TwoHashed(a: Entry, b: Entry, size: nat)
    ensures HashPart([a, b], size) ==
            (if Hashed(a.key, size) then [a] else []) + if Hashed(b.key, size) then [b] else []
  {
    assert [a][..0] == [];
    assert HashPart([a], size) == if Hashed(a.key, size) then [a] else [];
    assert [a, b][..1] == [a];
  }

  /** Keys that meet: one is dropped, and its slot stays unset. */
  lemma MeetingKeys(a: Value, b: Value, ns: seq<Node>)
    ensures var es := [Entry(IntKey(5), a), Entry(IntKey(0x1_0000_0005), b)];
            && DistinctKeys(es) && |HashPart(es, 0)| == 2 && !CutSafe(es, 0)
            && (|ns| == 2 && Built(ns, Cut(es), 0) ==> ns[0].Empty?)
  {
    hide HashPart;
    var es := [Entry(IntKey(5), a), Entry(IntKey(0x1_0000_0005), b)];
    TwoHashed(es[0], es[1], 0);
    assert !CutSafe(es, 0) by { assert Meets(es[0].key, es[1].key); }
    if |ns| == 2 && Built(ns, Cut(es), 0) { SecondDropped(ns, Cut(es), 5); }
  }

  lemma SecondDropped(ns: seq<Node>, es: seq<Entry>, n: nat)
    requires |ns| == 2 && Built(ns, es, 0) && n % 2 == 1 && n < 0x8000_0000
    requires |es| == 2 && es[0].key == es[1].key == IntKey(n)
    ensures ns[0].Empty?
  {
    assert Main(IntKey(n), 2) == 1;
    assert Head(ns, Main(es[0].key, 2));
    assert ns[1].entry.key == IntKey(n);
    assert !OtherKey(ns, 1, IntKey(n));
  }

  /** A key moved into the array: it replaces what was there, and the slot counted for it stays unset. */
  lemma MovedKey(a: Value, b: Value, ns: seq<Node>)
    ensures var es := [Entry(IntKey(1), a), Entry(IntKey(0x1_0000_0001), b)];
            && DistinctKeys(es) && |HashPart(es, 1)| == 1 && !CutSafe(es, 1)
            && Find(Cut(es), IntKey(1)) == Some(b)
            && (|ns| == 1 && Built(ns, Cut(es), 1) ==> ns[0].Empty?)
  {
    hide HashPart;
    var es := [Entry(IntKey(1), a), Entry(IntKey(0x1_0000_0001), b)];
    TwoHashed(es[0], es[1], 1);
    assert !CutSafe(es, 1) by { assert IntoArray(es[1].key, 1); }
  }

  /** A single wide key is kept under another. */
  lemma RenamedKey(a: Value)
    ensures var es := [Entry(IntKey(0x1_0000_0005), a)];
            CutSafe(es, 0) && Cut(es) == [Entry(IntKey(5), a)] && !AllFit(es)
  {
    var es := [Entry(IntKey(0x1_0000_0005), a)];
    assert !Fits(es[0].key);
  }

  class Table {
    var items: array<Option<Value>>
    var hash: array<Node>
    ghost var chains: Chains
    ghost var origins: seq<nat>

    /** What reading relies on. */
    ghost predicate Valid(entries: seq<Entry>)
      reads this, items, hash
    {
      Keeps(items[..], hash[..], chains, entries)
    }

    lemma ValidIs(entries: seq<Entry>)
      ensures Valid(entries) <==> Keeps(items[..], hash[..], chains, entries)
    {
    }

    /** countsize. */
    static method CountSize(entries: seq<Entry>, size: nat) returns (n: nat)
      ensures n == |HashPart(entries, size)|
    {
      n := 0;
      for i := 0 to |entries|
        invariant n == |HashPart(entries[..i], size)|
      {
        PartGrows(entries, size, i);
        n := n + 1;
        match entries[i].key
        case IntKey(key) => if 0 < key <= size { n := n - 1; }
        case StrKey(_) =>
        case TableKey(_) =>
      }
      assert entries[..|entries|] == entries;
    }

    /** An entry of the hash, in its main slot when that is empty. */
    method PlaceNoColliding(e: Entry, ghost i: nat)
      requires hash.Length > 0 && |chains| == |origins| == hash.Length
      modifies hash, `chains, `origins
      ensures var q := Main(NarrowKey(e.key), hash.Length);
              if old(hash[q].Empty?) then
                && hash[..] == Placed(old(hash[..]), Entry(NarrowKey(e.key), e.value))
                && chains == old(chains)[q := [q]] && origins == old(origins)[q := i]
              else hash[..] == old(hash[..]) && chains == old(chains) && origins == old(origins)
    {
      hide KeyHash, NarrowKey;
      var keyHash := HashOf(NarrowKey(e.key));
      var q := keyHash % hash.Length;
      if hash[q].Empty? {
        hash[q] := Node(Entry(NarrowKey(e.key), e.value), keyHash, -1, true);
        chains := chains[q := [q]];
        origins := origins[q := i];
      }
    }

    /** setarray. */
    method SetArray(entries: seq<Entry>, i: nat)
      requires i < |entries| && !Hashed(NarrowKey(entries[i].key), items.Length)
      requires forall j | 0 <= j < items.Length :: items[j] == Find(Cut(entries)[..i], IntKey(j + 1))
      modifies items
      ensures forall j | 0 <= j < items.Length :: items[j] == Find(Cut(entries)[..i + 1], IntKey(j + 1))
    {
      hide Narrow;
      assert Cut(entries)[..i + 1][..i] == Cut(entries)[..i];
      var key := NarrowKey(entries[i].key).n - 1;
      items[key] := Some(entries[i].value);
    }

    method FillNoColliding(entries: seq<Entry>)
      requires hash.Length > 0
      requires forall i | 0 <= i < items.Length :: items[i] == None
      requires forall x | 0 <= x < hash.Length :: hash[x].Empty?
      modifies items, hash, `chains, `origins
      ensures forall i | 0 <= i < items.Length :: items[i] == Find(Cut(entries), IntKey(i + 1))
      ensures FirstPass(hash[..], chains, origins, Cut(entries), items.Length, |entries|)
    {
      hide Main, KeyHash, Linked, Head, Placed, HashPart, NarrowKey, Comes;
      ghost var es := Cut(entries);
      chains, origins := seq(hash.Length, _ => []), seq(hash.Length, _ => 0);
      NothingLinked(hash[..]);
      FirstNothing(hash[..], chains, origins, es, items.Length);
      for i := 0 to |entries|
        invariant forall j | 0 <= j < items.Length :: items[j] == Find(es[..i], IntKey(j + 1))
        invariant FirstPass(hash[..], chains, origins, es, items.Length, i)
      {
        hide FirstPass;
        FirstLengths(hash[..], chains, origins, es, items.Length, i);
        FirstStep(hash[..], chains, origins, es, items.Length, i);
        if Hashed(NarrowKey(entries[i].key), items.Length) {
          PlaceNoColliding(entries[i], i);
          FindSkips(es, i, items.Length);
        } else {
          SetArray(entries, i);
        }
      }
      assert es[..|es|] == es;
    }

    /** An entry of the hash that its main slot has no room for, in the first empty slot. */
    method PlaceColliding(entries: seq<Entry>, i: nat)
      requires i < |entries| && items.Length < 0x8000_0000
      requires hash.Length == |HashPart(entries, items.Length)| > 0
      requires SecondPass(hash[..], chains, origins, Cut(entries), items.Length, i)
      requires var k := Cut(entries)[i].key;
               Hashed(k, items.Length) && OtherKey(hash[..], Main(k, hash.Length), k)
      modifies hash, `chains, `origins
      ensures SecondPass(hash[..], chains, origins, Cut(entries), items.Length, i + 1)
    {
      hide Main, KeyHash, Linked, Head, HashPart, SecondPass, NarrowKey, OtherKey;
      ghost var es := Cut(entries);
      var e := Entry(NarrowKey(entries[i].key), entries[i].value);
      var main := Main(e.key, hash.Length);
      ghost var before := hash[..];
      RoomLeft(before, chains, origins, entries, items.Length, i);
      var x := 0;
      while !hash[x].Empty?
        invariant x < hash.Length && forall y | 0 <= y < x :: hash[y].Node?
        decreases hash.Length - x
      {
        x := x + 1;
      }
      SecondStep(before, chains, origins, es, items.Length, i, x);
      SecondLinked(before, chains, origins, es, items.Length, i);
      HeadIs(before, chains, main);
      var keyHash := HashOf(e.key);
      hash[x] := Node(e, keyHash, hash[main].next, false);
      hash[main] := hash[main].(next := x, alone := false);
      chains := chains[main := [main, x] + chains[main][1..]];
      origins := origins[x := i];
      assert hash[..] == Behind(before, e, x);
    }

    method FillColliding(entries: seq<Entry>)
      requires items.Length < 0x8000_0000 && hash.Length == |HashPart(entries, items.Length)| > 0
      requires FirstPass(hash[..], chains, origins, Cut(entries), items.Length, |entries|)
      modifies hash, `chains, `origins
      ensures SecondPass(hash[..], chains, origins, Cut(entries), items.Length, |entries|)
    {
      hide Main, KeyHash, Linked, Head, HashPart, SecondPass, FirstPass, NarrowKey, OtherKey;
      ghost var es := Cut(entries);
      PassesMeet(hash[..], chains, origins, es, items.Length);
      for i := 0 to |entries|
        invariant SecondPass(hash[..], chains, origins, es, items.Length, i)
      {
        var k := NarrowKey(entries[i].key);
        if Hashed(k, items.Length) {
          var keyHash := HashOf(k);
          var main := keyHash % hash.Length;
          MainIs(k, hash.Length);
          MainFilled(hash[..], chains, origins, es, items.Length, i);
          if hash[main].entry.key != k {
            IsOther(hash[..], main, k);
            PlaceColliding(entries, i);
          } else {
            SecondSkip(hash[..], chains, origins, es, items.Length, i);
          }
        } else {
          SecondSkip(hash[..], chains, origins, es, items.Length, i);
        }
      }
    }

    /** The array part of a table that has nothing else. */
    method FillArray(entries: seq<Entry>)
      modifies items
      ensures forall j | 0 <= j < items.Length :: items[j] == Find(entries, IntKey(j + 1))
    {
      for i := 0 to items.Length
        invariant forall j | 0 <= j < i :: items[j] == Find(entries, IntKey(j + 1))
      {
        items[i] := Find(entries, IntKey(i + 1));
      }
    }

    /**
     * convtable, for any keys: the array holds what the cut entries say; the slots are filled with different keys,
     * and the table is the cut one, exactly when no keys meet and none is moved into the array.
     */
    constructor (entries: seq<Entry>, size: nat)
      requires DistinctKeys(entries) && size < 0x8000_0000
      ensures fresh(items) && fresh(hash)
      ensures items.Length == size && hash.Length == |HashPart(entries, size)|
      ensures forall i | 0 <= i < size :: items[i] == Find(Cut(entries), IntKey(i + 1))
      ensures Built(hash[..], Cut(entries), size)
      ensures AllFilled(hash[..]) && KeysOnce(hash[..]) <==> CutSafe(entries, size)
      ensures Valid(Cut(entries)) <==> CutSafe(entries, size)
    {
      hide *;
      items := new Option<Value>[size](_ => None);
      var sizeHash := CountSize(entries, size);
      hash := new Node[sizeHash](_ => Empty);
      chains, origins := [], [];
      new;
      if sizeHash > 0 {
        FillNoColliding(entries);
        FillColliding(entries);
        Done(hash[..], chains, origins, entries, size);
      } else {
        FillArray(entries);
        NoneKept(entries, size);
        assert hash[..] == [];
      }
      KeepsExact(items[..], hash[..], chains, entries);
      ValidIs(Cut(entries));
    }

    /** The rest of a chain, from its slot `n`. */
    method Follow(keyHash: nat, k: Key, start: nat, ghost c: seq<nat>, ghost p: nat, ghost from: nat)
      returns (r: Option<nat>)
      requires forall x | 0 <= x < hash.Length :: hash[x].Node? && hash[x].hash == KeyHash(hash[x].entry.key)
      requires p < hash.Length && ChainOK(hash[..], c, p) && from < |c| && c[from] == start && keyHash == KeyHash(k)
      ensures r.Some? ==> r.value < hash.Length && hash[r.value].entry.key == k
      ensures r.None? ==> forall i | from <= i < |c| :: OtherKey(hash[..], c[i], k)
    {
      hide *;
      var n := start;
      ghost var j := from;
      ghost var ns := hash[..];
      ChainStep(ns, c, p, j);
      while true
        invariant from <= j < |c| && c[j] == n < hash.Length
        invariant forall i | from <= i < j :: OtherKey(ns, c[i], k)
        decreases |c| - j
      {
        if keyHash == hash[n].hash && hash[n].entry.key == k { return Some(n); }
        IsOther(ns, n, k);
        ChainStep(ns, c, p, j);
        if hash[n].next < 0 { return None; }
        n, j := hash[n].next, j + 1;
        ChainStep(ns, c, p, j);
      }
    }

    /** lookup_key: the slot that holds a key. */
    method Lookup(k: Key) returns (r: Option<nat>)
      requires Linked(hash[..], chains) && forall x | 0 <= x < hash.Length :: hash[x].Node?
      ensures r.Some? ==> r.value < hash.Length && hash[r.value].Node? && hash[r.value].entry.key == k
      ensures r.None? ==> Unknown(hash[..], k)
    {
      hide KeyHash, Main, Linked, ChainOK;
      if hash.Length == 0 { return None; }
      var keyHash := HashOf(k);
      var n := keyHash % hash.Length;
      MainIs(k, hash.Length);
      Hashes(hash[..], chains);
      assert hash[..][n] == hash[n];
      if keyHash != hash[n].hash && hash[n].alone {
        AloneMisses(hash[..], chains, k);
        return None;
      }
      ghost var p, j := OnChain(hash[..], chains, n);
      assert forall x | 0 <= x < hash.Length :: hash[..][x] == hash[x];
      r := Follow(keyHash, k, n, chains[p], p, j);
      if r.None? {
        WholeChain(hash[..], chains, k, p, j);
      }
    }

    /** lindexconf: what the table said at the key, once cut; a table as a key is an error. */
    method Get(k: Key, ghost entries: seq<Entry>) returns (ok: bool, r: Option<Value>)
      requires Valid(entries)
      ensures ok <==> !k.TableKey?
      ensures ok ==> r == Find(entries, NarrowKey(k))
    {
      hide Main, KeyHash, Linked, From, HashPart, Narrow;
      ok, r := !k.TableKey?, None;
      if k.TableKey? { return; }
      var key := NarrowKey(k);
      if !Hashed(key, items.Length) { return true, items[key.n - 1]; }
      Full(hash[..], chains, HashPart(entries, items.Length));
      var found := Lookup(key);
      Finds(hash[..], chains, entries, items.Length, key);
      match found
      case Some(x) => assert hash[..][x] == hash[x]; r := Some(hash[x].entry.value);
      case None => r := None;
    }

    /** pushfirsthash. */
    method FirstHash() returns (r: Option<Key>)
      requires forall x | 0 <= x < hash.Length :: hash[x].Node?
      ensures r == First(HashKeys(hash[..]))
    {
      r := if hash.Length > 0 then Some(hash[0].entry.key) else None;
    }

    /** The first key of the array at or after an index, or else the first of the hash. */
    method NextFrom(i: nat) returns (r: Option<Key>)
      requires i <= items.Length && forall x | 0 <= x < hash.Length :: hash[x].Node?
      ensures r == First(ArrayKeys(items[..], i) + HashKeys(hash[..]))
    {
      for j := i to items.Length
        invariant ArrayKeys(items[..], i) == ArrayKeys(items[..], j)
      {
        if items[j] != None { return Some(IntKey(j + 1)); }
      }
      r := FirstHash();
      assert ArrayKeys(items[..], i) + HashKeys(hash[..]) == HashKeys(hash[..]);
    }

    /** lnextkey; a table as a key is an error. */
    method NextKey(k: Option<Key>, ghost entries: seq<Entry>) returns (ok: bool, r: Option<Key>)
      requires Valid(entries)
      ensures forall x | 0 <= x < hash.Length :: hash[x].Node?
      ensures ok <==> !(k.Some? && k.value.TableKey?)
      ensures ok ==> NextSpec(items[..], hash[..], k, r)
    {
      ok, r := true, None;
      hide Main, KeyHash, Linked, From, HashPart, Narrow;
      Full(hash[..], chains, HashPart(entries, items.Length));
      match k
      case None => r := NextFrom(0);
      case Some(wide) =>
        if wide.TableKey? { return false, None; }
        var key := NarrowKey(wide);
        if !Hashed(key, items.Length) {
          r := NextFrom(key.n);
        } else {
          var found := Lookup(key);
          match found {
            case None =>
            case Some(x) => r := if x + 1 == hash.Length then None else Some(hash[x + 1].entry.key);
          }
        }
    }

    /**
     * Going from each key to the next and reading its value gives every cut entry once; these are the entries
     * exactly when all keys fit.
     */
    method Pairs(ghost entries: seq<Entry>) returns (got: seq<Entry>)
      requires Valid(Cut(entries))
      ensures multiset(got) == multiset(Cut(entries))
      ensures multiset(got) == multiset(entries) <==> AllFit(entries)
    {
      hide *;
      got := [];
      ValidIs(Cut(entries));
      ghost var es := Cut(entries);
      var _, k := NextKey(None, es);
      ghost var front, slots := items[..], hash[..];
      NextFirst(front, slots, k);
      ghost var at := Cursor(0, 0);
      ghost var order := Remaining(front, slots, at);
      while k.Some?
        invariant AtOK(front, slots, at) && k == First(Remaining(front, slots, at))
        invariant order == KeysOf(got) + Remaining(front, slots, at)
        invariant forall j | 0 <= j < |got| :: Find(es, got[j].key) == Some(got[j].value)
        decreases |Remaining(front, slots, at)|
      {
        FirstIs(Remaining(front, slots, at));
        ghost var before := at;
        at := Advance(front, slots, chains, es, before);
        var _, v := Get(k.value, es);
        KeysGrow(got, Entry(k.value, v.value));
        got := got + [Entry(k.value, v.value)];
        var _, next := NextKey(k, es);
        NextAfter(front, slots, chains, es, before, at, k.value, next);
        k := next;
      }
      FirstIs(Remaining(front, slots, at));
      StartsWhole(front, slots);
      AllGiven(front, slots, chains, es, got);
      CutSame(entries);
    }
  }
}
