/** The ranked skip list of skiplist.c: a sorted list of scored members with forward links on up to 32 levels. */
module SkipList {

  type Byte = b: int | 0 <= b < 256

  type Obj = seq<Byte>

  /** Byte-wise order, a proper prefix first. */
  function CompareObj(a: Obj, b: Obj): int
  {
    if a == [] || b == [] then |a| - |b|
    else if a[0] != b[0] then a[0] - b[0]
    else CompareObj(a[1..], b[1..])
  }

  datatype Elem = Elem(score: real, obj: Obj)

  /** By score, then by member. */
  predicate Less(a: Elem, b: Elem)
  {
    a.score < b.score || (a.score == b.score && CompareObj(a.obj, b.obj) < 0)
  }

  lemma {:induction false} CompareOrder(a: Obj, b: Obj, c: Obj)
    ensures CompareObj(a, b) == 0 <==> a == b
    ensures CompareObj(a, b) < 0 <==> CompareObj(b, a) > 0
    ensures CompareObj(a, b) < 0 && CompareObj(b, c) < 0 ==> CompareObj(a, c) < 0
    ensures CompareObj(a, b) < 0 && CompareObj(b, c) == 0 ==> CompareObj(a, c) < 0
    ensures CompareObj(a, b) == 0 && CompareObj(b, c) < 0 ==> CompareObj(a, c) < 0
  {
    if a != [] && b != [] {
      CompareOrder(a[1..], b[1..], if c == [] then [] else c[1..]);
      assert a[0] == b[0] && a[1..] == b[1..] ==> a == b;
    }
  }

  /** The bytes of `a` and `b` agree before the `k`-th, and there `a` has the smaller one. */
  predicate DiffersAt(a: Obj, b: Obj, k: nat)
  {
    k < |a| && k < |b| && a[..k] == b[..k] && a[k] < b[k]
  }

  /** A member comes first when it is a proper prefix, or has the smaller byte where the two differ first. */
  lemma {:induction false} CompareExact(a: Obj, b: Obj)
    ensures CompareObj(a, b) < 0 <==> a < b || exists k: nat :: DiffersAt(a, b, k)
  {
    if a == [] || b == [] {
      assert a == [] && b != [] ==> a < b;
    } else if a[0] != b[0] {
      assert a[0] < b[0] ==> DiffersAt(a, b, 0);
      forall k: nat | 0 < k <= |a| && k <= |b| ensures a[..k] != b[..k] {
        assert a[..k][0] == a[0] && b[..k][0] == b[0];
      }
    } else {
      var a', b' := a[1..], b[1..];
      CompareExact(a', b');
      assert a == [a[0]] + a' && b == [b[0]] + b';
      if k: nat :| DiffersAt(a', b', k) {
        assert a[..k + 1] == [a[0]] + a'[..k] && b[..k + 1] == [b[0]] + b'[..k];
        assert DiffersAt(a, b, k + 1);
      }
      if k: nat :| DiffersAt(a, b, k) {
        assert a'[..k - 1] == a[..k][1..] && b'[..k - 1] == b[..k][1..];
        assert DiffersAt(a', b', k - 1);
      }
    }
  }

  /** A lower score comes first; members of equal score come in byte order. */
  lemma LessExact(a: Elem, b: Elem)
    ensures a.score < b.score ==> Less(a, b)
    ensures a.score > b.score ==> !Less(a, b)
    ensures a.score == b.score ==> (Less(a, b) <==> a.obj < b.obj || exists k: nat :: DiffersAt(a.obj, b.obj, k))
  {
    CompareExact(a.obj, b.obj);
  }

  /** Elements are totally ordered. */
  lemma TotalOrder(a: Elem, b: Elem, c: Elem)
    ensures !(Less(a, b) && Less(b, a))
    ensures !Less(a, b) && !Less(b, a) <==> a == b
    ensures Less(a, b) && Less(b, c) ==> Less(a, c)
    ensures !Less(b, a) && Less(b, c) ==> Less(a, c)
    ensures Less(a, b) && !Less(c, b) ==> Less(a, c)
  {
    CompareOrder(a.obj, b.obj, c.obj);
    CompareOrder(b.obj, a.obj, c.obj);
    CompareOrder(a.obj, c.obj, b.obj);
    CompareOrder(b.obj, c.obj, a.obj);
    CompareOrder(c.obj, b.obj, a.obj);
  }

  const SKIPLIST_MAXLEVEL: nat := 32

  class Node {
    const elem: Elem
    const height: nat
    var forward: seq<Node?>
    var span: seq<int>
    var backward: Node?

    constructor (level: nat, elem: Elem)
      ensures this.elem == elem && height == level && |forward| == level && |span| == level && backward == null
      ensures forall i | 0 <= i < level :: forward[i] == null && span[i] == 0
    {
      this.elem := elem;
      height := level;
      forward := seq(level, _ => null);
      span := seq(level, _ => 0);
      backward := null;
    }
  }

  // ---------- Levels ----------

  /** Of nodes with `hs` levels: the index of the next one after `r` with more than `i`, or the number of nodes. */
  ghost function Next(hs: seq<nat>, r: nat, i: nat): (q: nat)
    requires r < |hs|
    ensures r < q <= |hs| && (q < |hs| ==> hs[q] > i)
    decreases |hs| - r
  {
    if r + 1 == |hs| || hs[r + 1] > i then r + 1 else Next(hs, r + 1, i)
  }

  /** Node `r` is the last one with more than `i` levels before index `p`. */
  ghost predicate Before(hs: seq<nat>, p: nat, i: nat, r: nat)
  {
    r < p <= |hs| && hs[r] > i && p <= Next(hs, r, i)
  }

  lemma {:induction false} NextLeast(hs: seq<nat>, k: nat, i: nat, r: nat)
    requires k < r < |hs| && hs[r] > i
    ensures Next(hs, k, i) <= r
    decreases r - k
  {
    if k + 1 < r { NextLeast(hs, k + 1, i, r); }
  }

  /** With an element put in at `p`. */
  ghost function Inserted<T>(s: seq<T>, p: nat, x: T): (s': seq<T>)
    requires p <= |s|
    ensures |s'| == |s| + 1
  {
    s[..p] + [x] + s[p..]
  }

  /** Without the element at `p`. */
  ghost function Removed<T>(s: seq<T>, p: nat): (s': seq<T>)
    requires p < |s|
    ensures |s'| == |s| - 1
  {
    s[..p] + s[p + 1..]
  }

  lemma InsertedAt<T>(s: seq<T>, p: nat, x: T, k: nat)
    requires p <= |s| && k <= |s|
    ensures Inserted(s, p, x)[k] == if k < p then s[k] else if k == p then x else s[k - 1]
  {
  }

  lemma RemovedAt<T>(s: seq<T>, p: nat, k: nat)
    requires p < |s| && k < |s| - 1
    ensures Removed(s, p)[k] == if k < p then s[k] else s[k + 1]
  {
  }

  lemma InsertedRemoved<T>(s: seq<T>, p: nat)
    requires p < |s|
    ensures Inserted(Removed(s, p), p, s[p]) == s
  {
  }

  /** Next nodes after an insertion at `p`, seen from before it, from across it, and from after it. */
  lemma {:induction false} NextInserted(hs: seq<nat>, p: nat, h: nat, i: nat, k: nat)
    requires k < |hs| && p <= |hs|
    ensures var hs' := Inserted(hs, p, h);
            var q := Next(hs, k, i);
            && (q < p ==> Next(hs', k, i) == q)
            && (k < p <= q ==> Next(hs', k, i) == (if h > i then p else q + 1) && Next(hs', p, i) == q + 1)
            && (p <= k ==> Next(hs', k + 1, i) == q + 1)
    decreases |hs| - k
  {
    hide Inserted;
    InsertedAt(hs, p, h, k);
    InsertedAt(hs, p, h, k + 1);
    if k + 1 < |hs| {
      InsertedAt(hs, p, h, k + 2);
      NextInserted(hs, p, h, i, k + 1);
    }
  }

  /** Next nodes after a removal at `p`. */
  lemma NextRemoved(hs: seq<nat>, p: nat, i: nat, k: nat)
    requires p < |hs| && k < |hs| - 1
    ensures var q := Next(Removed(hs, p), k, i);
            if p <= k then q == Next(hs, k + 1, i) - 1
            else if Next(hs, k, i) < p then q == Next(hs, k, i)
            else q == Next(hs, if hs[p] > i then p else k, i) - 1
  {
    var hs' := Removed(hs, p);
    InsertedRemoved(hs, p);
    hide Removed, Inserted;
    NextInserted(hs', p, hs[p], i, k);
  }

  /** What node `r` holds at level `i`: its link, and the difference of ranks or the distance to the end. */
  ghost predicate LinkOK(ns: seq<Node>, hs: seq<nat>, r: nat, i: nat)
    requires r < |ns| == |hs|
    reads ns`forward, ns`span
  {
    var q := Next(hs, r, i);
    && i < |ns[r].forward| && i < |ns[r].span|
    && ns[r].forward[i] == (if q < |ns| then ns[q] else null)
    && ns[r].span[i] == (if q < |ns| then q - r else |ns| - 1 - r)
  }

  ghost predicate LevelOK(ns: seq<Node>, hs: seq<nat>, i: nat)
    requires |ns| == |hs|
    reads ns`forward, ns`span
  {
    forall r {:trigger LinkOK(ns, hs, r, i)} | 0 <= r < |ns| && hs[r] > i :: LinkOK(ns, hs, r, i)
  }

  /** Linking a new node in at one level: only its predecessor there changes. */
  lemma InsertLevel(ns: seq<Node>, hs: seq<nat>, p: nat, x: Node, h: nat, i: nat, r: nat)
    requires |ns| == |hs| && Before(hs, p, i, r)
    requires forall k {:trigger LinkOK(ns, hs, k, i)} | 0 <= k < |ns| && hs[k] > i && k != r :: LinkOK(ns, hs, k, i)
    requires i < |ns[r].forward| && i < |ns[r].span|
    requires var q := Next(hs, r, i);
             var succ := if q < |ns| then ns[q] else null;
             var gap := if q < |ns| then q - r else |ns| - 1 - r;
             if h > i then
               && i < |x.forward| && i < |x.span|
               && ns[r].forward[i] == x && ns[r].span[i] == p - r
               && x.forward[i] == succ && x.span[i] == gap - (p - 1 - r)
             else ns[r].forward[i] == succ && ns[r].span[i] == gap + 1
    ensures LevelOK(Inserted(ns, p, x), Inserted(hs, p, h), i)
  {
    hide Next, Inserted;
    var ns', hs' := Inserted(ns, p, x), Inserted(hs, p, h);
    NextInserted(hs, p, h, i, r);
    InsertedAt(ns, p, x, p);
    forall k | 0 <= k < |ns'| && hs'[k] > i ensures LinkOK(ns', hs', k, i) {
      InsertedAt(ns, p, x, k);
      InsertedAt(hs, p, h, k);
      var q := Next(hs', k, i);
      if q < |ns'| { InsertedAt(ns, p, x, q); }
      if k < p {
        if k != r { LinkBefore(hs, p, i, r, k); assert LinkOK(ns, hs, k, i); }
        NextInserted(hs, p, h, i, k);
      } else if k > p {
        assert LinkOK(ns, hs, k - 1, i);
        NextInserted(hs, p, h, i, k - 1);
      }
    }
  }

  /** Other nodes before `p` link to before `p`. */
  lemma LinkBefore(hs: seq<nat>, p: nat, i: nat, r: nat, k: nat)
    requires Before(hs, p, i, r) && k < p && hs[k] > i && k != r
    ensures k < r && Next(hs, k, i) <= r
  {
    if k < r { NextLeast(hs, k, i, r); } else { NextLeast(hs, r, i, k); }
  }

  /** Unlinking a node at one level. */
  lemma RemoveLevel(ns: seq<Node>, hs: seq<nat>, p: nat, i: nat, r: nat)
    requires p < |ns| == |hs| && Before(hs, p, i, r)
    requires forall k {:trigger LinkOK(ns, hs, k, i)} | 0 <= k < |ns| && hs[k] > i && k != r && k != p ::
             LinkOK(ns, hs, k, i)
    requires i < |ns[r].forward| && i < |ns[r].span|
    requires var q := Next(hs, if hs[p] > i then p else r, i);
             && ns[r].forward[i] == (if q < |ns| then ns[q] else null)
             && ns[r].span[i] == (if q < |ns| then q - r else |ns| - 1 - r) - 1
    ensures LevelOK(Removed(ns, p), Removed(hs, p), i)
  {
    var ns', hs' := Removed(ns, p), Removed(hs, p);
    hide Next, Removed;
    forall k | 0 <= k < |ns'| && hs'[k] > i ensures LinkOK(ns', hs', k, i) {
      RemovedAt(ns, p, k);
      RemovedAt(hs, p, k);
      NextRemoved(hs, p, i, k);
      var q := Next(hs', k, i);
      if q < |ns'| { RemovedAt(ns, p, q); }
      if k < p {
        if k != r { LinkBefore(hs, p, i, r, k); assert LinkOK(ns, hs, k, i); }
      } else {
        assert LinkOK(ns, hs, k + 1, i);
      }
    }
  }

  // ---------- Sorted contents ----------

  ghost predicate Sorted(c: seq<Elem>)
  {
    forall j, k | 0 <= j < k < |c| :: !Less(c[k], c[j])
  }

  /** How many elements at the front of `c` come before `e`. */
  ghost function Place(c: seq<Elem>, e: Elem): (p: nat)
    ensures p <= |c|
  {
    if c == [] || !Less(c[0], e) then 0 else 1 + Place(c[1..], e)
  }

  /** In a sorted list these are all the elements that come before `e`. */
  lemma {:induction false} PlaceSplits(c: seq<Elem>, e: Elem)
    requires Sorted(c)
    ensures forall k | 0 <= k < |c| :: Less(c[k], e) <==> k < Place(c, e)
  {
    if c != [] {
      if Less(c[0], e) {
        PlaceSplits(c[1..], e);
        forall k | 0 <= k < |c| ensures Less(c[k], e) <==> k < Place(c, e) {
          if k > 0 { assert c[k] == c[1..][k - 1]; }
        }
      } else {
        forall k | 0 <= k < |c| ensures !Less(c[k], e) {
          if k > 0 { TotalOrder(c[0], c[k], e); }
        }
      }
    }
  }

  lemma InsertSorted(c: seq<Elem>, e: Elem)
    requires Sorted(c)
    ensures Sorted(Inserted(c, Place(c, e), e))
  {
    var p := Place(c, e);
    var c' := Inserted(c, p, e);
    PlaceSplits(c, e);
    forall j, k | 0 <= j < k < |c'| ensures !Less(c'[k], c'[j]) {
      InsertedAt(c, p, e, j);
      InsertedAt(c, p, e, k);
      if j == p { TotalOrder(c'[k], e, e); } else if k == p { TotalOrder(c'[j], e, e); }
    }
  }

  lemma RemoveSorted(c: seq<Elem>, p: nat)
    requires Sorted(c) && p < |c|
    ensures Sorted(Removed(c, p))
  {
    forall j, k | 0 <= j < k < |c| - 1 ensures !Less(Removed(c, p)[k], Removed(c, p)[j]) {
      RemovedAt(c, p, j);
      RemovedAt(c, p, k);
    }
  }

  predicate NotAfter(a: Elem, e: Elem)
    ensures NotAfter(a, e) <==> !Less(e, a)
  {
    CompareOrder(a.obj, e.obj, []);
    CompareOrder(e.obj, a.obj, []);
    a.score < e.score || (a.score == e.score && CompareObj(a.obj, e.obj) <= 0)
  }

  /** How many elements at the front of `c` are not after `e`. */
  ghost function CountUpTo(c: seq<Elem>, e: Elem): (p: nat)
    ensures p <= |c|
  {
    if c == [] || Less(e, c[0]) then 0 else 1 + CountUpTo(c[1..], e)
  }

  lemma {:induction false} CountSplits(c: seq<Elem>, e: Elem)
    requires Sorted(c)
    ensures forall k | 0 <= k < |c| :: !Less(e, c[k]) <==> k < CountUpTo(c, e)
  {
    if c != [] {
      if Less(e, c[0]) {
        forall k | 0 <= k < |c| ensures Less(e, c[k]) {
          if k > 0 { TotalOrder(e, c[0], c[k]); }
        }
      } else {
        CountSplits(c[1..], e);
        forall k | 0 <= k < |c| ensures !Less(e, c[k]) <==> k < CountUpTo(c, e) {
          if k > 0 { assert c[k] == c[1..][k - 1]; }
        }
      }
    }
  }

  /** The member at index `k` is nowhere else. */
  predicate OnlyThere(c: seq<Elem>, k: nat)
    requires k < |c|
  {
    forall j | 0 <= j < |c| && j != k :: c[j].obj != c[k].obj
  }

  /** The last element that is not after `e`. */
  predicate LastNotAfter(c: seq<Elem>, e: Elem, k: nat)
    requires k < |c|
  {
    !Less(e, c[k]) && (k + 1 < |c| ==> Less(e, c[k + 1]))
  }

  /** The list has elements on both sides of, or in, the range. */
  predicate Spans(c: seq<Elem>, min: real, max: real)
  {
    min <= max && |c| > 0 && c[0].score <= max && min <= c[|c| - 1].score
  }

  /** How many elements at the front of `c` score below `min`. */
  ghost function FromScore(c: seq<Elem>, min: real): (p: nat)
    ensures p <= |c|
  {
    if c == [] || c[0].score >= min then 0 else 1 + FromScore(c[1..], min)
  }

  /** How many elements at the front of `c` score at most `max`. */
  ghost function ToScore(c: seq<Elem>, max: real): (p: nat)
    ensures p <= |c|
  {
    if c == [] || c[0].score > max then 0 else 1 + ToScore(c[1..], max)
  }

  lemma {:induction false} ScoresSplit(c: seq<Elem>, x: real)
    requires Sorted(c)
    ensures forall k | 0 <= k < |c| :: c[k].score < x <==> k < FromScore(c, x)
    ensures forall k | 0 <= k < |c| :: c[k].score <= x <==> k < ToScore(c, x)
  {
    if c != [] {
      ScoresSplit(c[1..], x);
      forall k | 0 < k < |c| ensures c[0].score <= c[k].score && c[k] == c[1..][k - 1] { assert !Less(c[k], c[0]); }
    }
  }

  /** The elements of `c` from index `lo` to before index `hi`. */
  ghost function Ranks(c: seq<Elem>, lo: nat, hi: nat): seq<Elem>
  {
    var hi' := if hi < |c| then hi else |c|;
    if lo < hi' then c[lo..hi'] else []
  }

  /** The other elements of `c`. */
  ghost function Others(c: seq<Elem>, lo: nat, hi: nat): seq<Elem>
  {
    var hi' := if hi < |c| then hi else |c|;
    if lo < hi' then c[..lo] + c[hi'..] else c
  }

  lemma RanksStep(c: seq<Elem>, lo: nat, hi: nat)
    requires lo <= hi < |c|
    ensures lo < |Others(c, lo, hi)| && Others(c, lo, hi)[lo] == c[hi]
    ensures Ranks(c, lo, hi + 1) == Ranks(c, lo, hi) + [c[hi]]
    ensures Others(c, lo, hi + 1) == Removed(Others(c, lo, hi), lo)
  {
    var rest := Others(c, lo, hi);
    assert rest == c[..lo] + c[hi..];
    assert rest[..lo] == c[..lo] && rest[lo + 1..] == c[hi + 1..];
  }

  lemma RanksNone(c: seq<Elem>, lo: nat)
    ensures Ranks(c, lo, lo) == [] && Others(c, lo, lo) == c
  {
  }

  lemma RanksDone(c: seq<Elem>, lo: nat, hi: nat, end: nat)
    requires lo <= hi && (hi == end || (|c| <= hi && (hi <= end || hi == lo)) || end <= lo == hi)
    ensures Ranks(c, lo, hi) == Ranks(c, lo, end) && Others(c, lo, hi) == Others(c, lo, end)
  {
  }

  lemma RanksPast(c: seq<Elem>, lo: nat, lo': nat, end: nat)
    requires lo == lo' || (|c| <= lo && |c| <= lo')
    ensures Ranks(c, lo, end) == Ranks(c, lo', end) && Others(c, lo, end) == Others(c, lo', end)
  {
  }

  // ---------- The list ----------

  ghost predicate Distinct(ns: seq<Node>)
  {
    forall j, k | 0 <= j < k < |ns| :: ns[j] != ns[k]
  }

  /** Every node has its number of levels and its element. */
  ghost predicate Built(ns: seq<Node>, hs: seq<nat>, es: seq<Elem>)
    reads ns`forward, ns`span
  {
    && |ns| == |hs| == |es| && Distinct(ns)
    && forall k | 0 <= k < |ns| ::
         ns[k].height == hs[k] == |ns[k].forward| == |ns[k].span| && ns[k].elem == es[k]
  }

  /** A node's backward link is to the node before it, the header not counted. */
  ghost predicate BackLink(ns: seq<Node>, k: nat)
    requires k < |ns|
    reads ns`backward
  {
    ns[k].backward == if k < 2 then null else ns[k - 1]
  }

  ghost predicate BackwardOK(ns: seq<Node>)
    reads ns`backward
  {
    forall k | 0 <= k < |ns| :: BackLink(ns, k)
  }

  /** What a walk along level `i` sees at node `r`. */
  lemma Follow(ns: seq<Node>, hs: seq<nat>, es: seq<Elem>, r: nat, i: nat)
    requires Built(ns, hs, es) && LevelOK(ns, hs, i) && r < |ns| && hs[r] > i
    ensures i < |ns[r].forward| && i < |ns[r].span|
    ensures var q, f := Next(hs, r, i), ns[r].forward[i];
            if q < |ns| then f == ns[q] && f.elem == es[q] && hs[q] > i && ns[r].span[i] == q - r
            else f == null && ns[r].span[i] == |ns| - 1 - r
  {
    assert LinkOK(ns, hs, r, i);
  }

  /** Nothing of the node changed except, perhaps, what it holds at level `i`. */
  twostate predicate OnlyLevel(n: Node, i: nat)
    reads n
  {
    && |n.forward| == old(|n.forward|) && |n.span| == old(|n.span|) && n.backward == old(n.backward)
    && (forall j | 0 <= j < |n.forward| && j != i :: n.forward[j] == old(n.forward[j]))
    && (forall j | 0 <= j < |n.span| && j != i :: n.span[j] == old(n.span[j]))
  }

  /** A node stays linked where it was, and unlinked from level `top` up. */
  twostate predicate Relinked(n: Node, top: nat)
    reads n
  {
    && |n.forward| == old(|n.forward|) && |n.span| == old(|n.span|) && n.backward == old(n.backward)
    && (forall j | top <= j < |n.forward| :: n.forward[j] == old(n.forward[j]))
    && (forall j | 0 <= j < |n.forward| :: old(n.forward[j]) != null ==> n.forward[j] != null)
  }

  lemma NodesOf(ns: seq<Node>, p: nat, x: Node)
    requires p <= |ns|
    ensures forall n | n in Inserted(ns, p, x) :: n in ns || n == x
  {
  }

  lemma NodesLeft(ns: seq<Node>, p: nat)
    requires p < |ns|
    ensures forall n | n in Removed(ns, p) :: n in ns
  {
  }

  lemma BeforeIndex(hs: seq<nat>, p: nat, i: nat, r: nat)
    requires Before(hs, p, i, r)
    ensures r < p <= |hs|
  {
  }

  /** A row of nodes of which only level `i` may have changed. */
  datatype Row = Row(ns: seq<Node>, hs: seq<nat>, i: nat)

  twostate lemma LevelsKept(row: Row)
    requires |row.ns| == |row.hs| && forall n | n in row.ns :: OnlyLevel(n, row.i)
    ensures forall j: nat | j != row.i && old(LevelOK(row.ns, row.hs, j)) :: LevelOK(row.ns, row.hs, j)
  {
    var Row(ns, hs, i) := row;
    forall j: nat, r {:trigger LinkOK(ns, hs, r, j)} | j != i && old(LevelOK(ns, hs, j)) && 0 <= r < |ns| && hs[r] > j
      ensures LinkOK(ns, hs, r, j)
    {
      assert old(LinkOK(ns, hs, r, j));
      assert OnlyLevel(ns[r], i);
    }
  }

  /** Put node `x` behind `u` at level `i`, where `d` nodes lie between them. */
  method LinkIn(u: Node, x: Node, i: nat, d: int)
    requires u != x && i < |u.forward| && i < |u.span| && i < |x.forward| && i < |x.span|
    modifies u`forward, u`span, x`forward, x`span
    ensures x.forward == old(x.forward)[i := old(u.forward[i])] && u.forward == old(u.forward)[i := x]
    ensures x.span == old(x.span)[i := old(u.span[i]) - d] && u.span == old(u.span)[i := d + 1]
  {
    x.forward := x.forward[i := u.forward[i]];
    u.forward := u.forward[i := x];
    x.span := x.span[i := u.span[i] - d];
    u.span := u.span[i := d + 1];
  }

  lemma BuiltInserted(ns: seq<Node>, hs: seq<nat>, es: seq<Elem>, p: nat, x: Node)
    requires Built(ns, hs, es) && p <= |ns| && x !in ns && x.height == |x.forward| == |x.span|
    ensures Built(Inserted(ns, p, x), Inserted(hs, p, x.height), Inserted(es, p, x.elem))
  {
    hide Inserted;
    var ns', hs', es' := Inserted(ns, p, x), Inserted(hs, p, x.height), Inserted(es, p, x.elem);
    forall k | 0 <= k < |ns'|
      ensures ns'[k].height == hs'[k] == |ns'[k].forward| == |ns'[k].span| && ns'[k].elem == es'[k]
    {
      InsertedAt(ns, p, x, k);
      InsertedAt(hs, p, x.height, k);
      InsertedAt(es, p, x.elem, k);
    }
    forall j, k | 0 <= j < k < |ns'| ensures ns'[j] != ns'[k] {
      InsertedAt(ns, p, x, j);
      InsertedAt(ns, p, x, k);
    }
  }

  /** Only the new node and the one behind it have new backward links. */
  lemma BackwardInserted(ns: seq<Node>, p: nat, x: Node)
    requires 1 <= p <= |ns| && forall k | 0 <= k < |ns| && k != p :: BackLink(ns, k)
    requires p < |ns| ==> ns[p].backward == x
    requires x.backward == if p == 1 then null else ns[p - 1]
    ensures BackwardOK(Inserted(ns, p, x))
  {
    hide Inserted;
    var ns' := Inserted(ns, p, x);
    forall k | 0 <= k < |ns'| ensures BackLink(ns', k) {
      InsertedAt(ns, p, x, k);
      if k > 0 { InsertedAt(ns, p, x, k - 1); }
      if k < p { assert BackLink(ns, k); } else if k > p + 1 { assert BackLink(ns, k - 1); }
    }
  }

  lemma BuiltRemoved(ns: seq<Node>, hs: seq<nat>, es: seq<Elem>, p: nat)
    requires Built(ns, hs, es) && p < |ns|
    ensures Built(Removed(ns, p), Removed(hs, p), Removed(es, p))
  {
    hide Removed;
    var ns', hs', es' := Removed(ns, p), Removed(hs, p), Removed(es, p);
    forall k | 0 <= k < |ns'|
      ensures ns'[k].height == hs'[k] == |ns'[k].forward| == |ns'[k].span| && ns'[k].elem == es'[k]
    {
      RemovedAt(ns, p, k);
      RemovedAt(hs, p, k);
      RemovedAt(es, p, k);
    }
    forall j, k | 0 <= j < k < |ns'| ensures ns'[j] != ns'[k] {
      RemovedAt(ns, p, j);
      RemovedAt(ns, p, k);
    }
  }

  /** Only the node behind the removed one has a new backward link. */
  lemma BackwardRemoved(ns: seq<Node>, p: nat)
    requires 1 <= p < |ns| && forall k | 0 <= k < |ns| && k != p + 1 :: BackLink(ns, k)
    requires p + 1 < |ns| ==> ns[p + 1].backward == ns[p].backward
    ensures BackwardOK(Removed(ns, p))
  {
    hide Removed;
    var ns' := Removed(ns, p);
    assert BackLink(ns, p);
    forall k | 0 <= k < |ns'| ensures BackLink(ns', k) {
      RemovedAt(ns, p, k);
      if k > 0 { RemovedAt(ns, p, k - 1); }
      if k < p { assert BackLink(ns, k); } else if k > p { assert BackLink(ns, k + 1); }
    }
  }

  class List {
    var header: Node
    var tail: Node?
    var length: nat
    var level: nat
    /** The nodes in order, the header first, with their levels and elements. */
    ghost var ns: seq<Node>
    ghost var hs: seq<nat>
    ghost var es: seq<Elem>

    /** What the list holds. */
    ghost function Contents(): seq<Elem>
      requires |es| > 0
      reads this
    {
      es[1..]
    }

    ghost predicate Sized()
      reads this
    {
      && |ns| == |hs| == |es| > 0 && ns[0] == header && hs[0] == SKIPLIST_MAXLEVEL
      && 1 <= level <= SKIPLIST_MAXLEVEL && forall k | 0 < k < |hs| :: 1 <= hs[k] <= level
    }

    ghost predicate Valid()
      reads this, ns
    {
      && Sized() && Built(ns, hs, es) && Sorted(Contents())
      && (forall i | 0 <= i < level :: LevelOK(ns, hs, i))
      && (forall i | level <= i < SKIPLIST_MAXLEVEL :: header.forward[i] == null)
      && (level > 1 ==> header.forward[level - 1] != null)
      && BackwardOK(ns)
      && tail == (if |ns| == 1 then null else ns[|ns| - 1])
      && length == |ns| - 1
    }

    constructor ()
      ensures Valid() && Contents() == [] && fresh(ns)
    {
      header := new Node(SKIPLIST_MAXLEVEL, Elem(0.0, []));
      tail, length, level := null, 0, 1;
      new;
      ns, hs, es := [header], [SKIPLIST_MAXLEVEL], [header.elem];
      assert LinkOK(ns, hs, 0, 0);
      assert Contents() == [];
    }

    /** On every level `update` holds the last node before index `p`. */
    ghost predicate Aimed(update: seq<Node>, rank: seq<nat>, p: nat)
      requires |ns| == |hs|
      reads this
    {
      && |update| == |rank| == SKIPLIST_MAXLEVEL && level <= SKIPLIST_MAXLEVEL
      && forall i | 0 <= i < level :: Before(hs, p, i, rank[i]) && rank[i] < p <= |ns| && update[i] == ns[rank[i]]
    }

    /** The node found at level 0 is linked to the one at index `p`. */
    ghost predicate AtFirst(update: seq<Node>, p: nat)
      reads this, ns
    {
      && 0 < |update| && 1 <= p <= |ns| && update[0] == ns[p - 1]
      && 0 < |update[0].forward| && update[0].forward[0] == if p < |ns| then ns[p] else null
    }

    /** Which elements come before `e`, counting the header as node 0. */
    lemma PlaceAmong(e: Elem)
      requires Valid()
      ensures Place(Contents(), e) < |ns|
      ensures forall k | 0 < k < |ns| :: Less(es[k], e) <==> k <= Place(Contents(), e)
    {
      PlaceSplits(Contents(), e);
      forall k | 0 < k < |ns| ensures Less(es[k], e) <==>
          k <= Place(Contents(), e) { assert es[k] == Contents()[k - 1]; }
    }

    lemma WalkOn(i: nat)
      requires Valid() && i < level
      ensures |ns| == |hs| == |es| > 0 && Built(ns, hs, es) && LevelOK(ns, hs, i)
    {
    }

    lemma IsBefore(p: nat, i: nat, r: nat)
      requires r < p <= |hs| && hs[r] > i && p <= Next(hs, r, i)
      ensures Before(hs, p, i, r)
    {
    }

    /** Walk along level `i` from node `r` to the last node before `e`, which is before index `p`. */
    method Advance(e: Elem, i: nat, start: Node, from: nat, ghost p: nat) returns (x: Node, r: nat)
      requires Valid() && p == Place(Contents(), e) + 1
      requires i < level && from < p && start == ns[from] && hs[from] > i
      ensures Before(hs, p, i, r) && x == ns[r] && r < p && hs[r] > i
    {
      hide *;
      PlaceAmong(e);
      WalkOn(i);
      x, r := start, from;
      Follow(ns, hs, es, r, i);
      while x.forward[i] != null && Less(x.forward[i].elem, e)
        invariant r < p && x == ns[r] && hs[r] > i && i < |x.forward| && i < |x.span|
        decreases p - r
      {
        Follow(ns, hs, es, r, i);
        r := r + x.span[i];
        x := x.forward[i];
        Follow(ns, hs, es, r, i);
      }
      Follow(ns, hs, es, r, i);
      IsBefore(p, i, r);
    }

    /** The last node before `e` on every level, with its rank; `p` is where `e` belongs among the nodes. */
    method FindBefore(e: Elem, ghost p: nat) returns (update: seq<Node>, rank: seq<nat>)
      requires Valid() && p == Place(Contents(), e) + 1
      ensures |ns| == |hs| == |es| && Aimed(update, rank, p) && AtFirst(update, p)
    {
      hide Next, LevelOK, LinkOK, Sorted, BackwardOK, Built, Before;
      var x := header;
      var r: nat := 0;
      update, rank := seq(SKIPLIST_MAXLEVEL, _ => x), seq(SKIPLIST_MAXLEVEL, _ => 0);
      var i := level;
      while i > 0
        invariant 0 <= i <= level && |update| == |rank| == SKIPLIST_MAXLEVEL
        invariant r < p <= |ns| && x == ns[r] && (i > 0 ==> hs[r] >= i)
        invariant forall k | i <= k < level :: Before(hs, p, k, rank[k]) && rank[k] < p && update[k] == ns[rank[k]]
      {
        i := i - 1;
        x, r := Advance(e, i, x, r, p);
        update, rank := update[i := x], rank[i := r];
      }
      FirstBefore(p, rank[0]);
      FirstLink(p - 1);
    }

    /** Before level 0 index `p` comes directly after the node found. */
    lemma FirstBefore(p: nat, r: nat)
      requires Sized() && Before(hs, p, 0, r)
      ensures r == p - 1
    {
      if r + 1 < |hs| { assert hs[r + 1] > 0; }
    }

    /** One level at which the new node is linked in. */
    method LinkLevel(u: Node, x: Node, i: nat, first: nat, r: nat, ghost p: nat)
      requires |ns| == |hs| && Distinct(ns) && LevelOK(ns, hs, i) && Before(hs, p, i, r) && u == ns[r] && first == p - 1
      requires x !in ns && i < x.height == |x.forward| == |x.span|
      modifies u`forward, u`span, x`forward, x`span
      ensures LevelOK(Inserted(ns, p, x), Inserted(hs, p, x.height), i)
      ensures forall j: nat | j != i && old(LevelOK(Inserted(ns, p, x), Inserted(hs, p, x.height), j)) ::
                LevelOK(Inserted(ns, p, x), Inserted(hs, p, x.height), j)
      ensures forall j: nat | j != i && old(LevelOK(ns, hs, j)) :: LevelOK(ns, hs, j)
      ensures OnlyLevel(u, i) && OnlyLevel(x, i) && i < |u.forward| && u.forward[i] != null
    {
      hide Inserted;
      assert LinkOK(ns, hs, r, i);
      LinkIn(u, x, i, first - r);
      forall k {:trigger LinkOK(ns, hs, k, i)} | 0 <= k < |ns| && hs[k] > i && k != r ensures LinkOK(ns, hs, k, i) {
        assert old(LinkOK(ns, hs, k, i)) && ns[k] != u;
      }
      InsertLevel(ns, hs, p, x, x.height, i, r);
      hide LevelOK, LinkOK;
      NodesOf(ns, p, x);
      LevelsKept(Row(Inserted(ns, p, x), Inserted(hs, p, x.height), i));
      LevelsKept(Row(ns, hs, i));
    }

    /** One level above those of the new node: the link across it grows. */
    method StretchLevel(u: Node, ghost x: Node, i: nat, ghost r: nat, ghost p: nat)
      requires |ns| == |hs| && Distinct(ns) && LevelOK(ns, hs, i) && Before(hs, p, i, r) && u == ns[r]
      requires x !in ns && x.height <= i
      modifies u`span
      ensures LevelOK(Inserted(ns, p, x), Inserted(hs, p, x.height), i)
      ensures forall j: nat | j != i && old(LevelOK(Inserted(ns, p, x), Inserted(hs, p, x.height), j)) ::
                LevelOK(Inserted(ns, p, x), Inserted(hs, p, x.height), j)
      ensures forall j: nat | j != i && old(LevelOK(ns, hs, j)) :: LevelOK(ns, hs, j)
      ensures OnlyLevel(u, i) && i < |u.forward| && u.forward == old(u.forward) && |u.span| == old(|u.span|)
    {
      hide Inserted;
      assert LinkOK(ns, hs, r, i);
      u.span := u.span[i := u.span[i] + 1];
      forall k {:trigger LinkOK(ns, hs, k, i)} | 0 <= k < |ns| && hs[k] > i && k != r ensures LinkOK(ns, hs, k, i) {
        assert old(LinkOK(ns, hs, k, i)) && ns[k] != u;
      }
      InsertLevel(ns, hs, p, x, x.height, i, r);
      hide LevelOK, LinkOK;
      NodesOf(ns, p, x);
      LevelsKept(Row(Inserted(ns, p, x), Inserted(hs, p, x.height), i));
      LevelsKept(Row(ns, hs, i));
    }

    /** The levels above those of the new node. */
    method StretchLevels(update: seq<Node>, rank: seq<nat>, x: Node, ghost p: nat)
      requires |ns| == |hs| && Distinct(ns) && 1 <= p <= |ns| && x !in ns && x.height <= level
      requires |update| == |rank| && level <= |rank|
      requires forall i | 0 <= i < x.height :: LevelOK(Inserted(ns, p, x), Inserted(hs, p, x.height), i)
      requires forall i | x.height <= i < level :: LevelOK(ns, hs, i)
      requires forall i | 0 <= i < level :: Before(hs, p, i, rank[i]) && rank[i] < p && update[i] == ns[rank[i]]
      modifies ns`span
      ensures forall i | 0 <= i < level :: LevelOK(Inserted(ns, p, x), Inserted(hs, p, x.height), i)
      ensures forall n | n in ns :: |n.span| == old(|n.span|)
    {
      hide *;
      ghost var ns', hs' := Inserted(ns, p, x), Inserted(hs, p, x.height);
      var i := x.height;
      while i < level
        invariant x.height <= i <= level
        invariant forall n | n in ns :: |n.span| == old(|n.span|)
        invariant forall j | 0 <= j < i :: LevelOK(ns', hs', j)
        invariant forall j | i <= j < level :: LevelOK(ns, hs, j)
      {
        StretchLevel(update[i], x, i, rank[i], p);
        i := i + 1;
      }
    }

    /** Link the new node `x` in at index `p`: at its own levels it comes between, above them links grow. */
    method LinkLevels(update: seq<Node>, rank: seq<nat>, x: Node, ghost p: nat)
      requires Sized() && Built(ns, hs, es) && 1 <= p <= |ns| && x !in ns
      requires 1 <= x.height == |x.forward| == |x.span| && x.height <= level
      requires |update| == |rank| == SKIPLIST_MAXLEVEL
      requires forall i | 0 <= i < level :: LevelOK(ns, hs, i)
      requires forall i | 0 <= i < level :: Before(hs, p, i, rank[i]) && update[i] == ns[rank[i]]
      modifies ns`forward, ns`span, x`forward, x`span
      ensures forall i | 0 <= i < level :: LevelOK(Inserted(ns, p, x), Inserted(hs, p, x.height), i)
      ensures x.height == |x.forward| == |x.span| && Built(ns, hs, es) && forall n | n in ns :: Relinked(n, level)
    {
      hide Next, Inserted, LevelOK, LinkOK, Before;
      ghost var ns', hs' := Inserted(ns, p, x), Inserted(hs, p, x.height);
      FirstBefore(p, rank[0]);
      var i := 0;
      while i < x.height
        invariant 0 <= i <= x.height == |x.forward| == |x.span|
        invariant forall n | n in ns :: Relinked(n, level)
        invariant forall j | 0 <= j < i :: LevelOK(ns', hs', j)
        invariant forall j | i <= j < level :: LevelOK(ns, hs, j)
      {
        BeforeIndex(hs, p, i, rank[i]);
        LinkLevel(update[i], x, i, rank[0], rank[i], p);
        i := i + 1;
      }
      forall k | 0 <= k < level ensures rank[k] < p { BeforeIndex(hs, p, k, rank[k]); }
      StretchLevels(update, rank, x, p);
      forall k | 0 <= k < |ns| ensures |ns[k].forward| == hs[k] == |ns[k].span| { assert Relinked(ns[k], level); }
    }

    /** Open the levels of a new node that are not in use: there the header is the last node, far from the end. */
    method Raise(lvl: nat, update: seq<Node>, rank: seq<nat>, ghost p: nat) returns (update': seq<Node>,
            rank': seq<nat>)
      requires Valid() && 1 <= lvl <= SKIPLIST_MAXLEVEL && 1 <= p <= |ns| && |update| == |rank| == SKIPLIST_MAXLEVEL
      requires forall i | 0 <= i < level :: Before(hs, p, i, rank[i]) && update[i] == ns[rank[i]]
      modifies `level, header`span
      ensures Sized() && Built(ns, hs, es) && |update'| == |rank'| == SKIPLIST_MAXLEVEL
      ensures level == if lvl > old(level) then lvl else old(level)
      ensures forall i | 0 <= i < level :: LevelOK(ns, hs, i)
      ensures forall i | 0 <= i < level :: Before(hs, p, i, rank'[i]) && update'[i] == ns[rank'[i]]
    {
      hide Next, Sorted, LevelOK, LinkOK;
      update', rank' := update, rank;
      if lvl > level {
        var i := level;
        while i < lvl
          invariant level == old(level) <= i <= lvl && |update'| == |rank'| == SKIPLIST_MAXLEVEL
          invariant Built(ns, hs, es) && |header.span| == old(|header.span|)
          invariant forall j | 0 <= j < i :: LevelOK(ns, hs, j)
          invariant forall j | 0 <= j < i :: Before(hs, p, j, rank'[j]) && update'[j] == ns[rank'[j]]
        {
          update', rank' := update'[i := header], rank'[i := 0];
          OpenLevel(update'[i], i, p);
          i := i + 1;
        }
        level := lvl;
      }
    }

    lemma {:induction false} OnlyHeader(i: nat, k: nat)
      requires Sized() && level <= i && k < |hs|
      ensures Next(hs, k, i) == |hs|
      decreases |hs| - k
    {
      if k + 1 < |hs| { OnlyHeader(i, k + 1); }
    }

    /** A level that only the header has. */
    method OpenLevel(u: Node, i: nat, ghost p: nat)
      requires Sized() && Built(ns, hs, es) && 1 <= p <= |ns| && length == |ns| - 1
      requires level <= i < SKIPLIST_MAXLEVEL && u == header && header.forward[i] == null
      modifies header`span
      ensures Built(ns, hs, es) && LevelOK(ns, hs, i) && Before(hs, p, i, 0)
      ensures forall j: nat | j != i && old(LevelOK(ns, hs, j)) :: LevelOK(ns, hs, j)
    {
      u.span := u.span[i := length];
      OnlyHeader(i, 0);
      assert LinkOK(ns, hs, 0, i);
      assert forall r | 0 < r < |ns| :: hs[r] <= i;
      LevelsKept(Row(ns, hs, i));
    }

    /** A node that is linked nowhere yet. */
    method NewNode(lvl: nat, e: Elem, ghost p: nat) returns (x: Node)
      requires Ready(e, p) && 1 <= lvl <= level
      requires forall i | 0 <= i < level :: LevelOK(ns, hs, i)
      ensures fresh(x) && Joining(x, p) && x.height == lvl && x.elem == e
      ensures forall i | 0 <= i < level :: LevelOK(ns, hs, i)
    {
      hide Next, LinkOK, LevelOK, Place, Sorted, BackwardOK, Built;
      x := new Node(lvl, e);
      forall i | 0 <= i < level ensures LevelOK(ns, hs, i) { assert old(LevelOK(ns, hs, i)); }
    }

    /**
     * Insert an element as a node of `lvl` levels, in front of the first element not before it. The level is
     * random in the program; any value is covered.
     */
    method Insert(e: Elem, lvl: nat)
      requires Valid() && 1 <= lvl <= SKIPLIST_MAXLEVEL
      modifies this, ns
      ensures Valid() && Contents() == Inserted(old(Contents()), Place(old(Contents()), e), e)
      ensures fresh(set n | n in ns && n !in old(ns))
    {
      ghost var p, ns0 := Place(Contents(), e) + 1, ns;
      var update, rank := FindBefore(e, p);
      hide Next, LevelOK, LinkOK, Inserted, Place, Sorted, BackwardOK, Built, Before;
      update, rank := Raise(lvl, update, rank, p);
      hide Valid, Aimed, AtFirst;
      var x := NewNode(lvl, e, p);
      hide Joining, Ready;
      Attach(update, rank, x, p);
      NodesOf(ns0, p, x);
    }

    /** Link a new node in on its levels; the rest of the list stays as it was. */
    method LinkAt(update: seq<Node>, rank: seq<nat>, x: Node, ghost p: nat)
      requires Joining(x, p) && |update| == |rank| == SKIPLIST_MAXLEVEL
      requires forall i | 0 <= i < level :: LevelOK(ns, hs, i)
      requires forall i | 0 <= i < level :: Before(hs, p, i, rank[i]) && update[i] == ns[rank[i]]
      requires x.height < level ==> header.forward[level - 1] != null
      modifies ns`forward, ns`span, x`forward, x`span
      ensures Joining(x, p) && 0 < |update| && update[0] == ns[p - 1]
      ensures forall i | 0 <= i < level :: LevelOK(Inserted(ns, p, x), Inserted(hs, p, x.height), i)
      ensures x.height < level ==> header.forward[level - 1] != null
    {
      hide Next, LevelOK, LinkOK, Inserted, Place, Sorted, BackwardOK, Before, Valid;
      PlaceBound(p, x.elem);
      FirstBefore(p, rank[0]);
      LinkLevels(update, rank, x, p);
      assert Relinked(header, level) by { assert ns[0] == header; }
    }

    /** Link a new node in everywhere. */
    method Attach(update: seq<Node>, rank: seq<nat>, x: Node, ghost p: nat)
      requires Joining(x, p) && |update| == |rank| == SKIPLIST_MAXLEVEL
      requires forall i | 0 <= i < level :: LevelOK(ns, hs, i)
      requires forall i | 0 <= i < level :: Before(hs, p, i, rank[i]) && update[i] == ns[rank[i]]
      requires x.height < level ==> header.forward[level - 1] != null
      modifies this, ns, x
      ensures Valid() && ns == Inserted(old(ns), p, x) && Contents() == Inserted(old(Contents()), p - 1, x.elem)
    {
      hide *;
      LinkAt(update, rank, x, p);
      JoiningPlace(x, p);
      if x.height == level { TopLinked(x, p); }
      Join(update[0], x, p);
    }

    lemma JoiningPlace(x: Node, p: nat)
      requires Joining(x, p)
      ensures Sized() && 1 <= p <= |ns| && 1 <= x.height <= level
    {
      hide Built, Sorted, Place, BackwardOK;
      PlaceBound(p, x.elem);
    }

    /** The header is linked at every level that some node has. */
    lemma TopLinked(x: Node, p: nat)
      requires Sized() && 1 <= p <= |ns| && 1 <= x.height <= level
      requires LevelOK(Inserted(ns, p, x), Inserted(hs, p, x.height), x.height - 1)
      ensures x.height - 1 < |header.forward| && header.forward[x.height - 1] != null
    {
      hide Inserted;
      var ns', hs', i := Inserted(ns, p, x), Inserted(hs, p, x.height), x.height - 1;
      InsertedAt(ns, p, x, 0);
      InsertedAt(hs, p, x.height, 0);
      InsertedAt(hs, p, x.height, p);
      NextLeast(hs', 0, i, p);
      assert LinkOK(ns', hs', 0, i);
    }

    /** All but the levels, with index `p` the place for a node of `e`. */
    ghost predicate Ready(e: Elem, p: nat)
      reads this, ns
    {
      && Sized() && Built(ns, hs, es) && Sorted(Contents()) && BackwardOK(ns) && length == |ns| - 1
      && tail == (if |ns| == 1 then null else ns[|ns| - 1])
      && (forall i | level <= i < SKIPLIST_MAXLEVEL :: header.forward[i] == null)
      && p == Place(Contents(), e) + 1
    }

    /** A new node `x`, at most linked on its levels, joins at index `p`. */
    ghost predicate Joining(x: Node, p: nat)
      reads this, ns, x
    {
      Ready(x.elem, p) && x !in ns && 1 <= x.height == |x.forward| == |x.span| && x.height <= level
    }

    /** Backward links and the tail. */
    method LinkBack(u: Node, x: Node, ghost p: nat)
      requires Joining(x, p) && 1 <= p <= |ns| && u == ns[p - 1]
      requires x.forward[0] == if p < |ns| then ns[p] else null
      modifies `tail, ns`backward, x`backward
      ensures BackwardOK(Inserted(ns, p, x)) && tail == if p < |ns| then old(tail) else x
    {
      hide Next, LevelOK, LinkOK, Sorted, Place, Inserted;
      x.backward := if u == header then null else u;
      if x.forward[0] != null { x.forward[0].backward := x; } else { tail := x; }
      forall k | 0 <= k < |ns| && k != p ensures BackLink(ns, k) { assert old(BackLink(ns, k)); }
      BackwardInserted(ns, p, x);
    }

    /** The links besides the levels, and the length. */
    method Join(u: Node, x: Node, ghost p: nat)
      requires Joining(x, p) && u == ns[p - 1]
      requires forall i | 0 <= i < level :: LevelOK(Inserted(ns, p, x), Inserted(hs, p, x.height), i)
      requires level > 1 ==> header.forward[level - 1] != null
      modifies this, ns`backward, x`backward
      ensures Valid() && ns == Inserted(old(ns), p, x) && Contents() == Inserted(old(Contents()), p - 1, x.elem)
    {
      hide Next, LevelOK, LinkOK, Sorted, Place, Inserted, BackwardOK;
      ContentsInserted(x.elem, p);
      SuccessorOf(x, p);
      EndsInserted(x, p);
      ghost var ns', hs' := Inserted(ns, p, x), Inserted(hs, p, x.height);
      label Linked:
      LinkBack(u, x, p);
      BuiltInserted(ns, hs, es, p, x);
      forall i | 0 <= i < level ensures LevelOK(ns', hs', i) { assert old@Linked(LevelOK(ns', hs', i)); }
      hide *;
      length := length + 1;
      ns, hs, es := Inserted(ns, p, x), Inserted(hs, p, x.height), Inserted(es, p, x.elem);
      AllValid();
    }

    lemma AllValid()
      requires |ns| == |hs| == |es| > 0 && ns[0] == header && hs[0] == SKIPLIST_MAXLEVEL
      requires 1 <= level <= SKIPLIST_MAXLEVEL && forall k | 0 < k < |hs| :: 1 <= hs[k] <= level
      requires Built(ns, hs, es) && Sorted(es[1..]) && forall i | 0 <= i < level :: LevelOK(ns, hs, i)
      requires forall i | level <= i < SKIPLIST_MAXLEVEL :: header.forward[i] == null
      requires level > 1 ==> header.forward[level - 1] != null
      requires BackwardOK(ns) && length == |ns| - 1
      requires tail == if |ns| == 1 then null else ns[|ns| - 1]
      ensures Valid() && Contents() == es[1..]
    {
      hide Sorted, Built, LevelOK, BackwardOK;
    }

    lemma EndsInserted(x: Node, p: nat)
      requires Sized() && 1 <= p <= |ns| && 1 <= x.height <= level
      ensures var ns', hs' := Inserted(ns, p, x), Inserted(hs, p, x.height);
              && ns'[0] == header && hs'[0] == SKIPLIST_MAXLEVEL
              && (forall k | 0 < k < |hs'| :: 1 <= hs'[k] <= level)
              && ns'[|ns|] == if p == |ns| then x else ns[|ns| - 1]
    {
    }

    lemma ContentsInserted(e: Elem, p: nat)
      requires |es| > 0 && 1 <= p <= |es| && Sorted(Contents()) && p == Place(Contents(), e) + 1
      ensures Inserted(es, p, e)[1..] == Inserted(Contents(), p - 1, e) && Sorted(Inserted(es, p, e)[1..])
    {
      InsertSorted(Contents(), e);
    }

    /** The new node's first link is to the node now behind it. */
    lemma SuccessorOf(x: Node, p: nat)
      requires Joining(x, p) && LevelOK(Inserted(ns, p, x), Inserted(hs, p, x.height), 0)
      ensures 1 <= p <= |ns| && x.forward[0] == if p < |ns| then ns[p] else null
    {
      hide Sorted;
      var ns', hs' := Inserted(ns, p, x), Inserted(hs, p, x.height);
      PlaceBound(p, x.elem);
      InsertedAt(ns, p, x, p);
      InsertedAt(hs, p, x.height, p);
      assert LinkOK(ns', hs', p, 0);
      if p < |ns| {
        InsertedAt(ns, p, x, p + 1);
        InsertedAt(hs, p, x.height, p + 1);
        assert hs[p] > 0;
      }
    }

    lemma PlaceBound(p: nat, e: Elem)
      requires Sized() && p == Place(Contents(), e) + 1
      ensures 1 <= p <= |ns|
    {
    }

    // ---------- Removal ----------

    /** One level from which node `x` is unlinked, or across which the link shrinks. */
    method UnlinkLevel(u: Node, x: Node, i: nat, ghost r: nat, ghost p: nat)
      requires |ns| == |hs| == |es| && Built(ns, hs, es) && LevelOK(ns, hs, i)
      requires p < |ns| && Before(hs, p, i, r) && u == ns[r] && x == ns[p]
      modifies u`forward, u`span
      ensures LevelOK(Removed(ns, p), Removed(hs, p), i)
      ensures forall j: nat | j != i && old(LevelOK(Removed(ns, p), Removed(hs, p), j)) ::
              LevelOK(Removed(ns, p), Removed(hs, p), j)
      ensures forall j: nat | j != i && old(LevelOK(ns, hs, j)) :: LevelOK(ns, hs, j)
      ensures OnlyLevel(u, i)
    {
      hide Removed;
      assert LinkOK(ns, hs, r, i);
      if hs[p] > i { NextLeast(hs, r, i, p); assert LinkOK(ns, hs, p, i); }
      if u.forward[i] == x {
        u.span := u.span[i := u.span[i] + (x.span[i] - 1)];
        u.forward := u.forward[i := x.forward[i]];
      } else {
        u.span := u.span[i := u.span[i] - 1];
      }
      forall k {:trigger LinkOK(ns, hs, k, i)} | 0 <= k < |ns| && hs[k] > i && k != r && k != p
          ensures LinkOK(ns, hs, k, i) {
        assert old(LinkOK(ns, hs, k, i)) && ns[k] != u;
      }
      RemoveLevel(ns, hs, p, i, r);
      hide LevelOK, LinkOK;
      NodesLeft(ns, p);
      LevelsKept(Row(Removed(ns, p), Removed(hs, p), i));
      LevelsKept(Row(ns, hs, i));
    }

    /** Unlink node `x` from every level. */
    method UnlinkLevels(update: seq<Node>, ghost rank: seq<nat>, x: Node, ghost p: nat)
      requires Sized() && Built(ns, hs, es) && 1 <= p < |ns| && x == ns[p] && |update| == |rank| == SKIPLIST_MAXLEVEL
      requires forall i | 0 <= i < level :: LevelOK(ns, hs, i)
      requires forall i | 0 <= i < level :: Before(hs, p, i, rank[i]) && update[i] == ns[rank[i]]
      requires forall i | level <= i < SKIPLIST_MAXLEVEL :: header.forward[i] == null
      modifies ns`forward, ns`span
      ensures forall i | 0 <= i < level :: LevelOK(Removed(ns, p), Removed(hs, p), i)
      ensures Built(ns, hs, es) && x.forward == old(x.forward)
      ensures forall i | level <= i < SKIPLIST_MAXLEVEL :: header.forward[i] == null
    {
      hide Next, Removed, LevelOK, LinkOK;
      ghost var ns', hs' := Removed(ns, p), Removed(hs, p);
      var i := 0;
      while i < level
        invariant 0 <= i <= level
        invariant Built(ns, hs, es) && x.forward == old(x.forward)
        invariant forall i | level <= i < SKIPLIST_MAXLEVEL :: header.forward[i] == null
        invariant forall j | 0 <= j < i :: LevelOK(ns', hs', j)
        invariant forall j | i <= j < level :: LevelOK(ns, hs, j)
      {
        label Here:
        UnlinkLevel(update[i], x, i, rank[i], p);
        assert OnlyLevel@Here(update[i], i);
        i := i + 1;
      }
    }

    /** Nothing is linked behind the header at a level that no node has. */
    lemma NoneAbove(ns: seq<Node>, hs: seq<nat>, i: nat)
      requires |ns| == |hs| > 0 && hs[0] > i && LevelOK(ns, hs, i)
      requires i < |ns[0].forward| && ns[0].forward[i] == null
      ensures forall k | 0 < k < |hs| :: hs[k] <= i
    {
      assert LinkOK(ns, hs, 0, i);
      forall k | 0 < k < |hs| ensures hs[k] <= i { if hs[k] > i { NextLeast(hs, 0, i, k); } }
    }

    /** Backward links and the tail. */
    method UnlinkBack(x: Node, ghost p: nat)
      requires |ns| == |hs| == |es| && Built(ns, hs, es) && BackwardOK(ns) && 1 <= p < |ns| && x == ns[p]
      requires 0 < |x.forward| && x.forward[0] == if p + 1 < |ns| then ns[p + 1] else null
      modifies `tail, ns`backward
      ensures BackwardOK(Removed(ns, p))
      ensures tail == if p + 1 < |ns| then old(tail) else if p == 1 then null else ns[p - 1]
    {
      assert BackLink(ns, p);
      if x.forward[0] != null { x.forward[0].backward := x.backward; } else { tail := x.backward; }
      forall k | 0 <= k < |ns| && k != p + 1 ensures BackLink(ns, k) { assert old(BackLink(ns, k)); }
      BackwardRemoved(ns, p);
    }

    /** All but the top of the levels after a removal. */
    ghost predicate Shrinking()
      reads this, ns
    {
      && Sized() && Built(ns, hs, es) && Sorted(Contents())
      && (forall i | 0 <= i < level :: LevelOK(ns, hs, i))
      && (forall i | level <= i < SKIPLIST_MAXLEVEL :: header.forward[i] == null)
      && BackwardOK(ns) && tail == (if |ns| == 1 then null else ns[|ns| - 1])
      && length == |ns| - 1
    }

    /** Drop the levels that only the header has. */
    method Shrink()
      requires Shrinking()
      modifies `level
      ensures Valid() && level <= old(level)
    {
      hide Sorted, Next, LinkOK, BackwardOK;
      while level > 1 && header.forward[level - 1] == null
        invariant Shrinking() && level <= old(level)
        decreases level
      {
        hide LevelOK;
        NoneAbove(ns, hs, level - 1);
        level := level - 1;
      }
    }

    lemma EndsRemoved(p: nat)
      requires Sized() && 1 <= p < |ns|
      ensures var ns', hs' := Removed(ns, p), Removed(hs, p);
              && ns'[0] == header && hs'[0] == SKIPLIST_MAXLEVEL
              && (forall k | 0 < k < |hs'| :: 1 <= hs'[k] <= level)
              && ns'[|ns| - 2] == ns[if p == |ns| - 1 then |ns| - 2 else |ns| - 1]
    {
    }

    lemma ContentsRemoved(p: nat)
      requires 1 <= p < |es| && Sorted(Contents())
      ensures Removed(es, p)[1..] == Removed(Contents(), p - 1) && Sorted(Removed(es, p)[1..])
    {
      RemoveSorted(Contents(), p - 1);
    }

    /** The first link of a node is to the next node. */
    lemma FirstLink(p: nat)
      requires Sized() && p < |ns| && LevelOK(ns, hs, 0) && (p == 0 || hs[p] > 0)
      ensures 0 < |ns[p].forward| && ns[p].forward[0] == if p + 1 < |ns| then ns[p + 1] else null
    {
      assert LinkOK(ns, hs, p, 0);
      if p + 1 < |ns| { assert hs[p + 1] > 0; }
    }

    /** Unlink node `x` in every direction. */
    method Detach(x: Node, update: seq<Node>, ghost rank: seq<nat>, ghost p: nat)
      requires Valid() && 1 <= p < |ns| && x == ns[p] && |update| == |rank| == SKIPLIST_MAXLEVEL
      requires forall i | 0 <= i < level :: Before(hs, p, i, rank[i]) && update[i] == ns[rank[i]]
      modifies `tail, ns
      ensures Built(ns, hs, es) && BackwardOK(Removed(ns, p))
      ensures forall i | 0 <= i < level :: LevelOK(Removed(ns, p), Removed(hs, p), i)
      ensures forall i | level <= i < SKIPLIST_MAXLEVEL :: header.forward[i] == null
      ensures tail == if p + 1 < |ns| then old(tail) else if p == 1 then null else ns[p - 1]
    {
      hide Next, Removed, LevelOK, LinkOK, Sorted, BackwardOK, Before;
      FirstLink(p);
      UnlinkLevels(update, rank, x, p);
      ghost var ns', hs' := Removed(ns, p), Removed(hs, p);
      label Unlinked:
      UnlinkBack(x, p);
      forall i | 0 <= i < level ensures LevelOK(ns', hs', i) { assert old@Unlinked(LevelOK(ns', hs', i)); }
    }

    /** Take node `x` out, given the last node before it on every level. */
    method DeleteNode(x: Node, update: seq<Node>, ghost rank: seq<nat>, ghost p: nat)
      requires Valid() && 1 <= p < |ns| && x == ns[p] && |update| == |rank| == SKIPLIST_MAXLEVEL
      requires forall i | 0 <= i < level :: Before(hs, p, i, rank[i]) && update[i] == ns[rank[i]]
      modifies this, ns
      ensures Valid() && ns == Removed(old(ns), p) && Contents() == Removed(old(Contents()), p - 1)
      ensures level <= old(level)
      ensures forall i | 0 <= i < level :: Before(hs, p, i, rank[i]) && update[i] == ns[rank[i]]
    {
      hide Next, Removed, LevelOK, LinkOK, Sorted, BackwardOK, Before;
      StillBefore(update, rank, p);
      Detach(x, update, rank, p);
      Settle(p);
    }

    /** The length and the number of levels after node `p` is unlinked. */
    method Settle(ghost p: nat)
      requires Sized() && Built(ns, hs, es) && Sorted(Contents()) && 1 <= p < |ns| && length == |ns| - 1
      requires BackwardOK(Removed(ns, p))
      requires forall i | 0 <= i < level :: LevelOK(Removed(ns, p), Removed(hs, p), i)
      requires forall i | level <= i < SKIPLIST_MAXLEVEL :: header.forward[i] == null
      requires tail == if p + 1 < |ns| then ns[|ns| - 1] else if p == 1 then null else ns[p - 1]
      modifies `ns, `hs, `es, `length, `level
      ensures Valid() && ns == Removed(old(ns), p) && hs == Removed(old(hs), p) && level <= old(level)
      ensures Contents() == Removed(old(Contents()), p - 1)
    {
      hide Next, Removed, LevelOK, LinkOK, Sorted, BackwardOK;
      BuiltRemoved(ns, hs, es, p);
      ContentsRemoved(p);
      EndsRemoved(p);
      length := length - 1;
      ns, hs, es := Removed(ns, p), Removed(hs, p), Removed(es, p);
      Shrink();
    }

    lemma StillBefore(update: seq<Node>, rank: seq<nat>, p: nat)
      requires Sized() && 1 <= p < |ns| && |update| == |rank| == SKIPLIST_MAXLEVEL
      requires forall i | 0 <= i < level :: Before(hs, p, i, rank[i]) && update[i] == ns[rank[i]]
      ensures forall i | 0 <= i < level :: Before(Removed(hs, p), p, i, rank[i]) && update[i] == Removed(ns, p)[rank[i]]
    {
      forall i | 0 <= i < level ensures Before(Removed(hs, p), p, i, rank[i]) && update[i] == Removed(ns, p)[rank[i]] {
        assert Before(hs, p, i, rank[i]);
        RemovedAt(hs, p, rank[i]);
        RemovedAt(ns, p, rank[i]);
        NextRemoved(hs, p, i, rank[i]);
      }
    }

    /** Delete the element `e`, if it is there. */
    method Delete(e: Elem) returns (found: bool)
      requires Valid()
      modifies this, ns
      ensures Valid() && found == (e in old(Contents()))
      ensures !found ==> Contents() == old(Contents())
      ensures found ==> var p := Place(old(Contents()), e);
                        && p < |old(Contents())| && old(Contents())[p] == e && Contents() == Removed(old(Contents()), p)
      ensures forall n | n in ns :: n in old(ns)
    {
      ghost var p := Place(Contents(), e) + 1;
      var update, rank := FindBefore(e, p);
      MemberAt(e);
      hide Valid, Aimed, Place, Removed;
      var x := update[0].forward[0];
      if x != null && x.elem.score == e.score && CompareObj(x.elem.obj, e.obj) == 0 {
        CompareOrder(x.elem.obj, e.obj, []);
        var _, _ := DeleteOne(x, update, rank, p, set n | n in ns);
        return true;
      }
      CompareOrder(e.obj, e.obj, []);
      return false;
    }

    /** An element is there exactly when it is where it would be put. */
    lemma MemberAt(e: Elem)
      requires Valid()
      ensures |es| == |ns| > 0
      ensures var p := Place(Contents(), e);
              && (e in Contents() <==> p < |Contents()| && Contents()[p] == e)
              && (p < |Contents()| ==> ns[p + 1].elem == Contents()[p])
    {
      var p := Place(Contents(), e);
      PlaceSplits(Contents(), e);
      if e in Contents() {
        var k :| 0 <= k < |Contents()| && Contents()[k] == e;
        TotalOrder(e, e, e);
        assert p <= k;
        if p < k { TotalOrder(Contents()[p], e, e); }
      }
    }

    /** Walk along level `i` from node `r` to the last node of a rank below `start`. */
    method AdvanceBelow(start: nat, i: nat, from: Node, before: nat, ghost p: nat) returns (x: Node, r: nat)
      requires Valid() && p == (if start == 0 then 1 else if start > |ns| then |ns| else start)
      requires i < level && before < p && from == ns[before] && hs[before] > i
      ensures Before(hs, p, i, r) && x == ns[r] && r < p && hs[r] > i
    {
      hide *;
      WalkOn(i);
      x, r := from, before;
      Follow(ns, hs, es, r, i);
      while x.forward[i] != null && r + x.span[i] < start
        invariant r < p && x == ns[r] && hs[r] > i && i < |x.forward| && i < |x.span|
        decreases p - r
      {
        Follow(ns, hs, es, r, i);
        r := r + x.span[i];
        x := x.forward[i];
        Follow(ns, hs, es, r, i);
      }
      Follow(ns, hs, es, r, i);
      IsBefore(p, i, r);
    }

    /** The last node of a rank below `start` on every level, and the rank of the one at level 0. */
    method FindRank(start: nat, ghost p: nat) returns (update: seq<Node>, ghost rank: seq<nat>, traversed: nat)
      requires Valid() && p == (if start == 0 then 1 else if start > |ns| then |ns| else start)
      ensures |ns| == |hs| == |es| && 1 <= p <= |ns| && Aimed(update, rank, p) && traversed + 1 == p
      ensures AtFirst(update, p)
    {
      hide Next, LevelOK, LinkOK, Sorted, BackwardOK, Built, Before;
      var x := header;
      traversed := 0;
      update, rank := seq(SKIPLIST_MAXLEVEL, _ => x), seq(SKIPLIST_MAXLEVEL, _ => 0);
      var i := level;
      while i > 0
        invariant 0 <= i <= level && |update| == |rank| == SKIPLIST_MAXLEVEL
        invariant traversed < p <= |ns| && x == ns[traversed] && (i > 0 ==> hs[traversed] >= i)
        invariant forall k | i <= k < level :: Before(hs, p, k, rank[k]) && rank[k] < p && update[k] == ns[rank[k]]
        invariant i == 0 ==> rank[0] == traversed
      {
        i := i - 1;
        x, traversed := AdvanceBelow(start, i, x, traversed, p);
        update, rank := update[i := x], rank[i := traversed];
      }
      FirstBefore(p, traversed);
      FirstLink(traversed);
    }

    /** Delete the elements of ranks `start` to `end`, counted from 1, and report them in order. */
    method DeleteByRank(start: nat, end: nat) returns (removed: nat, gone: seq<Elem>)
      requires Valid()
      modifies this, ns
      ensures Valid() && removed == |gone|
      ensures var c := old(Contents());
              var lo := if start == 0 then 0 else start - 1;
              gone == Ranks(c, lo, end) && Contents() == Others(c, lo, end)
      ensures forall n | n in ns :: n in old(ns)
    {
      ghost var p := if start == 0 then 1 else if start > |ns| then |ns| else start;
      hide Valid, Aimed, Ranks, Others;
      var update, rank, traversed := FindRank(start, p);
      RanksPast(Contents(), traversed, if start == 0 then 0 else start - 1, end);
      removed, gone := DeleteFrom(update[0].forward[0], update, rank, traversed + 1, end, set n | n in ns);
    }

    /** Delete a node, and say which one is in its place then. */
    method DeleteOne(node: Node, update: seq<Node>, ghost rank: seq<nat>, ghost p: nat, ghost all: set<Node>)
      returns (next: Node?, e: Elem)
      requires Valid() && 1 <= p < |ns| && node == ns[p] && Aimed(update, rank, p)
      requires forall k | 0 <= k < |ns| :: ns[k] in all
      modifies this, all
      ensures Valid() && |ns| == |hs| == |es| == |old(ns)| - 1 && next == (if p < |ns| then ns[p] else null)
      ensures e == old(Contents()[p - 1]) && Contents() == Removed(old(Contents()), p - 1) && Aimed(update, rank, p)
      ensures forall k | 0 <= k < |ns| :: ns[k] in all
    {
      FirstLink(p);
      NodesLeft(ns, p);
      RemovedNode(ns, p);
      hide Next, LevelOK, LinkOK, Sorted, BackwardOK, Before, Removed;
      next, e := node.forward[0], node.elem;
      DeleteNode(node, update, rank, p);
    }

    /** Delete nodes one after the other, from rank `first` while the rank is at most `end`. */
    method DeleteFrom(x: Node?, update: seq<Node>, ghost rank: seq<nat>, first: nat, end: nat, ghost all: set<Node>)
      returns (removed: nat, gone: seq<Elem>)
      requires Valid() && |ns| == |hs| == |es| && 1 <= first <= |ns| && x == (if first < |ns| then ns[first] else null)
      requires Aimed(update, rank, first) && forall k | 0 <= k < |ns| :: ns[k] in all
      modifies this, all
      ensures Valid() && removed == |gone|
      ensures var c := old(Contents()); gone == Ranks(c, first - 1, end) && Contents() == Others(c, first - 1, end)
      ensures forall k | 0 <= k < |ns| :: ns[k] in all
    {
      hide Valid, Aimed, Removed, Ranks, Others;
      ghost var c, lo := Contents(), first - 1;
      RanksNone(c, lo);
      var traversed := first;
      var node := x;
      removed, gone := 0, [];
      while node != null && traversed <= end
        invariant Valid() && |ns| == |hs| == |es| && Aimed(update, rank, first)
        invariant 1 <= first <= |ns| && node == (if first < |ns| then ns[first] else null)
        invariant traversed == first + removed && removed == |gone| && (removed > 0 ==> lo + removed <= end)
        invariant |c| == |ns| - 1 + removed
        invariant gone == Ranks(c, lo, lo + removed) && Contents() == Others(c, lo, lo + removed)
        invariant forall k | 0 <= k < |ns| :: ns[k] in all
        decreases |ns|
      {
        var next, e := DeleteOne(node, update, rank, first, all);
        RanksStep(c, lo, lo + removed);
        gone := gone + [e];
        removed := removed + 1;
        traversed := traversed + 1;
        node := next;
      }
      RanksDone(c, lo, lo + removed, end);
    }

    lemma RemovedNode(nodes: seq<Node>, p: nat)
      requires p < |nodes|
      ensures p + 1 < |nodes| ==> Removed(nodes, p)[p] == nodes[p + 1]
    {
    }

    // ---------- Queries ----------

    /** The rank of a node on the way to rank `rank`: the last one on level `i` that is not beyond it. */
    method AdvanceUpTo(rank: nat, i: nat, from: Node, before: nat) returns (x: Node, r: nat)
      requires Valid() && i < level && before <= rank < |ns| && before < |ns| && from == ns[before] && hs[before] > i
      ensures r <= rank && x == ns[r] && hs[r] > i && rank < Next(hs, r, i)
    {
      hide *;
      WalkOn(i);
      x, r := from, before;
      Follow(ns, hs, es, r, i);
      while x.forward[i] != null && r + x.span[i] <= rank
        invariant r <= rank && x == ns[r] && hs[r] > i && i < |x.forward| && i < |x.span|
        decreases rank - r
      {
        Follow(ns, hs, es, r, i);
        r := r + x.span[i];
        x := x.forward[i];
        Follow(ns, hs, es, r, i);
      }
      Follow(ns, hs, es, r, i);
    }

    /** The element of a rank, counted from 1. */
    method GetNodeByRank(rank: nat) returns (node: Node?)
      requires Valid()
      ensures node == if 1 <= rank < |ns| then ns[rank] else null
      ensures if 1 <= rank <= |Contents()| then node != null && node.elem == Contents()[rank - 1] else node == null
    {
      if rank == 0 || rank > length { return null; }
      hide Next, Sorted, LevelOK, LinkOK, BackwardOK;
      var x := header;
      var traversed: nat := 0;
      var i := level;
      while i > 0
        invariant 0 <= i <= level && traversed < rank < |ns| && x == ns[traversed] && (i > 0 ==> hs[traversed] >= i)
        invariant i == 0 ==> traversed == rank
      {
        i := i - 1;
        x, traversed := AdvanceUpTo(rank, i, x, traversed);
        if traversed == rank { return x; }
        if i == 0 { FirstNext(traversed); }
      }
      return null;
    }

    /** At level 0 the next node is the next one in order. */
    lemma FirstNext(r: nat)
      requires Sized() && r < |hs|
      ensures Next(hs, r, 0) == r + 1
    {
    }

    /** How many elements are not after `e`. */
    ghost function UpTo(e: Elem): (p: nat)
      requires Valid()
      reads this, ns
      ensures p < |ns| && forall k | 0 < k < |ns| :: !Less(e, es[k]) <==> k <= p
    {
      var p := CountUpTo(Contents(), e);
      CountSplits(Contents(), e);
      assert forall k | 0 < k < |ns| :: es[k] == Contents()[k - 1];
      p
    }

    /** Walk along level `i` to the last node not after `e`. */
    method AdvanceNotAfter(e: Elem, i: nat, from: Node, before: nat) returns (x: Node, r: nat)
      requires Valid() && i < level && before <= UpTo(e) && from == ns[before] && hs[before] > i
      ensures r <= UpTo(e) < Next(hs, r, i) && r < |ns| && x == ns[r] && hs[r] > i
    {
      hide *;
      WalkOn(i);
      ghost var p := UpTo(e);
      x, r := from, before;
      Follow(ns, hs, es, r, i);
      while x.forward[i] != null && NotAfter(x.forward[i].elem, e)
        invariant r <= p && x == ns[r] && hs[r] > i && i < |x.forward| && i < |x.span|
        decreases p - r
      {
        Follow(ns, hs, es, r, i);
        r := r + x.span[i];
        x := x.forward[i];
        Follow(ns, hs, es, r, i);
      }
      Follow(ns, hs, es, r, i);
    }

    /**
     * The rank of a stored element, counted from 1, when its member is stored only once; 0 when the member is
     * not stored at all. For any score, a rank is that of the member at this or a lower score, and 0 says that the
     * last element not after the one asked for has another member.
     */
    method GetRank(e: Elem) returns (rank: nat)
      requires Valid()
      ensures forall k | 0 <= k < |Contents()| && Contents()[k] == e && OnlyThere(Contents(), k) :: rank == k + 1
      ensures (forall k | 0 <= k < |Contents()| :: Contents()[k].obj != e.obj) ==> rank == 0
      ensures rank <= |Contents()|
      ensures rank > 0 ==> Contents()[rank - 1].obj == e.obj && !Less(e, Contents()[rank - 1])
      ensures rank == 0 ==> forall k | 0 <= k < |Contents()| && LastNotAfter(Contents(), e, k) ::
                              Contents()[k].obj != e.obj
    {
      forall k | 0 < k < |ns| ensures es[k] == Contents()[k - 1] {}
      SelfUpTo(e);
      hide Next, Sorted, LevelOK, LinkOK, BackwardOK, Less, UpTo;
      var x := header;
      rank := 0;
      var i := level;
      while i > 0
        invariant 0 <= i <= level && rank <= UpTo(e) && x == ns[rank] && (i > 0 ==> hs[rank] >= i)
        invariant i == 0 ==> rank == UpTo(e) && (rank > 0 ==> es[rank].obj != e.obj)
      {
        i := i - 1;
        x, rank := AdvanceNotAfter(e, i, x, rank);
        if x != header {
          CompareOrder(x.elem.obj, e.obj, []);
          if CompareObj(x.elem.obj, e.obj) == 0 {
            assert es[rank].obj == e.obj;
            return;
          }
        }
        if i == 0 { FirstNext(rank); }
      }
      rank := 0;
    }

    /** Asking for the element of a rank and for the rank of that element leads back, when its member is stored once. */
    method RankOfRanked(rank: nat) returns (back: nat)
      requires Valid() && 1 <= rank <= |Contents()| && OnlyThere(Contents(), rank - 1)
      ensures back == rank
    {
      ghost var k := rank - 1;
      var node := GetNodeByRank(rank);
      assert Contents()[k] == node.elem && OnlyThere(Contents(), k);
      hide Valid;
      back := GetRank(node.elem);
      assert Contents()[k] == node.elem && OnlyThere(Contents(), k);
    }

    /**
     * Asking for the rank of an element and for the element of that rank leads back, when its member is stored once.
     */
    method RankedOfRank(e: Elem) returns (node: Node?)
      requires Valid() && exists k | 0 <= k < |Contents()| :: Contents()[k] == e && OnlyThere(Contents(), k)
      ensures node != null && node.elem == e
    {
      ghost var k :| 0 <= k < |Contents()| && Contents()[k] == e && OnlyThere(Contents(), k);
      hide Valid;
      var rank := GetRank(e);
      assert Contents()[k] == e && OnlyThere(Contents(), k);
      assert rank == k + 1;
      node := GetNodeByRank(rank);
    }

    /** A stored element is at or before the last element not after it; equal to that one when stored once. */
    lemma SelfUpTo(e: Elem)
      requires Valid()
      ensures forall k | 0 < k < |ns| && es[k] == e && OnlyThere(Contents(), k - 1) :: k == UpTo(e)
    {
      forall k | 0 < k < |ns| && es[k] == e && OnlyThere(Contents(), k - 1) ensures k == UpTo(e) {
        TotalOrder(e, e, e);
        var p := UpTo(e);
        if k < p {
          assert es[p] == Contents()[p - 1] && es[k] == Contents()[k - 1];
          TotalOrder(es[p], e, e);
        }
      }
    }

    /** Whether the scores of the list, taken as one interval, meet the range. */
    method IsInRange(min: real, max: real) returns (r: bool)
      requires Valid()
      ensures r <==> Spans(Contents(), min, max)
    {
      if min > max { return false; }
      assert |ns| > 1 ==> tail.elem == Contents()[|Contents()| - 1];
      if tail == null || tail.elem.score < min { return false; }
      FirstLink(0);
      var x := header.forward[0];
      assert |ns| > 1 ==> x.elem == Contents()[0];
      r := x != null && x.elem.score <= max;
    }

    /** Walk along level `i` while scores are below `bound`, or at it when `incl`; node `p` is the last such. */
    method AdvanceToScore(bound: real, incl: bool, i: nat, from: Node, ghost before: nat, ghost p: nat)
      returns (x: Node, ghost r: nat)
      requires Valid() && i < level && before <= p < |ns| && from == ns[before] && hs[before] > i
      requires forall k | 0 < k < |ns| :: (es[k].score < bound || (incl && es[k].score == bound)) <==> k <= p
      ensures r <= p < Next(hs, r, i) && x == ns[r] && hs[r] > i
    {
      hide *;
      WalkOn(i);
      x, r := from, before;
      Follow(ns, hs, es, r, i);
      while x.forward[i] != null && (x.forward[i].elem.score < bound || (incl && x.forward[i].elem.score == bound))
        invariant r <= p && x == ns[r] && hs[r] > i && i < |x.forward|
        decreases p - r
      {
        Follow(ns, hs, es, r, i);
        r := Next(hs, r, i);
        x := x.forward[i];
        Follow(ns, hs, es, r, i);
      }
      Follow(ns, hs, es, r, i);
    }

    /** Down the levels to the last node of a score below `bound`, or at it when `incl`. */
    method SeekScore(bound: real, incl: bool, ghost p: nat) returns (x: Node)
      requires Valid() && p < |ns|
      requires forall k | 0 < k < |ns| :: (es[k].score < bound || (incl && es[k].score == bound)) <==> k <= p
      ensures x == ns[p]
    {
      hide Next, Sorted, LevelOK, LinkOK, BackwardOK, Built;
      x := header;
      ghost var r: nat := 0;
      var i := level;
      while i > 0
        invariant 0 <= i <= level && r <= p && x == ns[r] && (i > 0 ==> hs[r] >= i)
        invariant i == 0 ==> r == p
      {
        i := i - 1;
        x, r := AdvanceToScore(bound, incl, i, x, r, p);
        if i == 0 { FirstNext(r); }
      }
    }

    /** Which elements have scores below `x`, and at most `x`, counting the header as node 0. */
    lemma ScoresAmong(x: real)
      requires Valid()
      ensures |ns| == |hs| == |es| == |Contents()| + 1 && 0 < level
      ensures forall k | 0 < k < |ns| :: es[k].score < x <==> k <= FromScore(Contents(), x)
      ensures forall k | 0 < k < |ns| :: es[k].score <= x <==> k <= ToScore(Contents(), x)
    {
      hide Valid, FromScore, ToScore, Sorted;
      NodesStored();
      ScoresSplit(Contents(), x);
      forall k | 0 < k < |ns|
        ensures es[k].score < x <==> k <= FromScore(Contents(), x)
        ensures es[k].score <= x <==> k <= ToScore(Contents(), x)
      {
        assert es[k] == Contents()[k - 1];
      }
    }

    lemma NodesStored()
      requires Valid()
      ensures |ns| == |hs| == |es| == |Contents()| + 1 && 0 < level && Sorted(Contents())
    {
    }

    lemma StoredAt(k: nat)
      requires Valid() && 0 < k < |ns|
      ensures |ns| == |hs| == |es| == |Contents()| + 1 && ns[k].elem == es[k] == Contents()[k - 1]
    {
    }

    /** The first node of a score of at least `min`, when the list spans the range. */
    method FirstInRange(min: real, max: real) returns (node: Node?)
      requires Valid()
      ensures node == null <==> !Spans(Contents(), min, max)
      ensures node != null ==>
                FromScore(Contents(), min) < |Contents()| && node.elem == Contents()[FromScore(Contents(), min)]
      ensures (node == null || min <= node.elem.score <= max)
              <==> (!Spans(Contents(), min, max) || SomeIn(Contents(), min, max))
    {
      var spans := IsInRange(min, max);
      if !spans { return null; }
      FirstInRangeRight(Contents(), min, max);
      ScoresAmong(min);
      hide *;
      ghost var p := FromScore(Contents(), min);
      StoredAt(p + 1);
      var x := SeekScore(min, false, p);
      FirstLink(p);
      node := x.forward[0];
    }

    /** The last node of a score of at most `max`, when the list spans the range. */
    method LastInRange(min: real, max: real) returns (node: Node?)
      requires Valid()
      ensures node == null <==> !Spans(Contents(), min, max)
      ensures node != null ==>
                0 < ToScore(Contents(), max) <= |Contents()| && node.elem == Contents()[ToScore(Contents(), max) - 1]
      ensures (node == null || min <= node.elem.score <= max)
              <==> (!Spans(Contents(), min, max) || SomeIn(Contents(), min, max))
    {
      var spans := IsInRange(min, max);
      if !spans { return null; }
      LastInRangeRight(Contents(), min, max);
      ScoresAmong(max);
      hide *;
      ghost var p := ToScore(Contents(), max);
      StoredAt(p);
      node := SeekScore(max, true, p);
    }
  }

  // ---------- Ranges with nothing in them ----------

  /** An element of the list lies in the range. */
  predicate SomeIn(c: seq<Elem>, min: real, max: real)
  {
    exists k | 0 <= k < |c| :: min <= c[k].score <= max
  }

  /** The first element at or above `min` answers a range query correctly exactly when some element is in the range. */
  lemma FirstInRangeRight(c: seq<Elem>, min: real, max: real)
    requires Sorted(c) && Spans(c, min, max)
    ensures FromScore(c, min) < |c|
    ensures SomeIn(c, min, max) <==> min <= c[FromScore(c, min)].score <= max
  {
    ScoresSplit(c, min);
    if k :| 0 <= k < |c| && min <= c[k].score <= max {
      ScoresSplit(c, c[k].score);
      assert FromScore(c, min) <= k;
    }
  }

  lemma LastInRangeRight(c: seq<Elem>, min: real, max: real)
    requires Sorted(c) && Spans(c, min, max)
    ensures 0 < ToScore(c, max) <= |c|
    ensures SomeIn(c, min, max) <==> min <= c[ToScore(c, max) - 1].score <= max
  {
    ScoresSplit(c, max);
    if k :| 0 <= k < |c| && min <= c[k].score <= max {
      assert k <= ToScore(c, max) - 1;
    }
  }

  /** When some element is in the range, the list spans it; a range between two elements is spanned too. */
  lemma SpansTooMuch()
    ensures forall c: seq<Elem>, min: real, max: real | Sorted(c) && SomeIn(c, min, max) :: Spans(c, min, max)
    ensures var c := [Elem(1.0, []), Elem(5.0, [])]; Sorted(c) && Spans(c, 2.0, 3.0) && !SomeIn(c, 2.0, 3.0)
  {
    forall c: seq<Elem>, min: real, max: real | Sorted(c) && SomeIn(c, min, max) ensures Spans(c, min, max) {
      var k :| 0 <= k < |c| && min <= c[k].score <= max;
      assert k < |c| - 1 ==> !Less(c[|c| - 1], c[k]);
    }
  }
}
