/**
 * The hierarchical timing wheel of skynet_timer.c: 256 near lists and four levels of 64 far lists under a 32-bit
 * clock.
 */
module TimingWheel {
  import opened Arithmetic

  const U32: int := 0x1_0000_0000

  /** Bound on delays: the largest positive 32-bit int, plus one. */
  const MAXDELAY: int := 0x8000_0000

  const TIME_NEAR: int := 256
  const TIME_LEVEL: int := 64

  datatype Event = Event(handle: nat, session: int)

  datatype Node = Node(event: Event, expire: int)

  datatype Slot = Near(k: int) | Far(i: int, k: int)

  predicate InRange(s: Slot)
  {
    match s
    case Near(k) => 0 <= k < TIME_NEAR
    case Far(i, k) => 0 <= i < 4 && 0 <= k < TIME_LEVEL
  }

  /** Clock values that one list of level `i` covers. */
  function Span(i: int): (r: int)
    requires 0 <= i <= 4
    ensures r > 0
  {
    if i == 0 then 0x100 else if i == 1 then 0x4000 else if i == 2 then 0x10_0000
    else if i == 3 then 0x400_0000 else U32
  }

  /** The lowest level, from `i` up, on which `e` and `now` share the span of a whole level. */
  function Level(now: int, e: int, i: int): (r: int)
    requires 0 <= i <= 3
    ensures i <= r <= 3
    decreases 3 - i
  {
    if i == 3 || e / Span(i + 1) == now / Span(i + 1) then i else Level(now, e, i + 1)
  }

  /** The list where a node of expiry `e` belongs when the clock shows `now`. */
  function Place(now: int, e: int): (s: Slot)
    requires 0 <= now < U32 && 0 <= e < U32
    ensures InRange(s)
  {
    if e / TIME_NEAR == now / TIME_NEAR then Near(e % TIME_NEAR)
    else
      var i := Level(now, e, 0);
      Far(i, e / Span(i) % TIME_LEVEL)
  }

  // ---------- What should happen ----------

  /** What happens to a timer: a timeout of some delay is asked for, or the clock ticks. */
  datatype Op = Add(event: Event, delay: int) | Tick

  function Ticks(h: seq<Op>): nat
  {
    if h == [] then 0 else Ticks(h[..|h| - 1]) + (if h[|h| - 1].Tick? then 1 else 0)
  }

  /** The events asked for, in order, whose delay ends at tick `at`. */
  function DueAt(h: seq<Op>, at: int): seq<Event>
  {
    if h == [] then []
    else
      var before := h[..|h| - 1];
      var op := h[|h| - 1];
      DueAt(before, at) + (if op.Add? && Ticks(before) + op.delay == at then [op.event] else [])
  }

  /** Delays are positive 32-bit ints. */
  predicate Proper(h: seq<Op>)
  {
    forall k | 0 <= k < |h| :: h[k].Add? ==> 0 < h[k].delay < MAXDELAY
  }

  lemma Appended(h: seq<Op>, op: Op, at: int)
    ensures Ticks(h + [op]) == Ticks(h) + (if op.Tick? then 1 else 0)
    ensures DueAt(h + [op], at) == DueAt(h, at) + (if op.Add? && Ticks(h) + op.delay == at then [op.event] else [])
  {
    assert (h + [op])[..|h|] == h;
  }

  /** Nothing is due so far ahead that the clock could show its expiry twice. */
  lemma {:induction false} NothingBeyond(h: seq<Op>, at: int)
    requires Proper(h) && at >= Ticks(h) + MAXDELAY
    ensures DueAt(h, at) == []
  {
    if h != [] { NothingBeyond(h[..|h| - 1], at); }
  }

  // ---------- Where nodes go when the clock ticks ----------

  /** Distance from `now` forward to `e` on the wrapping clock. */
  function Distance(now: int, e: int): int
  {
    (e - now) % U32
  }

  /** The level whose list is redistributed when the clock reaches `ct`, from level `i` up; 4 for none. */
  function ShiftLevel(ct: int, i: int): (r: int)
    requires 0 <= ct < U32 && 0 <= i <= 4
    ensures i <= r <= 4
    decreases 4 - i
  {
    if i == 4 || ct % Span(i) != 0 then 4
    else if ct / Span(i) % TIME_LEVEL != 0 then i
    else ShiftLevel(ct, i + 1)
  }

  datatype Moved = NoList | List(s: Slot)

  /** The list that is redistributed when the clock reaches `ct`. */
  function MovedList(ct: int): (r: Moved)
    requires 0 <= ct < U32
    ensures r.List? ==> InRange(r.s)
  {
    if ct == 0 then List(Far(3, 0))
    else
      var i := ShiftLevel(ct, 0);
      if i == 4 then NoList else List(Far(i, ct / Span(i) % TIME_LEVEL))
  }

  /** A list of level `i` is one of 64 in a list of the next level. */
  lemma Nested(x: int, i: int)
    requires 0 <= x < U32 && 0 <= i < 4
    ensures x / Span(i + 1) == x / Span(i) / TIME_LEVEL
  {
  }

  /** Expiries outside the clock's span at level `j` are outside it at every finer level. */
  lemma {:induction false} LevelFrom(now: int, e: int, j: int)
    requires 0 <= now < U32 && 0 <= e < U32 && 0 <= j <= 3 && e / Span(j) != now / Span(j)
    ensures e / TIME_NEAR != now / TIME_NEAR && Level(now, e, 0) == Level(now, e, j)
    decreases j
  {
    if j > 0 {
      Nested(e, j - 1);
      Nested(now, j - 1);
      LevelFrom(now, e, j - 1);
    }
  }

  /** A tick changes the quotients up to the level that is redistributed, and no other. */
  lemma {:induction false} QuotientsChange(now: int, i: int, k: int)
    requires 0 <= now && now + 1 < U32 && 0 <= i <= 4 && 0 <= k <= 4
    requires forall l | 0 <= l < i :: (now + 1) % Span(l) == 0
    ensures var j := ShiftLevel(now + 1, i);
            j < 4 ==> (now + 1) / Span(k) == now / Span(k) + (if k <= j then 1 else 0)
    decreases 4 - i
  {
    if i < 4 && (now + 1) % Span(i) == 0 {
      if (now + 1) / Span(i) % TIME_LEVEL != 0 { NextQuotient(now, i, k); } else { QuotientsChange(now, i + 1, k); }
    }
  }

  lemma NextQuotient(now: int, j: int, k: int)
    requires 0 <= now && now + 1 < U32 && 0 <= j < 4 && 0 <= k <= 4
    requires (now + 1) % Span(j) == 0 && (now + 1) / Span(j) % TIME_LEVEL != 0
    ensures (now + 1) / Span(k) == now / Span(k) + (if k <= j then 1 else 0)
  {
    hide Span;
    if k <= j { SpanWithin(now + 1, j, k); } else { SpanBeyond(now + 1, j, k); }
    QuotientStep(now, k);
  }

  lemma QuotientStep(now: int, k: int)
    requires 0 <= now && 0 <= k <= 4
    ensures (now + 1) / Span(k) == now / Span(k) + (if (now + 1) % Span(k) == 0 then 1 else 0)
  {
    hide Span;
    var s := Span(k);
    var q, r := now / s, now % s;
    Commute(q, s);
    Distribute(q, 1, s);
    if r + 1 < s { Division(now + 1, s, q, r + 1); } else { Division(now + 1, s, q + 1, 0); }
  }

  lemma SpanNext(i: int)
    requires 0 <= i < 4
    ensures Span(i + 1) == TIME_LEVEL * Span(i)
  {
  }

  /** Multiples of a span are multiples of the smaller ones. */
  lemma {:induction false} SpanWithin(x: int, j: int, k: int)
    requires 0 <= k <= j <= 4 && 0 <= x && x % Span(j) == 0
    ensures x % Span(k) == 0
    decreases j
  {
    hide Span;
    if k < j {
      SpanQuotient(x, j - 1);
      SpanWithin(x, j - 1, k);
    }
  }

  lemma SpanQuotient(x: int, i: int)
    requires 0 <= i < 4 && 0 <= x && x % Span(i + 1) == 0
    ensures x % Span(i) == 0 && x / Span(i) % TIME_LEVEL == 0
  {
    hide Span;
    var q := x / Span(i + 1);
    SpanNext(i);
    Commute(q, Span(i + 1));
    Commute(TIME_LEVEL, q);
    Associate(q, TIME_LEVEL, Span(i));
    Division(x, Span(i), q * TIME_LEVEL, 0);
    Division(q * TIME_LEVEL, TIME_LEVEL, q, 0);
  }

  /** A multiple of a span whose quotient is no multiple of the number of lists is no multiple of the larger ones. */
  lemma SpanBeyond(x: int, j: int, k: int)
    requires 0 <= j < k <= 4 && 0 <= x && x % Span(j) == 0 && x / Span(j) % TIME_LEVEL != 0
    ensures x % Span(k) != 0
  {
    hide Span;
    if x % Span(k) == 0 {
      SpanWithin(x, k, j + 1);
      SpanQuotient(x, j);
    }
  }

  lemma LastOfSpan(now: int, e: int, span: int)
    requires 0 <= now < U32 && 0 <= e < U32 && 0 < span <= 0x400_0000
    requires (now + 1) % span == 0 && e / span == now / span
    ensures now - span < e <= now
  {
    var q, m := now / span, (now + 1) / span;
    assert span * q <= e < span * q + span && span * q <= now < span * q + span;
    assert now + 1 == span * m;
    if m <= q { MulOrder(m, q, span); } else { MulOrder(q + 1, m, span); }
  }

  lemma FarAhead(now: int, e: int)
    requires 0 <= now < U32 && 0 <= e < U32 && now - 0x400_0000 < e <= now
    ensures !(1 <= Distance(now, e) < MAXDELAY)
  {
  }

  /** What is ahead is not in the span that the clock is leaving. */
  lemma LeavesSpan(now: int, e: int, j: int)
    requires 0 <= now < U32 && 0 <= e < U32 && 1 <= Distance(now, e) < MAXDELAY && 0 <= j <= 3
    requires (now + 1) % Span(j) == 0
    ensures e / Span(j) != now / Span(j)
  {
    if e / Span(j) == now / Span(j) { LastOfSpan(now, e, Span(j)); FarAhead(now, e); }
  }

  /** A tick moves nodes of one list only, and all of them elsewhere. */
  lemma TickMoves(now: int, e: int)
    requires 0 <= now < U32 && 0 <= e < U32 && 1 <= Distance(now, e) < MAXDELAY
    ensures var ct := (now + 1) % U32;
            if MovedList(ct) == List(Place(now, e)) then Place(ct, e) != Place(now, e)
            else Place(ct, e) == Place(now, e)
  {
    hide Span, Distance, Place, MovedList, ShiftLevel;
    var ct := (now + 1) % U32;
    if now + 1 == U32 {
      MovedAtWrap();
      WrapMoves(e);
    } else if ShiftLevel(ct, 0) == 4 {
      MovedNone(ct);
      NoShift(now);
      SameBlock(now, ct, e);
    } else {
      LevelMoves(now, e, ShiftLevel(ct, 0));
    }
  }

  lemma MovedAtWrap()
    ensures MovedList(0) == List(Far(3, 0))
  {
  }

  lemma MovedNone(ct: int)
    requires 0 < ct < U32 && ShiftLevel(ct, 0) == 4
    ensures MovedList(ct) == NoList
  {
  }

  lemma NoShift(now: int)
    requires 0 <= now && now + 1 < U32 && ShiftLevel(now + 1, 0) == 4
    ensures (now + 1) / TIME_NEAR == now / TIME_NEAR
  {
    if (now + 1) % Span(0) == 0 { SomeShift(now + 1, 0); }
  }

  /** At the start of a near block, some list is redistributed. */
  lemma {:induction false} SomeShift(ct: int, i: int)
    requires 0 < ct < U32 && 0 <= i <= 4 && ct % Span(i) == 0
    ensures i < 4 && ShiftLevel(ct, i) < 4
    decreases 4 - i
  {
    if i < 4 && ct / Span(i) % TIME_LEVEL == 0 {
      assert ct % Span(i + 1) == 0;
      SomeShift(ct, i + 1);
    }
  }

  lemma SameBlock(now: int, ct: int, e: int)
    requires 0 <= now < U32 && 0 <= ct < U32 && 0 <= e < U32 && ct / TIME_NEAR == now / TIME_NEAR
    ensures Place(ct, e) == Place(now, e)
  {
    Nested(now, 0); Nested(now, 1); Nested(now, 2);
    Nested(ct, 0); Nested(ct, 1); Nested(ct, 2);
    assert forall i | 0 <= i <= 3 :: ct / Span(i) == now / Span(i);
    SameLevel(now, ct, e, 0);
  }

  lemma {:induction false} SameLevel(now: int, ct: int, e: int, i: int)
    requires 0 <= i <= 3 && forall k | i < k <= 3 :: ct / Span(k) == now / Span(k)
    ensures Level(ct, e, i) == Level(now, e, i)
    decreases 3 - i
  {
    if i < 3 { SameLevel(now, ct, e, i + 1); }
  }

  lemma LevelMoves(now: int, e: int, j: int)
    requires 0 <= now && now + 1 < U32 && 0 <= e < U32 && 1 <= Distance(now, e) < MAXDELAY
    requires j == ShiftLevel(now + 1, 0) < 4
    ensures MovedList(now + 1) == List(Far(j, (now + 1) / Span(j) % TIME_LEVEL))
    ensures if Place(now, e) == Far(j, (now + 1) / Span(j) % TIME_LEVEL) then Place(now + 1, e) != Place(now, e)
            else Place(now + 1, e) == Place(now, e)
  {
    hide Span, Distance;
    var ct := now + 1;
    ShiftAligned(ct, 0);
    LeavesSpan(now, e, j);
    LevelFrom(now, e, j);
    forall k | 0 <= k <= 4 ensures ct / Span(k) ==
        now / Span(k) + (if k <= j then 1 else 0) { QuotientsChange(now, 0, k); }
    if e / Span(j) != ct / Span(j) {
      LevelFrom(ct, e, j);
      SameLevel(now, ct, e, j);
      if Level(now, e, j) == j { InBlock(now, ct, e, j); }
    } else {
      Nested(e, j);
      Nested(ct, j);
      if e / TIME_NEAR != ct / TIME_NEAR { Lower(ct, e, j); }
    }
  }

  lemma {:induction false} ShiftAligned(ct: int, i: int)
    requires 0 <= ct < U32 && 0 <= i <= 4 && ShiftLevel(ct, i) < 4
    ensures ct % Span(ShiftLevel(ct, i)) == 0
    decreases 4 - i
  {
    if i < 4 && ct % Span(i) == 0 && ct / Span(i) % TIME_LEVEL == 0 { ShiftAligned(ct, i + 1); }
  }

  /** Within one span of the next level, lists of level `j` are told apart by their index. */
  lemma InBlock(now: int, ct: int, e: int, j: int)
    requires 0 <= now < U32 && 0 <= ct < U32 && 0 <= e < U32 && 0 <= j <= 3 && Level(now, e, j) == j
    requires ct / Span(j + 1) == now / Span(j + 1) && e / Span(j) != ct / Span(j)
    ensures e / Span(j) % TIME_LEVEL != ct / Span(j) % TIME_LEVEL
  {
    Nested(e, j);
    Nested(ct, j);
  }

  /** An expiry inside the clock's span at level `j` is placed below that level. */
  lemma {:induction false} Lower(ct: int, e: int, j: int)
    requires 0 <= ct < U32 && 0 <= e < U32 && 0 <= j <= 3
    requires e / Span(j) == ct / Span(j) && e / TIME_NEAR != ct / TIME_NEAR
    ensures Level(ct, e, 0) < j
  {
    assert Level(ct, e, 2) == if e / Span(3) == ct / Span(3) then 2 else 3;
    assert Level(ct, e, 1) == if e / Span(2) == ct / Span(2) then 1 else Level(ct, e, 2);
  }

  lemma WrapMoves(e: int)
    requires 0 <= e < U32 && 1 <= Distance(U32 - 1, e) < MAXDELAY
    ensures if Place(U32 - 1, e) == Far(3, 0) then Place(0, e) != Far(3, 0) else Place(0, e) == Place(U32 - 1, e)
  {
    LeavesSpan(U32 - 1, e, 3);
    LevelFrom(U32 - 1, e, 3);
    if e / Span(3) == 0 { Lower0(e); } else { LevelFrom(0, e, 3); }
  }

  lemma Lower0(e: int)
    requires 0 <= e < Span(3)
    ensures Place(0, e) != Far(3, 0)
  {
    if e / TIME_NEAR != 0 { Lower(0, e, 3); }
  }

  // ---------- The wheel ----------

  /** The events of the nodes of expiry `e`, in list order. */
  function EventsOf(l: seq<Node>, e: int): seq<Event>
  {
    if l == [] then []
    else EventsOf(l[..|l| - 1], e) + (if l[|l| - 1].expire == e then [l[|l| - 1].event] else [])
  }

  lemma EventsAppend(l: seq<Node>, n: Node, e: int)
    ensures EventsOf(l + [n], e) == EventsOf(l, e) + (if n.expire == e then [n.event] else [])
  {
    assert (l + [n])[..|l|] == l;
  }

  lemma {:induction false} NoEvents(l: seq<Node>, e: int)
    requires forall k | 0 <= k < |l| :: l[k].expire != e
    ensures EventsOf(l, e) == []
  {
    if l != [] { NoEvents(l[..|l| - 1], e); }
  }

  function Events(l: seq<Node>): seq<Event>
  {
    seq(|l|, k requires 0 <= k < |l| => l[k].event)
  }

  lemma {:induction false} AllEvents(l: seq<Node>, e: int)
    requires forall k | 0 <= k < |l| :: l[k].expire == e
    ensures EventsOf(l, e) == Events(l)
  {
    if l != [] {
      AllEvents(l[..|l| - 1], e);
      assert Events(l) == Events(l[..|l| - 1]) + [l[|l| - 1].event];
    }
  }

  lemma Expires(now: int, delay: int)
    requires 0 <= now < U32 && 0 < delay < MAXDELAY
    ensures var e := (delay + now) % U32; 0 <= e < U32 && Distance(now, e) == delay
  {
  }

  lemma SameExpiry(now: int, e: int, e': int)
    requires 0 <= now < U32 && 0 <= e < U32 && 0 <= e' < U32 && Distance(now, e) == Distance(now, e')
    ensures e == e'
  {
  }

  /** A clock value to come: at least `lo` and less than the largest delay ahead. */
  predicate Ahead(now: int, e: int, lo: int)
  {
    0 <= e < U32 && lo <= Distance(now, e) < MAXDELAY
  }

  // ---------- What every run keeps ----------

  /** The contents of all lists. */
  type Lists = m: imap<Slot, seq<Node>> | forall s | InRange(s) :: s in m ghost witness imap s | InRange(s) :: []

  /** Every node is where it would be put now, and due at least `lo` ticks from now. */
  ghost predicate Placed(m: Lists, now: int, lo: int)
    requires 0 <= now < U32
  {
    forall s, k | InRange(s) && 0 <= k < |m[s]| :: Ahead(now, m[s][k].expire, lo) && Place(now, m[s][k].expire) == s
  }

  /** The nodes of expiry `e` are those due when the clock next shows it, in the order they were added. */
  ghost predicate Waits(m: Lists, now: int, h: seq<Op>, e: int)
    requires 0 <= now < U32 && 0 <= e < U32
  {
    EventsOf(m[Place(now, e)], e) == DueAt(h, Ticks(h) + Distance(now, e))
  }

  /** All that is due from `lo` ticks on waits. */
  ghost predicate Complete(m: Lists, now: int, h: seq<Op>, lo: int)
    requires 0 <= now < U32
  {
    forall e | Ahead(now, e, lo) :: Waits(m, now, h, e)
  }

  /** A wheel in step with its history; `lo` is 0 between a tick and the dispatch of what it makes due. */
  ghost predicate InStep(m: Lists, now: int, h: seq<Op>, lo: int)
  {
    && 0 <= now < U32 && Proper(h) && now == Ticks(h) % U32
    && Placed(m, now, lo) && Complete(m, now, h, lo)
  }

  lemma PlacedAppend(m: Lists, now: int, lo: int, n: Node)
    requires 0 <= now < U32 && Placed(m, now, lo) && Ahead(now, n.expire, lo)
    ensures var s := Place(now, n.expire); Placed(m[s := m[s] + [n]], now, lo)
  {
    hide Ahead, Place;
  }

  lemma WaitsAppend(m: Lists, now: int, h: seq<Op>, event: Event, delay: int, x: int, e: int)
    requires 0 <= now < U32 && 0 <= e < U32 && 0 <= x < U32 && Distance(now, x) == delay && Waits(m, now, h, e)
    ensures var s := Place(now, x); Waits(m[s := m[s] + [Node(event, x)]], now, h + [Add(event, delay)], e)
  {
    hide Distance, Place, DueAt, Ticks, EventsOf;
    var s := Place(now, x);
    Appended(h, Add(event, delay), Ticks(h) + Distance(now, e));
    EventsAppend(m[s], Node(event, x), e);
    if Distance(now, e) == delay { SameExpiry(now, e, x); }
  }

  lemma AddKeeps(m: Lists, now: int, h: seq<Op>, lo: int, event: Event, delay: int, x: int)
    requires 0 <= lo <= 1 && InStep(m, now, h, lo) && 0 < delay < MAXDELAY && x == (delay + now) % U32
    ensures var s := Place(now, x); InStep(m[s := m[s] + [Node(event, x)]], now, h + [Add(event, delay)], lo)
  {
    hide Distance, Place, Placed, DueAt, Ticks, Waits;
    Expires(now, delay);
    var s := Place(now, x);
    var m' := m[s := m[s] + [Node(event, x)]];
    Appended(h, Add(event, delay), 0);
    PlacedAppend(m, now, lo, Node(event, x));
    forall e | Ahead(now, e, lo) ensures Waits(m', now, h + [Add(event, delay)], e) {
      WaitsAppend(m, now, h, event, delay, x, e);
    }
  }

  // ---------- A tick ----------

  predicate Clocked(l: seq<Node>)
  {
    forall k | 0 <= k < |l| :: 0 <= l[k].expire < U32
  }

  lemma AllClocked(m: Lists, now: int, lo: int)
    requires 0 <= now < U32 && Placed(m, now, lo)
    ensures forall s | InRange(s) :: Clocked(m[s])
  {
  }

  /** Re-adding nodes one by one. */
  ghost function MoveAll(m: Lists, now: int, l: seq<Node>): Lists
    requires 0 <= now < U32 && Clocked(l)
  {
    if l == [] then m
    else
      var m1 := MoveAll(m, now, l[..|l| - 1]);
      var n := l[|l| - 1];
      var s := Place(now, n.expire);
      m1[s := m1[s] + [n]]
  }

  lemma {:induction false} MoveAllEvents(m: Lists, now: int, l: seq<Node>, e: int)
    requires 0 <= now < U32 && 0 <= e < U32 && Clocked(l)
    ensures EventsOf(MoveAll(m, now, l)[Place(now, e)], e) == EventsOf(m[Place(now, e)], e) + EventsOf(l, e)
  {
    hide Place;
    if l != [] {
      var n := l[|l| - 1];
      var m1 := MoveAll(m, now, l[..|l| - 1]);
      MoveAllEvents(m, now, l[..|l| - 1], e);
      EventsAppend(m1[Place(now, n.expire)], n, e);
    }
  }

  lemma {:induction false} MoveAllPlaced(m: Lists, now: int, l: seq<Node>, lo: int)
    requires 0 <= now < U32 && Placed(m, now, lo)
    requires Clocked(l) && forall k | 0 <= k < |l| :: Ahead(now, l[k].expire, lo)
    ensures Placed(MoveAll(m, now, l), now, lo)
  {
    hide Place, Distance;
    if l != [] {
      MoveAllPlaced(m, now, l[..|l| - 1], lo);
      PlacedAppend(MoveAll(m, now, l[..|l| - 1]), now, lo, l[|l| - 1]);
    }
  }

  lemma Nearer(now: int, e: int)
    requires 0 <= now < U32 && 0 <= e < U32
    ensures var ct := (now + 1) % U32;
            Distance(now, e) == if Distance(ct, e) + 1 == U32 then 0 else Distance(ct, e) + 1
  {
  }

  /** The lists after a tick to `ct` that redistributes `moved`. */
  ghost function Shifted(m: Lists, ct: int, moved: Moved): Lists
    requires 0 <= ct < U32
    requires moved.List? ==> InRange(moved.s)
    requires moved.List? ==> Clocked(m[moved.s])
  {
    if moved.NoList? then m else MoveAll(m[moved.s := []], ct, m[moved.s])
  }

  /** Nodes stay, move on, or become due. */
  lemma ShiftPlaced(m: Lists, now: int)
    requires 0 <= now < U32 && Placed(m, now, 1)
    ensures var ct := (now + 1) % U32; Placed(Shifted(m, ct, MovedList(ct)), ct, 0)
  {
    hide Place, Distance, MovedList;
    var ct := (now + 1) % U32;
    forall e | Ahead(now, e, 1) ensures Ahead(ct, e, 0) { Nearer(now, e); }
    var moved := MovedList(ct);
    var m1: Lists := if moved.NoList? then m else m[moved.s := []];
    forall s, k | InRange(s) && 0 <= k < |m1[s]|
        ensures Ahead(ct, m1[s][k].expire, 0) && Place(ct, m1[s][k].expire) == s {
      assert m1[s] == m[s];
      TickMoves(now, m[s][k].expire);
    }
    if moved.List? { MoveAllPlaced(m1, ct, m[moved.s], 0); }
  }

  lemma Elsewhere(m: Lists, now: int, s: Slot, e: int)
    requires 0 <= now < U32 && 0 <= e < U32 && Placed(m, now, 1) && InRange(s)
    requires Place(now, e) != s || !Ahead(now, e, 1)
    ensures EventsOf(m[s], e) == []
  {
    hide Place, Distance;
    NoEvents(m[s], e);
  }

  lemma ShiftWaits(m: Lists, now: int, h: seq<Op>, e: int)
    requires InStep(m, now, h, 1) && forall s | InRange(s) :: Clocked(m[s])
    requires Ahead((now + 1) % U32, e, 0)
    ensures var ct := (now + 1) % U32; Waits(Shifted(m, ct, MovedList(ct)), ct, h + [Tick], e)
  {
    hide Place, Distance, MovedList, DueAt, EventsOf, Placed;
    AllClocked(m, now, 1);
    var ct := (now + 1) % U32;
    Nearer(now, e);
    var at := Ticks(h) + 1 + Distance(ct, e);
    Appended(h, Tick, at);
    if Ahead(now, e, 1) {
      assert Waits(m, now, h, e);
      TickMoves(now, e);
    } else { NothingBeyond(h, at); }
    ShiftEvents(m, now, e);
  }

  /** Where nodes of expiry `e` are after a tick, they are the ones that were where they belonged before. */
  lemma ShiftEvents(m: Lists, now: int, e: int)
    requires 0 <= now < U32 && 0 <= e < U32 && Placed(m, now, 1)
    ensures var ct := (now + 1) % U32;
            EventsOf(Shifted(m, ct, MovedList(ct))[Place(ct, e)], e) ==
                if Ahead(now, e, 1) then EventsOf(m[Place(now, e)], e) else []
  {
    hide Place, Distance, MovedList, EventsOf;
    var ct := (now + 1) % U32;
    if Ahead(now, e, 1) { TickMoves(now, e); }
    var moved := MovedList(ct);
    if moved.NoList? {
      if !Ahead(now, e, 1) { Elsewhere(m, now, Place(ct, e), e); }
    } else {
      var s := moved.s;
      MoveAllEvents(m[s := []], ct, m[s], e);
      assert EventsOf([], e) == [] by { NoEvents([], e); }
      if !Ahead(now, e, 1) || Place(now, e) != s { Elsewhere(m, now, s, e); }
      if !Ahead(now, e, 1) || Place(now, e) == s { Elsewhere(m, now, Place(ct, e), e); }
    }
  }

  lemma ShiftKeeps(m: Lists, now: int, h: seq<Op>)
    requires InStep(m, now, h, 1)
    ensures var ct := (now + 1) % U32; InStep(Shifted(m, ct, MovedList(ct)), ct, h + [Tick], 0)
  {
    hide *;
    Clockwise(m, now, h);
    TickInStep(m, now, h);
    var ct := (now + 1) % U32;
    var m' := Shifted(m, ct, MovedList(ct));
    ShiftPlaced(m, now);
    forall e | 0 <= e < U32 && Ahead(ct, e, 0) ensures Waits(m', ct, h + [Tick], e) { ShiftWaits(m, now, h, e); }
    NowInStep(m', ct, h + [Tick], 0);
  }

  /** What a tick does to a wheel in step, besides its lists. */
  lemma TickInStep(m: Lists, now: int, h: seq<Op>)
    requires InStep(m, now, h, 1)
    ensures 0 <= now < U32 && 0 <= (now + 1) % U32 < U32 && Placed(m, now, 1)
    ensures Proper(h + [Tick]) && (now + 1) % U32 == Ticks(h + [Tick]) % U32
  {
    hide Placed, Complete;
    Appended(h, Tick, 0);
  }

  lemma NowInStep(m: Lists, now: int, h: seq<Op>, lo: int)
    requires 0 <= now < U32 && Proper(h) && now == Ticks(h) % U32 && Placed(m, now, lo)
    requires forall e | 0 <= e < U32 && Ahead(now, e, lo) :: Waits(m, now, h, e)
    ensures InStep(m, now, h, lo)
  {
    hide Placed, Waits, Proper, Ticks, Distance;
  }

  lemma Clockwise(m: Lists, now: int, h: seq<Op>)
    requires InStep(m, now, h, 1)
    ensures forall s | InRange(s) :: Clocked(m[s])
  {
    AllClocked(m, now, 1);
  }

  lemma NothingShifted(m: Lists, ct: int)
    requires 0 <= ct < U32
    ensures Shifted(m, ct, NoList) == m
  {
  }

  /** The near list of the present holds only what is due now. */
  lemma Present(now: int, e: int)
    requires 0 <= now < U32 && 0 <= e < U32
    ensures Place(now, e) == Near(now % TIME_NEAR) <==> e == now
    ensures Distance(now, e) == 0 <==> e == now
  {
  }

  lemma ExecuteKeeps(m: Lists, now: int, h: seq<Op>, lo: int)
    requires 0 <= lo <= 1 && InStep(m, now, h, lo)
    ensures var s := Near(now % TIME_NEAR);
            InStep(m[s := []], now, h, 1) && Events(m[s]) == if lo == 0 then DueAt(h, Ticks(h)) else []
  {
    hide Place, Distance, DueAt, Waits;
    var s := Near(now % TIME_NEAR);
    forall e | 0 <= e < U32 ensures (Place(now, e) == s <==> e == now) && (Distance(now, e) == 0 <==>
        e == now) { Present(now, e); }
    forall e | Ahead(now, e, 1) ensures Waits(m[s := []], now, h, e) { WaitsElsewhere(m, now, h, e, s); }
    forall k | 0 <= k < |m[s]| ensures m[s][k].expire == now {}
    AllEvents(m[s], now);
    if lo == 0 { DueNow(m, now, h); }
  }

  lemma WaitsElsewhere(m: Lists, now: int, h: seq<Op>, e: int, s: Slot)
    requires 0 <= now < U32 && 0 <= e < U32 && InRange(s) && Waits(m, now, h, e) && Place(now, e) != s
    ensures Waits(m[s := []], now, h, e)
  {
  }

  lemma DueNow(m: Lists, now: int, h: seq<Op>)
    requires InStep(m, now, h, 0)
    ensures EventsOf(m[Near(now % TIME_NEAR)], now) == DueAt(h, Ticks(h))
  {
    hide Place, DueAt, EventsOf;
    Present(now, now);
    assert Waits(m, now, h, now);
  }

  class Timer {
    const near: array<seq<Node>>
    const t: array2<seq<Node>>
    var time: int
    /** All that happened to this timer. */
    ghost var history: seq<Op>

    ghost predicate Shaped()
      reads `time
    {
      near.Length == TIME_NEAR && t.Length0 == 4 && t.Length1 == TIME_LEVEL && 0 <= time < U32
    }

    ghost function At(s: Slot): seq<Node>
      requires InRange(s) && Shaped()
      reads `time, near, t
    {
      match s
      case Near(k) => near[k]
      case Far(i, k) => t[i, k]
    }

    ghost function Contents(): Lists
      requires Shaped()
      reads `time, near, t
    {
      imap s | InRange(s) :: At(s)
    }

    /** Between updates nothing is overdue. */
    ghost predicate Valid()
      reads this, near, t
    {
      Shaped() && InStep(Contents(), time, history, 1)
    }

    /** An empty wheel with its clock at zero. */
    constructor ()
      ensures Valid() && fresh(near) && fresh(t) && history == []
    {
      near := new seq<Node>[TIME_NEAR](_ => []);
      t := new seq<Node>[4, TIME_LEVEL]((_, _) => []);
      time := 0;
      history := [];
    }

    method Link(s: Slot, node: Node)
      requires Shaped() && InRange(s)
      modifies near, t
      ensures Contents() == old(Contents())[s := old(Contents())[s] + [node]]
    {
      match s
      case Near(k) => near[k] := near[k] + [node];
      case Far(i, k) => t[i, k] := t[i, k] + [node];
    }

    /** Empty a list and return what it held. */
    method LinkClear(s: Slot) returns (l: seq<Node>)
      requires Shaped() && InRange(s)
      modifies near, t
      ensures l == old(Contents())[s] && Contents() == old(Contents())[s := []]
    {
      match s
      case Near(k) => l := near[k]; near[k] := [];
      case Far(i, k) => l := t[i, k]; t[i, k] := [];
    }

    /** Put a node where it belongs now. */
    method AddNode(node: Node)
      requires Shaped() && 0 <= node.expire < U32
      modifies near, t
      ensures var s := Place(time, node.expire); Contents() == old(Contents())[s := old(Contents())[s] + [node]]
    {
      var e := node.expire;
      if e / TIME_NEAR == time / TIME_NEAR {
        Link(Near(e % TIME_NEAR), node);
      } else {
        var i := 0;
        var mask := TIME_NEAR * TIME_LEVEL;
        while i < 3
          invariant 0 <= i <= 3 && mask == Span(i + 1)
          invariant Level(time, e, 0) == Level(time, e, i)
        {
          if e / mask == time / mask { break; }
          mask := mask * TIME_LEVEL;
          i := i + 1;
        }
        Link(Far(i, e / (mask / TIME_LEVEL) % TIME_LEVEL), node);
      }
    }

    /** Add an event `delay` ticks from now. */
    method TimerAdd(event: Event, delay: int)
      requires Valid() && 0 < delay < MAXDELAY
      modifies this`history, near, t
      ensures Valid() && history == old(history) + [Add(event, delay)]
    {
      hide InStep, Place;
      var expire := (delay + time) % U32;
      AddKeeps(Contents(), time, history, 1, event, delay, expire);
      AddNode(Node(event, expire));
      history := history + [Add(event, delay)];
    }

    /** Take all nodes out of a list and put them where they belong now. */
    method MoveList(level: int, idx: int)
      requires Shaped() && 0 <= level < 4 && 0 <= idx < TIME_LEVEL
      requires Clocked(Contents()[Far(level, idx)])
      modifies near, t
      ensures Contents() == Shifted(old(Contents()), time, List(Far(level, idx)))
    {
      hide Place;
      var l := LinkClear(Far(level, idx));
      var k := 0;
      ghost var m := Contents();
      while k < |l|
        invariant 0 <= k <= |l|
        invariant Contents() == MoveAll(m, time, l[..k])
      {
        AddNode(l[k]);
        assert l[..k + 1][..k] == l[..k];
        k := k + 1;
      }
      assert l[..k] == l;
    }

    /** Redistribute the list that the value of the clock calls for. */
    method Redistribute()
      requires Shaped() && forall s | InRange(s) :: Clocked(Contents()[s])
      modifies near, t
      ensures Contents() == Shifted(old(Contents()), time, MovedList(time))
    {
      hide Place, Shifted, Clocked;
      ghost var m := Contents();
      var ct := time;
      if ct == 0 {
        MoveList(3, 0);
      } else {
        var mask := TIME_NEAR;
        var rest := ct / TIME_NEAR;
        var i := 0;
        while i < 4 && ct % mask == 0
          invariant 0 <= i <= 4 && mask == Span(i) && rest == ct / mask
          invariant ShiftLevel(ct, 0) == ShiftLevel(ct, i)
          invariant Contents() == m
          decreases 4 - i
        {
          var idx := rest % TIME_LEVEL;
          if idx != 0 {
            MoveList(i, idx);
            return;
          }
          Nested(ct, i);
          mask := mask * TIME_LEVEL;
          rest := rest / TIME_LEVEL;
          i := i + 1;
        }
        NothingShifted(m, ct);
      }
    }

    /** Advance the clock. */
    method TimerShift()
      requires Valid()
      modifies this`time, this`history, near, t
      ensures Shaped() && history == old(history) + [Tick] && InStep(Contents(), time, history, 0)
    {
      hide Place, InStep, Shifted, MovedList, Clocked;
      ghost var m := Contents();
      ShiftKeeps(m, time, history);
      Clockwise(m, time, history);
      time := (time + 1) % U32;
      history := history + [Tick];
      assert Contents() == m;
      Redistribute();
    }

    /** Requests that other threads make while the lock is released, one after the other. */
    method AddAll(arrivals: seq<Op>)
      requires Valid() && Proper(arrivals) && forall k | 0 <= k < |arrivals| :: arrivals[k].Add?
      modifies this`history, near, t
      ensures Valid() && history == old(history) + arrivals
    {
      hide InStep;
      for k := 0 to |arrivals|
        invariant Valid() && history == old(history) + arrivals[..k]
      {
        assert arrivals[..k + 1] == arrivals[..k] + [arrivals[k]];
        TimerAdd(arrivals[k].event, arrivals[k].delay);
      }
      assert arrivals[..|arrivals|] == arrivals;
    }

    /**
     * Dispatch the list of the present until it is empty. The lock is released during each dispatch, and
     * `arrivals` come in then; they never make the list non-empty again.
     */
    method TimerExecute(arrivals: seq<Op>, ghost lo: int) returns (fired: seq<Event>)
      requires 0 <= lo <= 1 && Shaped() && InStep(Contents(), time, history, lo)
      requires Proper(arrivals) && forall k | 0 <= k < |arrivals| :: arrivals[k].Add?
      modifies this`history, near, t
      ensures fired == if lo == 0 then DueAt(old(history), Ticks(old(history))) else []
      ensures Valid() && history == old(history) + (if fired == [] then [] else arrivals)
    {
      hide InStep, DueAt;
      var s := Near(time % TIME_NEAR);
      fired := [];
      ExecuteKeeps(Contents(), time, history, lo);
      ghost var m, open := Contents(), true;
      while |near[time % TIME_NEAR]| > 0
        invariant time == old(time)
        invariant open ==> Contents() == m && fired == [] && history == old(history)
        invariant !open ==> Valid() && fired == Events(m[s]) != [] && history == old(history) + arrivals
        invariant !open ==> near[time % TIME_NEAR] == []
        decreases open
      {
        var l := LinkClear(s);
        fired := fired + Events(l);
        AddAll(arrivals);
        ExecuteKeeps(Contents(), time, history, 1);
        assert Events(Contents()[s]) == [];
        open := false;
      }
      if open { assert m[s] == []; assert m[s := []] == m; }
    }

    /** One tick: what is due at the new time is dispatched, in the order it was asked for. */
    method TimerUpdate(arrivals: seq<Op>) returns (fired: seq<Event>)
      requires Valid() && Proper(arrivals) && forall k | 0 <= k < |arrivals| :: arrivals[k].Add?
      modifies this`time, this`history, near, t
      ensures fired == DueAt(old(history), Ticks(old(history)) + 1)
      ensures Valid() && history == old(history) + [Tick] + (if fired == [] then [] else arrivals)
    {
      hide InStep, DueAt;
      var none := TimerExecute([], 1);
      ghost var h := history;
      assert h == old(history);
      TimerShift();
      Appended(h, Tick, Ticks(h) + 1);
      fired := TimerExecute(arrivals, 0);
    }

    lemma HistoryProper()
      requires Valid()
      ensures Proper(history)
    {
    }

    /** One round: requests come in, and then a tick, with more requests while its dispatch has released the lock. */
    method Round(asked: seq<Op>, during: seq<Op>) returns (now: seq<Event>)
      requires Valid() && Requested(asked) && Requested(during)
      modifies this`time, this`history, near, t
      ensures Valid() && history == NextHistory(old(history), asked, if now == [] then [] else during)
      ensures now == DueAt(old(history) + asked, Ticks(old(history) + asked) + 1)
    {
      hide InStep, DueAt, Ticks, Valid;
      AddAll(asked);
      now := TimerUpdate(during);
    }

    /**
     * Run the timer for as many ticks as there are rounds. What fires in each round is what the whole history makes due
     * at that tick.
     */
    method Serve(asked: seq<seq<Op>>, during: seq<seq<Op>>) returns (fired: seq<seq<Event>>)
      requires Valid() && |asked| == |during|
      requires forall k | 0 <= k < |asked| :: Requested(asked[k]) && Requested(during[k])
      modifies this`time, this`history, near, t
      ensures Valid() && |fired| == |asked| && Ticks(history) == Ticks(old(history)) + |asked|
      ensures history == old(history) + Rounds(asked, during, fired)
      ensures AllDue(history, Ticks(old(history)), fired)
    {
      hide *;
      NoneDue(history, Ticks(history));
      NoRounds(history);
      ghost var start := history;
      fired := [];
      var n := 0;
      while n < |asked|
        invariant 0 <= n <= |asked| && Valid() && |fired| == n && Ticks(history) == Ticks(start) + n
        invariant history == start + Rounds(asked[..n], during[..n], fired)
        invariant AllDue(history, Ticks(start), fired)
      {
        ghost var before := history;
        HistoryProper();
        var now := Round(asked[n], during[n]);
        ghost var more := if now == [] then [] else during[n];
        NoRequests();
        RoundDone(start, before, asked[n], more, fired, now);
        OneMoreRound(start, asked, during, fired, now);
        fired := fired + [now];
        n := n + 1;
      }
      assert asked[..n] == asked && during[..n] == during;
    }

    /** A timeout of zero or less fires at once; any other waits. */
    method Timeout(event: Event, delay: int) returns (fired: seq<Event>)
      requires Valid() && delay < MAXDELAY
      modifies this`history, near, t
      ensures Valid()
      ensures fired == if delay <= 0 then [event] else []
      ensures history == if delay <= 0 then old(history) else old(history) + [Add(event, delay)]
    {
      if delay <= 0 { fired := [event]; } else { fired := []; TimerAdd(event, delay); }
    }
  }

  // ---------- Whole runs ----------

  /** Requests only, with proper delays. */
  predicate Requested(ops: seq<Op>)
  {
    Proper(ops) && forall k | 0 <= k < |ops| :: ops[k].Add?
  }

  /** Requests do not advance the clock. */
  lemma {:induction false} OnlyRequests(h: seq<Op>, ops: seq<Op>, start: seq<Op>)
    requires Requested(ops) && start <= h
    ensures Ticks(h + ops) == Ticks(h) && start <= h + ops
  {
    if ops == [] { assert h + ops == h; }
    else {
      var rest := ops[..|ops| - 1];
      OnlyRequests(h, rest, start);
      assert h + ops == (h + rest) + [ops[|ops| - 1]];
      Appended(h + rest, ops[|ops| - 1], 0);
    }
  }

  /** The history after one more round. */
  function NextHistory(h: seq<Op>, asked: seq<Op>, during: seq<Op>): seq<Op>
  {
    h + asked + [Tick] + during
  }

  lemma RoundTicks(start: seq<Op>, h: seq<Op>, asked: seq<Op>, during: seq<Op>)
    requires Proper(h) && Requested(asked) && Requested(during) && start <= h
    ensures var h' := NextHistory(h, asked, during); Ticks(h') == Ticks(h) + 1 && start <= h'
    ensures DueAt(NextHistory(h, asked, during), Ticks(h) + 1) == DueAt(h + asked, Ticks(h + asked) + 1)
  {
    hide DueAt, Ticks, Proper;
    var ticked := h + asked + [Tick];
    ProperRound(h, asked, during);
    OnlyRequests(h, asked, start);
    Appended(h + asked, Tick, Ticks(h) + 1);
    OnlyRequests(ticked, during, start);
    PastFixed(ticked, during, Ticks(h) + 1);
  }

  /** What was due before the round is what is due then in the longer history. */
  lemma StillDue(h: seq<Op>, asked: seq<Op>, during: seq<Op>, at: int)
    requires Proper(h) && Requested(asked) && Requested(during) && at <= Ticks(h)
    ensures DueAt(NextHistory(h, asked, during), at) == DueAt(h, at)
  {
    hide DueAt, Ticks, Proper;
    ProperRound(h, asked, during);
    PastFixed(h, asked + [Tick] + during, at);
    assert NextHistory(h, asked, during) == h + (asked + [Tick] + during);
  }

  /** In the k-th tick after the first `first` what fired is what the history makes due. */
  predicate AllDue(h: seq<Op>, first: nat, fired: seq<seq<Event>>)
  {
    forall k | 0 <= k < |fired| :: fired[k] == DueAt(h, first + k + 1)
  }

  /** What fired in the rounds before is still what was due then, and this round is right as well. */
  lemma RoundDone(start: seq<Op>, h: seq<Op>, asked: seq<Op>, during: seq<Op>, fired: seq<seq<Event>>, now: seq<Event>)
    requires Proper(h) && Requested(asked) && Requested(during) && Ticks(h) == Ticks(start) + |fired| && start <= h
    requires AllDue(h, Ticks(start), fired)
    requires now == DueAt(h + asked, Ticks(h + asked) + 1)
    ensures var h' := NextHistory(h, asked, during);
            Ticks(h') == Ticks(start) + |fired| + 1 && start <= h' && AllDue(h', Ticks(start), fired + [now])
  {
    hide *;
    RoundTicks(start, h, asked, during);
    RoundsBefore(Ticks(start), h, asked, during, fired);
    OneMoreDue(NextHistory(h, asked, during), Ticks(start), fired, now);
  }

  /** What happens in rounds that fire `fired`; a tick at which nothing is due leaves no time for requests during it. */
  function Rounds(asked: seq<seq<Op>>, during: seq<seq<Op>>, fired: seq<seq<Event>>): seq<Op>
    requires |asked| == |during| == |fired|
  {
    if fired == [] then []
    else
      var n := |fired| - 1;
      Rounds(asked[..n], during[..n], fired[..n]) + asked[n] + [Tick] + (if fired[n] == [] then [] else during[n])
  }

  lemma NoRequests()
    ensures Requested([])
  {
  }

  lemma NoRounds(h: seq<Op>)
    ensures h + Rounds([], [], []) == h
  {
  }

  lemma OneMoreRound(start: seq<Op>, asked: seq<seq<Op>>, during: seq<seq<Op>>, fired: seq<seq<Event>>, now: seq<Event>)
    requires |fired| < |asked| == |during|
    ensures var n := |fired|;
            start + Rounds(asked[..n + 1], during[..n + 1], fired + [now])
            == NextHistory(start + Rounds(asked[..n], during[..n], fired), asked[n], if now ==
                [] then [] else during[n])
  {
    hide *;
    var n := |fired|;
    LastRound(asked, during, fired, now);
    AfterStart(start, Rounds(asked[..n], during[..n], fired), asked[n], if now == [] then [] else during[n]);
  }

  lemma LastRound(asked: seq<seq<Op>>, during: seq<seq<Op>>, fired: seq<seq<Event>>, now: seq<Event>)
    requires |fired| < |asked| == |during|
    ensures var n := |fired|;
            Rounds(asked[..n + 1], during[..n + 1], fired + [now])
            == NextHistory(Rounds(asked[..n], during[..n], fired), asked[n], if now == [] then [] else during[n])
  {
    var n := |fired|;
    assert asked[..n + 1][..n] == asked[..n] && during[..n + 1][..n] == during[..n] && (fired + [now])[..n] == fired;
  }

  lemma AfterStart(start: seq<Op>, h: seq<Op>, asked: seq<Op>, during: seq<Op>)
    ensures start + NextHistory(h, asked, during) == NextHistory(start + h, asked, during)
  {
  }

  lemma NoneDue(h: seq<Op>, first: nat)
    ensures AllDue(h, first, [])
  {
  }

  lemma OneMoreDue(h: seq<Op>, first: nat, fired: seq<seq<Event>>, now: seq<Event>)
    requires AllDue(h, first, fired) && now == DueAt(h, first + |fired| + 1)
    ensures AllDue(h, first, fired + [now])
  {
    hide DueAt;
  }

  lemma RoundsBefore(first: nat, h: seq<Op>, asked: seq<Op>, during: seq<Op>, fired: seq<seq<Event>>)
    requires Proper(h) && Requested(asked) && Requested(during) && first + |fired| == Ticks(h)
    requires AllDue(h, first, fired)
    ensures AllDue(NextHistory(h, asked, during), first, fired)
  {
    hide DueAt, NextHistory, Proper, Requested, Ticks;
    forall k | 0 <= k < |fired| ensures fired[k] == DueAt(NextHistory(h, asked, during), first + k + 1) {
      StillDue(h, asked, during, first + k + 1);
    }
  }

  lemma ProperRound(h: seq<Op>, asked: seq<Op>, during: seq<Op>)
    requires Proper(h) && Requested(asked) && Requested(during)
    ensures Proper(h + asked + [Tick]) && Proper(during) && Proper(asked + [Tick] + during)
  {
  }

  /** How often an event was asked for with a delay that ends by tick `n`. */
  function Ended(h: seq<Op>, n: nat, event: Event): nat
  {
    if h == [] then 0
    else
      var before, op := h[..|h| - 1], h[|h| - 1];
      Ended(before, n, event) + (if op.Add? && op.event == event && Ticks(before) + op.delay <= n then 1 else 0)
  }

  /** By any tick an event has fired once for each request whose delay has ended by then. */
  lemma {:induction false} FiredWhenEnded(h: seq<Op>, n: nat, event: Event)
    requires Proper(h)
    ensures Count(DueBy(h, n), event) == Ended(h, n, event)
  {
    if h == [] { NothingDue(n); }
    else {
      var before, op := h[..|h| - 1], h[|h| - 1];
      FiredWhenEnded(before, n, event);
      assert h == before + [op];
      DueByAppend(before, op, if op.Add? then Ticks(before) + op.delay else 0, n, event);
    }
  }

  /** All that fired, round after round. */
  function Joined(fired: seq<seq<Event>>): seq<Event>
  {
    if fired == [] then [] else Joined(fired[..|fired| - 1]) + fired[|fired| - 1]
  }

  /** Rounds that fire what is due at their ticks fire all that is due by the last one. */
  lemma {:induction false} JoinedIsDueBy(fired: seq<seq<Event>>, h: seq<Op>)
    requires AllDue(h, 0, fired)
    ensures Joined(fired) == DueBy(h, |fired|)
  {
    if fired != [] { JoinedIsDueBy(fired[..|fired| - 1], h); }
  }

  /**
   * A whole run from a new timer: each event fires once for each request whose delay ended during the run, no sooner
   * and no later, also across a wrap of the clock.
   */
  method WholeRun(asked: seq<seq<Op>>, during: seq<seq<Op>>) returns (fired: seq<seq<Event>>)
    requires |asked| == |during| && forall k | 0 <= k < |asked| :: Requested(asked[k]) && Requested(during[k])
    ensures |fired| == |asked| && AllDue(Rounds(asked, during, fired), 0, fired)
    ensures forall event: Event ::
              Count(Joined(fired), event) == Ended(Rounds(asked, during, fired), |asked|, event)
  {
    var timer := new Timer();
    fired := timer.Serve(asked, during);
    ghost var h := timer.history;
    assert h == Rounds(asked, during, fired);
    timer.HistoryProper();
    JoinedIsDueBy(fired, h);
    forall event: Event ensures Count(Joined(fired), event) == Ended(h, |asked|, event) {
      FiredWhenEnded(h, |asked|, event);
    }
  }

  /** What happens later does not change what was due by now. */
  lemma {:induction false} PastFixed(h: seq<Op>, later: seq<Op>, at: int)
    requires Proper(h) && Proper(later) && at <= Ticks(h)
    ensures DueAt(h + later, at) == DueAt(h, at) && Ticks(h + later) >= Ticks(h)
  {
    if later == [] { assert h + later == h; }
    else {
      var rest, op := later[..|later| - 1], later[|later| - 1];
      PastFixed(h, rest, at);
      assert h + later == (h + rest) + [op];
      Appended(h + rest, op, at);
    }
  }

  /** A request is among what is due `delay` ticks after it. */
  lemma {:induction false} DueThen(h: seq<Op>, k: int)
    requires 0 <= k < |h| && h[k].Add?
    ensures h[k].event in DueAt(h, Ticks(h[..k]) + h[k].delay)
  {
    var before := h[..|h| - 1];
    if k < |h| - 1 {
      DueThen(before, k);
      assert before[..k] == h[..k];
    }
  }

  /** All that is due from the first tick to tick `n`. */
  function DueBy(h: seq<Op>, n: nat): seq<Event>
  {
    if n == 0 then [] else DueBy(h, n - 1) + DueAt(h, n)
  }

  /** All that was asked for. */
  function Requests(h: seq<Op>): seq<Event>
  {
    if h == [] then []
    else Requests(h[..|h| - 1]) + (if h[|h| - 1].Add? then [h[|h| - 1].event] else [])
  }

  function Count(l: seq<Event>, event: Event): nat
  {
    if l == [] then 0 else Count(l[..|l| - 1], event) + (if l[|l| - 1] == event then 1 else 0)
  }

  lemma {:induction false} CountConcat(x: seq<Event>, y: seq<Event>, event: Event)
    ensures Count(x + y, event) == Count(x, event) + Count(y, event)
  {
    if y == [] { assert x + y == x; }
    else {
      assert (x + y)[..|x + y| - 1] == x + y[..|y| - 1];
      CountConcat(x, y[..|y| - 1], event);
    }
  }

  /** Nothing is lost and nothing fires twice: in time, every event has fired as often as it was asked for. */
  lemma {:induction false} AllFireOnce(h: seq<Op>, n: nat, event: Event)
    requires Proper(h) && n >= Ticks(h) + MAXDELAY
    ensures Count(DueBy(h, n), event) == Count(Requests(h), event)
  {
    if h == [] { NothingDue(n); }
    else {
      var before, op := h[..|h| - 1], h[|h| - 1];
      AllFireOnce(before, n, event);
      assert h == before + [op];
      DueByAppend(before, op, if op.Add? then Ticks(before) + op.delay else 0, n, event);
      CountConcat(Requests(before), if op.Add? then [op.event] else [], event);
    }
  }

  lemma {:induction false} NothingDue(n: nat)
    ensures DueBy([], n) == []
  {
    if n > 0 { NothingDue(n - 1); }
  }

  /** A request counts once, from the tick when it is due. */
  lemma {:induction false} DueByAppend(h: seq<Op>, op: Op, when: int, n: nat, event: Event)
    requires op.Add? ==> when == Ticks(h) + op.delay && when > 0
    ensures Count(DueBy(h + [op], n), event) ==
              Count(DueBy(h, n), event) + (if op.Add? && op.event == event && when <= n then 1 else 0)
  {
    CountStep(h, n, event);
    CountStep(h + [op], n, event);
    hide DueAt, DueBy, Count, Ticks;
    if n > 0 {
      DueByAppend(h, op, when, n - 1, event);
      DueAppend(h, op, when, n, event);
    }
  }

  lemma CountStep(h: seq<Op>, n: nat, event: Event)
    ensures Count(DueBy(h, n), event) == if n == 0 then 0 else Count(DueBy(h, n - 1), event) + Count(DueAt(h, n), event)
  {
    if n > 0 { CountConcat(DueBy(h, n - 1), DueAt(h, n), event); }
  }

  lemma DueAppend(h: seq<Op>, op: Op, when: int, n: nat, event: Event)
    requires op.Add? ==> when == Ticks(h) + op.delay
    ensures Count(DueAt(h + [op], n), event) ==
              Count(DueAt(h, n), event) + (if op.Add? && op.event == event && when == n then 1 else 0)
  {
    Appended(h, op, n);
    CountConcat(DueAt(h, n), if op.Add? && when == n then [op.event] else [], event);
  }
}
