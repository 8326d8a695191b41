/** The ring buffer of skynet_mq.c: the queue that the scheduler takes as a sequence of messages. */
module MessageQueue {

  datatype Message = Message(source: nat, session: int, data: nat)

  const DEFAULT_QUEUE_SIZE: nat := 64
  const MQ_OVERLOAD: nat := 1024

  /** The slot `i` places after `head` in a ring of `cap` slots. */
  function Slot(head: nat, i: nat, cap: nat): (k: nat)
    requires head < cap && i <= cap
    ensures i < cap ==> k < cap
  {
    if head + i < cap then head + i else head + i - cap
  }

  lemma SlotIsRemainder(head: nat, i: nat, cap: nat)
    requires head < cap && i < cap
    ensures (head + i) % cap == Slot(head, i, cap)
  {
    Remainder(head + i, cap, (head + i) / cap, (head + i) % cap);
  }

  /** Below twice the divisor, the quotient is 0 or 1. */
  lemma Remainder(x: nat, cap: nat, q: int, r: int)
    requires 0 < cap && x < 2 * cap && x == q * cap + r && 0 <= r < cap
    ensures r == if x >= cap then x - cap else x
  {
    Multiples(q, cap);
  }

  lemma Multiples(q: int, cap: int)
    requires cap >= 0
    ensures q >= 2 ==> q * cap >= 2 * cap
    ensures q == 1 ==> q * cap == cap
    ensures q == 0 ==> q * cap == 0
    ensures q <= -1 ==> q * cap <= -cap
  {
  }

  /** The `n` elements of ring `a` from index `head`. */
  function Ring(a: seq<Message>, head: nat, n: nat): (s: seq<Message>)
    requires head < |a| && n <= |a|
  {
    seq(n, i requires 0 <= i < n => a[Slot(head, i, |a|)])
  }

  lemma RingTail(a: seq<Message>, head: nat, n: nat)
    requires head < |a| && 0 < n <= |a|
    ensures var next := if head + 1 >= |a| then 0 else head + 1;
            Ring(a, head, n) == [a[head]] + Ring(a, next, n - 1)
  {
  }

  /** Writing just behind the last element. */
  lemma RingPut(a: seq<Message>, head: nat, n: nat, m: Message)
    requires head < |a| && n < |a|
    ensures Ring(a[Slot(head, n, |a|) := m], head, n + 1) == Ring(a, head, n) + [m]
  {
  }

  /** The threshold doubled until it reaches `length`. */
  function Raised(threshold: nat, length: nat): (r: nat)
    requires threshold > 0
    ensures r >= length && r >= threshold && (r > threshold ==> r < 2 * length)
    decreases length - threshold
  {
    if length > threshold then Raised(2 * threshold, length) else threshold
  }

  class Queue {
    var queue: array<Message>
    var cap: nat
    var head: nat
    var tail: nat
    var overload: nat
    var threshold: nat

    ghost predicate Valid()
      reads this
    {
      cap == queue.Length > 0 && head < cap && tail < cap && threshold > 0
    }

    function Count(): (n: nat)
      requires Valid()
      reads this
      ensures n < cap
    {
      if head <= tail then tail - head else tail + cap - head
    }

    /** The messages in the queue, first come first. */
    ghost function Contents(): seq<Message>
      requires Valid()
      reads this, queue
    {
      Ring(queue[..], head, Count())
    }

    constructor ()
      ensures Valid() && Contents() == [] && fresh(queue) && overload == 0
    {
      cap := DEFAULT_QUEUE_SIZE;
      head, tail := 0, 0;
      overload, threshold := 0, MQ_OVERLOAD;
      queue := new Message[DEFAULT_QUEUE_SIZE](_ => Message(0, 0, 0));
    }

    method Length() returns (n: nat)
      requires Valid()
      ensures n == |Contents()|
    {
      n := if head <= tail then tail - head else tail + cap - head;
    }

    /** Add a message at the end; a full ring is copied into one of twice the size. */
    method Push(m: Message)
      requires Valid()
      modifies this, queue
      ensures Valid() && Contents() == old(Contents()) + [m] && (fresh(queue) || queue == old(queue))
      ensures overload == old(overload) && threshold == old(threshold)
    {
      ghost var n := Count();
      RingPut(queue[..], head, n, m);
      queue[tail] := m;
      ghost var a := queue[..];
      assert a == old(queue[..])[tail := m];
      tail := tail + 1;
      if tail >= cap { tail := 0; }
      if head == tail {
        Expand();
      }
    }

    /** The ring is full: every slot holds a message, starting at `head`. */
    method Expand()
      requires Valid() && head == tail
      modifies this
      ensures Valid() && fresh(queue) && Contents() == Ring(old(queue[..]), old(head), old(cap))
      ensures overload == old(overload) && threshold == old(threshold)
    {
      var bigger := new Message[cap * 2](_ => Message(0, 0, 0));
      var i := 0;
      while i < cap
        invariant 0 <= i <= cap && cap == queue.Length && bigger.Length == 2 * cap
        invariant queue == old(queue) && queue[..] == old(queue[..]) && head == old(head) && cap == old(cap)
        invariant overload == old(overload) && threshold == old(threshold)
        invariant bigger[..i] == Ring(queue[..], head, i)
      {
        SlotIsRemainder(head, i, cap);
        bigger[i] := queue[(head + i) % cap];
        assert bigger[..i + 1] == bigger[..i] + [bigger[i]];
        i := i + 1;
      }
      ghost var full := bigger[..];
      assert bigger[..cap] == full[..cap];
      FromZero(full, cap);
      head := 0;
      tail := cap;
      cap := cap * 2;
      queue := bigger;
    }

    /** Note a length over the threshold, and double the threshold until it is not. */
    method Watch(length: nat)
      requires threshold > 0
      modifies `overload, `threshold
      ensures threshold == Raised(old(threshold), length)
      ensures overload == if length > old(threshold) then length else old(overload)
    {
      while length > threshold
        invariant 0 < old(threshold) <= threshold && Raised(threshold, length) == Raised(old(threshold), length)
        invariant overload == if threshold == old(threshold) then old(overload) else length
        invariant threshold > old(threshold) ==> length > old(threshold)
        decreases length - threshold
      {
        overload := length;
        threshold := threshold * 2;
      }
    }

    /** Take the first message. What is left is compared with the overload threshold. */
    method Pop() returns (ok: bool, m: Message)
      requires Valid()
      modifies this
      ensures Valid() && queue == old(queue) && ok == (old(Contents()) != [])
      ensures ok ==> old(Contents()) == [m] + Contents()
      ensures !ok ==> Contents() == [] && threshold == MQ_OVERLOAD && overload == old(overload)
      ensures ok ==> threshold == Raised(old(threshold), |Contents()|)
      ensures ok ==> overload == if |Contents()| > old(threshold) then |Contents()| else old(overload)
    {
      m := Message(0, 0, 0);
      ok := head != tail;
      assert ok == (Contents() != []);
      if ok {
        RingTail(queue[..], head, Count());
        hide Ring;
        m := queue[head];
        head := head + 1;
        if head >= cap { head := 0; }
        var length: int := tail - head;
        if length < 0 { length := length + cap; }
        assert length == Count();
        Watch(length);
      } else {
        threshold := MQ_OVERLOAD;
      }
    }
  }

  lemma FromZero(a: seq<Message>, n: nat)
    requires n < |a|
    ensures Ring(a, 0, n) == a[..n]
  {
  }
}
