/** Packets of a length and as many bytes, put together from the chunks that arrive on each connection. */
module NetPack {
  import opened Arithmetic

  type Byte = x: nat | x < 256

  const QUEUESIZE: nat := 1024
  const HASHSIZE: nat := 4096

  datatype Option<T> = None | Some(value: T)

  datatype Packet = Packet(fd: int, data: seq<Byte>)

  // ---------- What a stream holds ----------

  /** The whole packets at the front of a stream, and what is left. */
  function Parse(s: seq<Byte>): (r: (seq<seq<Byte>>, seq<Byte>))
    decreases |s|
  {
    if |s| < 2 || |s| - 2 < Size(s) then ([], s)
    else
      var (packets, rest) := Parse(s[2 + Size(s)..]);
      ([s[2..2 + Size(s)]] + packets, rest)
  }

  /** The size that the first two bytes say. */
  function Size(s: seq<Byte>): nat
    requires |s| >= 2
  {
    ReadSize(s[0], s[1])
  }

  /** read_size. */
  function ReadSize(high: nat, low: nat): nat
  {
    high * 256 + low
  }

  /** Parsing can stop and go on anywhere. */
  lemma {:induction false} ParseCut(a: seq<Byte>, b: seq<Byte>)
    ensures Parse(a + b) == (Parse(a).0 + Parse(Parse(a).1 + b).0, Parse(Parse(a).1 + b).1)
    decreases |a|
  {
    if |a| >= 2 && |a| - 2 >= Size(a) {
      var n := 2 + Size(a);
      ParseCut(a[n..], b);
      assert (a + b)[n..] == a[n..] + b && (a + b)[2..n] == a[2..n];
      var first := [a[2..n]];
      var rest := Parse(a[n..]);
      assert first + (rest.0 + Parse(rest.1 + b).0) == (first + rest.0) + Parse(rest.1 + b).0;
    } else {
      assert [] + Parse(a + b).0 == Parse(a + b).0;
    }
  }

  lemma ParseNothing()
    ensures Parse([]) == ([], [])
  {
  }

  function Tagged(fd: int, packets: seq<seq<Byte>>): (r: seq<Packet>)
    ensures |r| == |packets|
  {
    seq(|packets|, i requires 0 <= i < |packets| => Packet(fd, packets[i]))
  }

  // ---------- Unfinished packets ----------

  /** What there is of a packet: one byte of the size, or the size and fewer bytes than it says. */
  datatype Part = Header(high: Byte) | Body(size: nat, data: seq<Byte>)

  datatype Uncomplete = Uncomplete(id: int, part: Part)

  predicate Proper(p: Part)
  {
    p.Body? ==> |p.data| < p.size < 0x10000
  }

  /** The bytes that came in. */
  function Raw(p: Part): seq<Byte>
  {
    match p
    case Header(high) => [high]
    case Body(size, data) => [size / 256 % 256, size % 256] + data
  }

  function HashFd(fd: int): (h: nat)
    ensures h < HASHSIZE
  {
    (fd / 0x100_0000 + fd / 0x1000 + fd) % 0x1_0000_0000 % HASHSIZE
  }

  type Chain = seq<Uncomplete>

  /** Entries of one chain have different connections, which belong there. */
  predicate ChainOK(chain: Chain, h: nat)
  {
    && (forall i | 0 <= i < |chain| :: HashFd(chain[i].id) == h && Proper(chain[i].part))
    && (forall i, j | 0 <= i < j < |chain| :: chain[i].id != chain[j].id)
  }

  predicate TableOK(table: seq<Chain>)
  {
    |table| == HASHSIZE && forall h | 0 <= h < HASHSIZE :: ChainOK(table[h], h)
  }

  /** Where connection `fd` is in its chain; behind the end when it has nothing unfinished. */
  function Find(chain: Chain, fd: int): (i: nat)
    ensures i <= |chain| && (i < |chain| ==> chain[i].id == fd)
    ensures forall k | 0 <= k < i :: chain[k].id != fd
  {
    if chain == [] || chain[0].id == fd then 0
    else
      var i := 1 + Find(chain[1..], fd);
      assert forall k | 0 < k < i :: chain[k] == chain[1..][k - 1];
      i
  }

  function Held(chain: Chain, fd: int): seq<Byte>
  {
    var i := Find(chain, fd);
    if i < |chain| then Raw(chain[i].part) else []
  }

  /** The bytes of the unfinished packet of `fd`. */
  function PendingIn(table: seq<Chain>, fd: int): seq<Byte>
    requires |table| == HASHSIZE
  {
    Held(table[HashFd(fd)], fd)
  }

  lemma FoundAt(chain: Chain, h: nat, fd: int, i: nat)
    requires ChainOK(chain, h) && i < |chain| && chain[i].id == fd
    ensures Find(chain, fd) == i && Held(chain, fd) == Raw(chain[i].part)
  {
  }

  lemma NotFound(chain: Chain, h: nat, fd: int)
    requires ChainOK(chain, h) && forall i | 0 <= i < |chain| :: chain[i].id != fd
    ensures Find(chain, fd) == |chain| && Held(chain, fd) == []
  {
  }

  lemma WithoutOK(chain: Chain, h: nat, i: nat)
    requires ChainOK(chain, h) && i < |chain|
    ensures ChainOK(chain[..i] + chain[i + 1..], h)
  {
    hide HashFd, Proper;
  }

  lemma ChainWithout(chain: Chain, h: nat, i: nat, fd: int)
    requires ChainOK(chain, h) && i < |chain|
    ensures var rest := chain[..i] + chain[i + 1..];
            ChainOK(rest, h) && Held(rest, fd) == if fd == chain[i].id then [] else Held(chain, fd)
  {
    var rest := chain[..i] + chain[i + 1..];
    assert forall k | 0 <= k < |rest| :: rest[k] == chain[if k < i then k else k + 1];
    WithoutOK(chain, h, i);
    hide HashFd, Raw, Proper, Find;
    var k := Find(chain, fd);
    if fd == chain[i].id || k == |chain| {
      NotFound(rest, h, fd);
    } else {
      FoundAt(rest, h, fd, if k < i then k else k - 1);
    }
  }

  lemma AddedOK(chain: Chain, h: nat, uc: Uncomplete)
    requires ChainOK(chain, h) && HashFd(uc.id) == h && Proper(uc.part) && Find(chain, uc.id) == |chain|
    ensures ChainOK([uc] + chain, h)
  {
    hide HashFd, Proper, Find;
  }

  lemma ChainWith(chain: Chain, h: nat, uc: Uncomplete, fd: int)
    requires ChainOK(chain, h) && HashFd(uc.id) == h && Proper(uc.part) && Find(chain, uc.id) == |chain|
    ensures var more := [uc] + chain;
            ChainOK(more, h) && Held(more, fd) == if fd == uc.id then Raw(uc.part) else Held(chain, fd)
  {
    AddedOK(chain, h, uc);
    hide HashFd, Raw, Proper, ChainOK, Find;
    var more := [uc] + chain;
    assert forall k | 0 < k < |more| :: more[k] == chain[k - 1];
    var k := Find(chain, fd);
    if fd == uc.id { FoundAt(more, h, fd, 0); }
    else if k < |chain| { FoundAt(more, h, fd, k + 1); }
    else { NotFound(more, h, fd); }
  }

  /** Changing one chain so that only one connection is affected. */
  lemma TableChanged(table: seq<Chain>, fd: int, chain: Chain)
    requires TableOK(table) && ChainOK(chain, HashFd(fd))
    requires forall g | g != fd :: Held(chain, g) == Held(table[HashFd(fd)], g)
    ensures var after := table[HashFd(fd) := chain];
            && TableOK(after) && PendingIn(after, fd) == Held(chain, fd)
            && forall g | g != fd :: PendingIn(after, g) == PendingIn(table, g)
  {
    hide Held, ChainOK;
    var after := table[HashFd(fd) := chain];
    forall g | g != fd ensures PendingIn(after, g) == PendingIn(table, g) {}
  }

  class Queue {
    var head: nat
    var tail: nat
    var queue: array<Packet>
    var hash: array<Chain>

    ghost predicate Valid()
      reads this, queue, hash
    {
      0 < queue.Length && head < queue.Length && tail < queue.Length && TableOK(hash[..])
    }

    /** The packets waiting in the ring. */
    ghost function Contents(): seq<Packet>
      reads `head, `tail, `queue, queue
    {
      if head <= tail <= queue.Length then queue[head..tail]
      else if tail < head <= queue.Length then queue[head..] + queue[..tail]
      else []
    }

    /** The bytes of the unfinished packet of a connection. */
    ghost function Pending(fd: int): seq<Byte>
      reads `hash, hash
    {
      if hash.Length == HASHSIZE then PendingIn(hash[..], fd) else []
    }

    constructor ()
      ensures Valid() && Contents() == [] && forall fd :: Pending(fd) == []
      ensures fresh(queue) && fresh(hash)
    {
      head, tail := 0, 0;
      queue := new Packet[QUEUESIZE](_ => Packet(0, []));
      hash := new Chain[HASHSIZE](_ => []);
    }

    /** find_uncomplete takes the unfinished packet of a connection out of its chain. */
    method FindUncomplete(fd: int) returns (r: Option<Part>)
      requires Valid()
      modifies hash
      ensures Valid() && Pending(fd) == [] && forall g | g != fd :: Pending(g) == old(Pending(g))
      ensures r.None? ==> old(Pending(fd)) == []
      ensures r.Some? ==> Proper(r.value) && old(Pending(fd)) == Raw(r.value)
    {
      ghost var table := hash[..];
      var h := HashFd(fd);
      var chain := hash[h];
      assert ChainOK(chain, h);
      hide ChainOK, Raw, HashFd;
      var i := 0;
      while i < |chain| && chain[i].id != fd
        invariant 0 <= i <= |chain| && forall k | 0 <= k < i :: chain[k].id != fd
      {
        i := i + 1;
      }
      if i == |chain| {
        NotFound(chain, h, fd);
        return None;
      }
      FoundAt(chain, h, fd, i);
      var rest := chain[..i] + chain[i + 1..];
      forall g { ChainWithout(chain, h, i, g); }
      TableChanged(table, fd, rest);
      EntryProper(chain, h, i);
      hide *;
      hash[h] := rest;
      assert hash[..] == table[h := rest];
      r := Some(chain[i].part);
    }

    /** save_uncomplete, and putting back what find_uncomplete took out. */
    method SaveUncomplete(fd: int, part: Part)
      requires Valid() && Proper(part) && Pending(fd) == []
      modifies hash
      ensures Valid() && Pending(fd) == Raw(part) && forall g | g != fd :: Pending(g) == old(Pending(g))
    {
      ghost var table := hash[..];
      var h := HashFd(fd);
      var chain := hash[h];
      assert ChainOK(chain, h) && Held(chain, fd) == [];
      hide ChainOK, HashFd;
      NothingHeld(chain, h, fd);
      var more := [Uncomplete(fd, part)] + chain;
      forall g { ChainWith(chain, h, Uncomplete(fd, part), g); }
      TableChanged(table, fd, more);
      hide *;
      hash[h] := more;
      assert hash[..] == table[h := more];
    }

    /** push_data. */
    method PushData(p: Packet)
      requires Valid()
      modifies `head, `tail, `queue, queue
      ensures Valid() && Contents() == old(Contents()) + [p] && (queue == old(queue) || fresh(queue))
    {
      hide TableOK;
      queue[tail] := p;
      tail := tail + 1;
      if tail >= queue.Length { tail := tail - queue.Length; }
      if head == tail { ExpandQueue(); }
    }

    /** expand_queue: a full ring moves to a larger one. */
    method ExpandQueue()
      requires 0 < queue.Length && head == tail < queue.Length
      modifies `head, `tail, `queue
      ensures fresh(queue) && head == 0 && tail < queue.Length
      ensures Contents() == old(queue[head..] + queue[..head])
    {
      var cap := queue.Length;
      ghost var was := queue[head..] + queue[..head];
      assert |was| == cap;
      var nq := new Packet[cap + QUEUESIZE](_ => Packet(0, []));
      var i := 0;
      while i < cap
        modifies nq
        invariant 0 <= i <= cap && forall k | 0 <= k < i :: nq[k] == was[k]
      {
        RingIndex(head, i, cap);
        nq[i] := queue[(head + i) % cap];
        i := i + 1;
      }
      assert nq[..cap] == was;
      head, tail, queue := 0, cap, nq;
    }

    /** lpop. */
    method Pop() returns (r: Option<Packet>)
      requires Valid()
      modifies `head
      ensures Valid() && r == if old(Contents()) == [] then None else Some(old(Contents())[0])
      ensures Contents() == if r == None then [] else old(Contents())[1..]
    {
      hide TableOK;
      if head == tail { return None; }
      r := Some(queue[head]);
      head := head + 1;
      if head >= queue.Length { head := 0; }
    }

    /** push_more: what comes behind the first packet of a chunk. */
    method PushMore(fd: int, buffer: seq<Byte>)
      requires Valid() && |buffer| > 0 && Pending(fd) == []
      modifies this, queue, hash
      ensures Valid() && hash == old(hash) && (queue == old(queue) || fresh(queue))
      ensures Pending(fd) == Parse(buffer).1 && forall g | g != fd :: Pending(g) == old(Pending(g))
      ensures Contents() == old(Contents()) + Tagged(fd, Parse(buffer).0)
      decreases |buffer|
    {
      hide *;
      TaggedNone(fd);
      if |buffer| == 1 {
        OneByte(buffer);
        SaveUncomplete(fd, Header(buffer[0]));
        return;
      }
      var size := ReadSize(buffer[0], buffer[1]);
      var data := buffer[2..];
      if |data| < size {
        PartOnly(buffer, size);
        SaveUncomplete(fd, Body(size, data));
        return;
      }
      PushData(Packet(fd, data[..size]));
      FirstPacket(fd, buffer, size);
      data := data[size..];
      if |data| > 0 { PushMore(fd, data); } else { ParseNothing(); }
    }

    /** What a chunk does: nothing to deliver yet, one packet, or packets to pop. */
    method FilterData(fd: int, chunk: seq<Byte>) returns (r: Filtered)
      requires Valid() && |chunk| > 0
      modifies this, queue, hash
      ensures Valid() && hash == old(hash) && (queue == old(queue) || fresh(queue))
      ensures var (packets, rest) := Parse(old(Pending(fd)) + chunk);
              && Pending(fd) == rest && (forall g | g != fd :: Pending(g) == old(Pending(g)))
              && r == Answer(packets, rest)
              && Contents() == old(Contents()) + (if r == More then Tagged(fd, packets) else [])
    {
      hide *;
      TaggedNone(fd);
      ghost var all := Pending(fd) + chunk;
      var uc := FindUncomplete(fd);
      if uc.None? {
        assert all == chunk;
        r := Fresh(fd, chunk);
        return;
      }
      var part, buffer := uc.value, chunk;
      Unfinished(part);
      if part.Header? {
        SizeKnown(part.high, chunk);
        part := Body(ReadSize(part.high, chunk[0]), []);
        buffer := chunk[1..];
      }
      assert all == Raw(part) + buffer;
      var need := part.size - |part.data|;
      if |buffer| < need {
        StillShort(part, buffer);
        SaveUncomplete(fd, Body(part.size, part.data + buffer));
        return Nothing;
      }
      var data := part.data + buffer[..need];
      Filled(fd, part, buffer);
      buffer := buffer[need..];
      AnswerFor(data, buffer);
      if |buffer| == 0 {
        ParseNothing();
        return Data(data);
      }
      PushData(Packet(fd, data));
      PushMore(fd, buffer);
      r := More;
    }

    /** A chunk of a connection with nothing unfinished. */
    method Fresh(fd: int, chunk: seq<Byte>) returns (r: Filtered)
      requires Valid() && |chunk| > 0 && Pending(fd) == []
      modifies this, queue, hash
      ensures Valid() && hash == old(hash) && (queue == old(queue) || fresh(queue))
      ensures var (packets, rest) := Parse(chunk);
              && Pending(fd) == rest && (forall g | g != fd :: Pending(g) == old(Pending(g)))
              && r == Answer(packets, rest)
              && Contents() == old(Contents()) + (if r == More then Tagged(fd, packets) else [])
    {
      hide *;
      TaggedNone(fd);
      if |chunk| == 1 {
        OneByte(chunk);
        SaveUncomplete(fd, Header(chunk[0]));
        return Nothing;
      }
      var size := ReadSize(chunk[0], chunk[1]);
      var data := chunk[2..];
      if |data| < size {
        PartOnly(chunk, size);
        SaveUncomplete(fd, Body(size, data));
        return Nothing;
      }
      FirstPacket(fd, chunk, size);
      AnswerFor(data[..size], data[size..]);
      if |data| == size {
        ParseNothing();
        return Data(data);
      }
      PushData(Packet(fd, data[..size]));
      PushMore(fd, data[size..]);
      r := More;
    }

    /** close_uncomplete. */
    method CloseUncomplete(fd: int)
      requires Valid()
      modifies hash
      ensures Valid() && Pending(fd) == [] && forall g | g != fd :: Pending(g) == old(Pending(g))
    {
      var _ := FindUncomplete(fd);
    }

    /** Pop until the queue is empty. */
    method Drain() returns (out: seq<Packet>)
      requires Valid()
      modifies `head
      ensures Valid() && Contents() == [] && out == old(Contents())
    {
      hide TableOK, Contents;
      out := [];
      var p := Pop();
      while p.Some?
        invariant Valid()
        invariant out + (if p.Some? then [p.value] + Contents() else []) == old(Contents())
        invariant p.None? ==> Contents() == []
        decreases p.Some?, |Contents()|
      {
        out := out + [p.value];
        p := Pop();
      }
    }

    /** Deliver what an event brings, the queue being drained each time. */
    method Deliver(event: Event) returns (out: seq<Packet>)
      requires Valid() && Contents() == [] && (event.Arrived? ==> |event.chunk| > 0)
      modifies this, queue, hash
      ensures Valid() && Contents() == [] && hash == old(hash) && (queue == old(queue) || fresh(queue))
      ensures forall g | g != event.fd :: Pending(g) == old(Pending(g))
      ensures event.Closed? ==> out == [] && Pending(event.fd) == []
      ensures event.Arrived? ==>
                var (packets, rest) := Parse(old(Pending(event.fd)) + event.chunk);
                out == Tagged(event.fd, packets) && Pending(event.fd) == rest
    {
      hide TableOK, PendingIn, HashFd, Parse;
      if event.Closed? {
        CloseUncomplete(event.fd);
        return [];
      }
      var r := FilterData(event.fd, event.chunk);
      out := Drain();
      if r.Data? { out := [Packet(event.fd, r.data)]; }
    }

    /** One more event of a run in which `done` came before and delivered `before`. */
    method DeliverNext(event: Event, ghost done: seq<Event>, ghost before: seq<Packet>) returns (more: seq<Packet>)
      requires Valid() && Contents() == [] && (event.Arrived? ==> |event.chunk| > 0)
      requires forall fd :: On(before, fd) == Tagged(fd, Expected(done, fd).0) && Pending(fd) == Expected(done, fd).1
      modifies this, queue, hash
      ensures Valid() && Contents() == [] && hash == old(hash) && (queue == old(queue) || fresh(queue))
      ensures forall fd :: On(before + more, fd) == Tagged(fd, Expected(done + [event], fd).0)
      ensures forall fd :: Pending(fd) == Expected(done + [event], fd).1
    {
      hide *;
      more := Deliver(event);
      forall fd
        ensures On(before + more, fd) == Tagged(fd, Expected(done + [event], fd).0)
        ensures Pending(fd) == Expected(done + [event], fd).1
      {
        NextExpected(done, event, fd, before, more);
      }
    }

    /** A whole run over all connections. */
    method Receive(events: seq<Event>) returns (out: seq<Packet>)
      requires Valid() && Contents() == [] && forall fd :: Pending(fd) == []
      requires forall k | 0 <= k < |events| && events[k].Arrived? :: |events[k].chunk| > 0
      modifies this, queue, hash
      ensures Valid() && Contents() == []
      ensures forall fd :: On(out, fd) == Tagged(fd, Expected(events, fd).0) && Pending(fd) == Expected(events, fd).1
    {
      hide *;
      out := [];
      NothingExpected(events);
      var n := 0;
      while n < |events|
        invariant 0 <= n <= |events| && Valid() && Contents() == [] && hash == old(hash)
        invariant queue == old(queue) || fresh(queue)
        invariant forall fd :: On(out, fd) == Tagged(fd, Expected(events[..n], fd).0)
        invariant forall fd :: Pending(fd) == Expected(events[..n], fd).1
      {
        assert events[..n + 1] == events[..n] + [events[n]];
        var more := DeliverNext(events[n], events[..n], out);
        out := out + more;
        n := n + 1;
      }
      assert events[..n] == events;
    }
  }

  lemma NothingExpected(events: seq<Event>)
    ensures forall fd :: On([], fd) == Tagged(fd, Expected(events[..0], fd).0) && Expected(events[..0], fd).1 == []
  {
  }

  // ---------- Runs over several connections ----------

  datatype Event = Arrived(fd: int, chunk: seq<Byte>) | Closed(fd: int)

  /** What a connection should have delivered after some events, and what should be left of it. */
  function Expected(events: seq<Event>, fd: int): (seq<seq<Byte>>, seq<Byte>)
  {
    if events == [] then ([], [])
    else
      var (packets, rest) := Expected(events[..|events| - 1], fd);
      var e := events[|events| - 1];
      if e.fd != fd then (packets, rest)
      else if e.Closed? then (packets, [])
      else (packets + Parse(rest + e.chunk).0, Parse(rest + e.chunk).1)
  }

  /** The packets of one connection. */
  function On(out: seq<Packet>, fd: int): seq<Packet>
  {
    if out == [] then []
    else On(out[..|out| - 1], fd) + (if out[|out| - 1].fd == fd then [out[|out| - 1]] else [])
  }

  lemma {:induction false} OnConcat(a: seq<Packet>, b: seq<Packet>, fd: int)
    ensures On(a + b, fd) == On(a, fd) + On(b, fd)
  {
    if b == [] { assert a + b == a; }
    else {
      var n := |b| - 1;
      OnConcat(a, b[..n], fd);
      assert (a + b)[..|a + b| - 1] == a + b[..n];
    }
  }

  lemma {:induction false} OnTagged(packets: seq<seq<Byte>>, g: int, fd: int)
    ensures On(Tagged(g, packets), fd) == if g == fd then Tagged(fd, packets) else []
  {
    if packets != [] {
      var n := |packets| - 1;
      OnTagged(packets[..n], g, fd);
      assert Tagged(g, packets)[..n] == Tagged(g, packets[..n]);
      assert Tagged(fd, packets) == Tagged(fd, packets[..n]) + [Packet(fd, packets[n])];
    }
  }

  lemma TaggedConcat(fd: int, a: seq<seq<Byte>>, b: seq<seq<Byte>>)
    ensures Tagged(fd, a + b) == Tagged(fd, a) + Tagged(fd, b)
  {
  }

  lemma NextExpected(done: seq<Event>, e: Event, fd: int, before: seq<Packet>, more: seq<Packet>)
    requires On(before, fd) == Tagged(fd, Expected(done, fd).0)
    requires e.Closed? ==> more == []
    requires e.Arrived? ==> more == Tagged(e.fd, Parse(Expected(done, e.fd).1 + e.chunk).0)
    ensures On(before + more, fd) == Tagged(fd, Expected(done + [e], fd).0)
    ensures Expected(done + [e], fd).1
         == if e.fd != fd then Expected(done, fd).1
            else if e.Closed? then []
            else Parse(Expected(done, fd).1 + e.chunk).1
  {
    hide Parse, Tagged;
    assert (done + [e])[..|done|] == done;
    OnConcat(before, more, fd);
    if e.Arrived? {
      var packets := Parse(Expected(done, e.fd).1 + e.chunk).0;
      OnTagged(packets, e.fd, fd);
      TaggedConcat(fd, Expected(done, fd).0, packets);
    }
  }

  /** All the bytes of a connection. */
  function Stream(events: seq<Event>, fd: int): seq<Byte>
  {
    if events == [] then []
    else
      var e := events[|events| - 1];
      Stream(events[..|events| - 1], fd) + (if e.fd == fd && e.Arrived? then e.chunk else [])
  }

  /**
   * On a connection that stays open the packets are those of its stream, however that is cut into chunks and whatever
   * arrives on other connections in between.
   */
  lemma {:induction false} AnyCut(events: seq<Event>, fd: int)
    requires forall k | 0 <= k < |events| && events[k].Closed? :: events[k].fd != fd
    ensures Expected(events, fd) == Parse(Stream(events, fd))
  {
    if events == [] { ParseNothing(); }
    else {
      var n := |events| - 1;
      AnyCut(events[..n], fd);
      hide Parse;
      var e := events[n];
      var stream := Stream(events[..n], fd);
      if e.fd == fd { ParseCut(stream, e.chunk); } else { assert stream + [] == stream; }
    }
  }

  // ---------- Sending ----------

  /** lpack: a packet too long for its size is refused. */
  function Pack(data: seq<Byte>): (r: Option<seq<Byte>>)
    ensures r.Some? <==> |data| < 0x10000
  {
    if |data| >= 0x10000 then None else Some([|data| / 256, |data| % 256] + data)
  }

  /** The stream of packets sent one after the other. */
  function Sent(packets: seq<seq<Byte>>): seq<Byte>
    requires forall k | 0 <= k < |packets| :: |packets[k]| < 0x10000
  {
    if packets == [] then [] else Pack(packets[0]).value + Sent(packets[1..])
  }

  /** What is sent is what arrives, also when the last packet is still on its way. */
  lemma {:induction false} SentArrives(packets: seq<seq<Byte>>, data: seq<Byte>, part: seq<Byte>)
    requires forall k | 0 <= k < |packets| :: |packets[k]| < 0x10000
    requires |data| < 0x10000 && part < Pack(data).value
    ensures Parse(Sent(packets) + part) == (packets, part)
  {
    hide Parse, Pack;
    if packets == [] {
      assert Sent(packets) + part == part;
      PartOfPacket(data, part);
    } else {
      SentArrives(packets[1..], data, part);
      var rest := Sent(packets[1..]) + part;
      ParsePacked(packets[0], rest);
      assert Sent(packets) + part == Pack(packets[0]).value + rest;
      assert [packets[0]] + packets[1..] == packets;
    }
  }

  lemma ParsePacked(p: seq<Byte>, rest: seq<Byte>)
    requires |p| < 0x10000
    ensures Parse(Pack(p).value + rest) == ([p] + Parse(rest).0, Parse(rest).1)
  {
    var s := Pack(p).value + rest;
    assert ReadSize(s[0], s[1]) == |p|;
    FirstPacket(0, s, |p|);
    assert s[2..][..|p|] == p && s[2..][|p|..] == rest;
  }

  lemma PartOfPacket(data: seq<Byte>, part: seq<Byte>)
    requires |data| < 0x10000 && part < Pack(data).value
    ensures Parse(part) == ([], part)
  {
    if |part| >= 2 {
      var packed := Pack(data).value;
      assert part[0] == packed[0] && part[1] == packed[1];
      assert Size(part) == |data|;
    }
  }

  datatype Filtered = Nothing | Data(data: seq<Byte>) | More

  function Answer(packets: seq<seq<Byte>>, rest: seq<Byte>): Filtered
  {
    if packets == [] then Nothing else if |packets| == 1 && rest == [] then Data(packets[0]) else More
  }

  lemma RingIndex(head: nat, i: nat, cap: nat)
    requires head < cap && i < cap
    ensures (head + i) % cap == if head + i < cap then head + i else head + i - cap
  {
    if head + i < cap { Division(head + i, cap, 0, head + i); } else { Division(head + i, cap, 1, head + i - cap); }
  }

  lemma EntryProper(chain: Chain, h: nat, i: nat)
    requires ChainOK(chain, h) && i < |chain|
    ensures Proper(chain[i].part)
  {
  }

  /** Unfinished packets hold at least one byte. */
  lemma NothingHeld(chain: Chain, h: nat, fd: int)
    requires ChainOK(chain, h) && Held(chain, fd) == []
    ensures Find(chain, fd) == |chain|
  {
  }

  lemma OneByte(s: seq<Byte>)
    requires |s| == 1
    ensures Proper(Header(s[0])) && Raw(Header(s[0])) == s && Parse(s) == ([], s) && Answer([], s) == Nothing
  {
  }

  lemma PartOnly(s: seq<Byte>, size: nat)
    requires |s| >= 2 && size == ReadSize(s[0], s[1]) && |s| - 2 < size
    ensures Proper(Body(size, s[2..])) && Raw(Body(size, s[2..])) == s
    ensures Parse(s) == ([], s) && Answer([], s) == Nothing
  {
  }

  lemma Unfinished(part: Part)
    requires Proper(part)
    ensures part.Header? ==> Raw(part) == [part.high]
    ensures part.Body? ==> |part.data| < part.size < 0x10000
  {
  }

  /** After one packet there is one packet to deliver when nothing is left, and more to do otherwise. */
  lemma AnswerFor(data: seq<Byte>, rest: seq<Byte>)
    ensures Answer([data] + Parse(rest).0, Parse(rest).1) == if rest == [] then Data(data) else More
  {
  }

  lemma TaggedNone(fd: int)
    ensures Tagged(fd, []) == []
  {
  }

  lemma TaggedFirst(fd: int, packet: seq<Byte>, rest: seq<seq<Byte>>)
    ensures Tagged(fd, [packet] + rest) == [Packet(fd, packet)] + Tagged(fd, rest)
  {
  }

  lemma ParseFirst(s: seq<Byte>, n: nat)
    requires |s| >= 2 && n == ReadSize(s[0], s[1]) && |s| - 2 >= n
    ensures Parse(s) == ([s[2..2 + n]] + Parse(s[2 + n..]).0, Parse(s[2 + n..]).1)
  {
    hide ReadSize;
  }

  lemma FirstPacket(fd: int, s: seq<Byte>, n: nat)
    requires |s| >= 2 && n == ReadSize(s[0], s[1]) && |s| - 2 >= n
    ensures var data, rest := s[2..][..n], s[2..][n..];
            && Parse(s) == ([data] + Parse(rest).0, Parse(rest).1)
            && Tagged(fd, Parse(s).0) == [Packet(fd, data)] + Tagged(fd, Parse(rest).0)
  {
    hide ReadSize, Parse, Tagged;
    ParseFirst(s, n);
    assert s[2..][..n] == s[2..2 + n] && s[2..][n..] == s[2 + n..];
    TaggedFirst(fd, s[2..2 + n], Parse(s[2 + n..]).0);
  }

  /** The second byte of a size. */
  lemma SizeKnown(high: Byte, chunk: seq<Byte>)
    requires |chunk| > 0
    ensures var size := ReadSize(high, chunk[0]);
            size < 0x10000 && Raw(Body(size, [])) + chunk[1..] == [high] + chunk
  {
  }

  lemma StillShort(part: Part, buffer: seq<Byte>)
    requires part.Body? && part.size < 0x10000 && |part.data| + |buffer| < part.size
    ensures var more := Body(part.size, part.data + buffer);
            && Proper(more) && Raw(more) == Raw(part) + buffer
            && Parse(Raw(part) + buffer) == ([], Raw(more)) && Answer([], Raw(more)) == Nothing
  {
    RawSize(part, buffer);
    hide Size;
  }

  lemma Filled(fd: int, part: Part, buffer: seq<Byte>)
    requires part.Body? && |part.data| <= part.size < 0x10000 && |part.data| + |buffer| >= part.size
    ensures var need := part.size - |part.data|;
            var data, rest := part.data + buffer[..need], Parse(buffer[need..]);
            && Parse(Raw(part) + buffer) == ([data] + rest.0, rest.1)
            && Tagged(fd, [data] + rest.0) == [Packet(fd, data)] + Tagged(fd, rest.0)
  {
    hide Parse, Tagged;
    var need := part.size - |part.data|;
    var s := Raw(part) + buffer;
    RawSize(part, buffer);
    FirstPacket(fd, s, part.size);
    assert s[2..][..part.size] == part.data + buffer[..need];
    assert s[2..][part.size..] == buffer[need..];
  }

  lemma RawSize(part: Part, buffer: seq<Byte>)
    requires part.Body? && part.size < 0x10000
    ensures var s := Raw(part) + buffer;
            Size(s) == ReadSize(s[0], s[1]) == part.size && s[2..] == part.data + buffer
  {
  }
}
