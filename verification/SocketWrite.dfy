/**
 * The write path of a connected TCP socket in socket_server.c as atomic steps: any number of worker threads that
 * write directly or send requests through a pipe, and the socket thread that drains two priority lists.
 */
module SocketWrite {

  type Byte = b: int | 0 <= b < 256

  datatype Priority = High | Low

  /** A message that thread `thread` sends. */
  datatype Msg = Msg(thread: nat, prio: Priority, data: seq<Byte>)

  /** A message of which `off` bytes are written. */
  datatype Buf = Buf(m: Msg, off: nat)

  datatype Slot = Empty | Full(b: Buf)

  datatype Holder = Free | Worker(t: nat) | SocketThread

  /** Where a worker is in sending a message: each read of the shared state is a step of its own. */
  datatype Pc =
    | Idle
    | Lists1(m: Msg)     // first look, without the lock: are the lists empty?
    | Dw1(m: Msg)
    | Sending1(m: Msg)
    | TryLock(m: Msg)
    | High2(m: Msg)      // second look, with the lock
    | Low2(m: Msg)
    | Dw2(m: Msg)
    | Sending2(m: Msg)
    | Write(m: Msg)
    | Wrote(b: Buf)      // a part is written, about to leave the rest to the socket thread
    | Inc(m: Msg)        // about to count itself as sending
    | Piping(m: Msg)     // counted, about to write the request into the pipe

  /** Where the socket thread is. */
  datatype SPc =
    | SIdle
    | SDec               // has put a request into a list, about to count down
    | SHigh              // has the lock: writing the high list
    | SLow               // writing the low list
    | SCheck             // a low message was written in part, or not at all
    | SDone              // both lists are written

  /** The socket; `done` and `sent` record what is written in full and what was sent, in order. */
  datatype State = State(
    out: seq<Byte>, done: seq<Msg>, sent: seq<Msg>,
    high: seq<Buf>, low: seq<Buf>, wbSize: int, dw: Slot, sending: int, holder: Holder, pipe: seq<Msg>,
    closed: bool, spc: SPc, pcs: seq<Pc>)

  /** The `sending` counter has 16 bits; a worker waits rather than let it wrap. */
  const MAXSENDING: int := 0xffff

  /** What a step leaves to its environment: which message to send, how much a write accepts, or that it fails. */
  datatype Choice = Nothing | Send(prio: Priority,
      data: seq<Byte>) | Accept(n: nat) | WouldBlock | Error | ReadPipe | Writable

  // ---------- Steps of a worker ----------

  function SetPc(s: State, t: nat, pc: Pc): State
    requires t < |s.pcs|
  {
    s.(pcs := s.pcs[t := pc])
  }

  /** How many bytes of a write of `n` are accepted; a failed direct write counts as none. */
  function Accepted(ch: Choice, n: nat): (k: nat)
    ensures k <= n
  {
    if ch.Accept? then (if ch.n < n then ch.n else n) else 0
  }

  function WorkerStep(s: State, t: nat, ch: Choice): State
    requires t < |s.pcs|
  {
    match s.pcs[t]
    case Idle =>
      if ch.Send? then
        var m := Msg(t, ch.prio, ch.data);
        SetPc(s, t, if ch.prio == High then Lists1(m) else Inc(m))
      else s
    case Lists1(m) => SetPc(s, t, if s.high == [] && s.low == [] then Dw1(m) else Inc(m))
    case Dw1(m) => SetPc(s, t, if s.dw.Empty? then Sending1(m) else Inc(m))
    case Sending1(m) => SetPc(s, t, if s.sending == 0 then TryLock(m) else Inc(m))
    case TryLock(m) =>
      if s.holder.Free? then SetPc(s, t, High2(m)).(holder := Worker(t)) else SetPc(s, t, Inc(m))
    case High2(m) => if s.high == [] then SetPc(s, t, Low2(m)) else Unlock(SetPc(s, t, Inc(m)))
    case Low2(m) => if s.low == [] then SetPc(s, t, Dw2(m)) else Unlock(SetPc(s, t, Inc(m)))
    case Dw2(m) => if s.dw.Empty? then SetPc(s, t, Sending2(m)) else Unlock(SetPc(s, t, Inc(m)))
    case Sending2(m) => if s.sending == 0 then SetPc(s, t, Write(m)) else Unlock(SetPc(s, t, Inc(m)))
    case Write(m) =>
      var n := Accepted(ch, |m.data|);
      var s1 := s.(out := s.out + m.data[..n], sent := s.sent + [m]);
      if n == |m.data| then Unlock(SetPc(s1, t, Idle)).(done := s.done + [m])
      else SetPc(s1, t, Wrote(Buf(m, n)))
    case Wrote(b) => Unlock(SetPc(s, t, Idle)).(dw := Full(b))
    case Inc(m) => if s.sending < MAXSENDING then SetPc(s, t, Piping(m)).(sending := s.sending + 1) else s
    case Piping(m) => SetPc(s, t, Idle).(pipe := s.pipe + [m], sent := s.sent + [m])
  }

  function Unlock(s: State): State
  {
    s.(holder := Free)
  }

  // ---------- Steps of the socket thread ----------

  /** Put the first request of the pipe into a list: into the high list also when both are empty. */
  function Append(s: State): State
    requires s.pipe != []
  {
    var m := s.pipe[0];
    var s1 := s.(pipe := s.pipe[1..], wbSize := s.wbSize + |m.data|);
    if (s.high == [] && s.low == []) || m.prio == High then s1.(high := s.high + [Buf(m, 0)])
    else s1.(low := s.low + [Buf(m, 0)])
  }

  function Rest(b: Buf): int
  {
    |b.m.data| - b.off
  }

  function Bytes(b: Buf, n: nat): seq<Byte>
    requires b.off + n <= |b.m.data|
  {
    b.m.data[b.off..b.off + n]
  }

  /** The lists are freed and the socket is gone. */
  function ForceClose(s: State): State
  {
    s.(high := [], low := [], dw := Empty, closed := true, holder := Free, spc := SIdle)
  }

  /** The first messages of the lists are not written beyond their end. */
  predicate Fits(s: State)
  {
    && (s.high != [] ==> s.high[0].off <= |s.high[0].m.data|)
    && (s.low != [] ==> s.low[0].off <= |s.low[0].m.data|)
  }

  function SocketStep(s: State, ch: Choice): State
    requires Fits(s)
  {
    match s.spc
    case SIdle =>
      if ch.ReadPipe? && s.pipe != [] then Append(s).(spc := SDec)
      else if ch.Writable? && s.holder.Free? then
        var s1 := s.(holder := SocketThread, spc := SHigh);
        if s.dw.Full? then s1.(high := [s.dw.b] + s.high, wbSize := s.wbSize + Rest(s.dw.b), dw := Empty) else s1
      else s
    case SDec => s.(sending := s.sending - 1, spc := SIdle)
    case SHigh =>
      if s.high == [] then s.(spc := if s.low == [] then SDone else SLow)
      else if ch.Error? then ForceClose(s)
      else if ch.WouldBlock? then Leave(s)
      else
        var b := s.high[0];
        var n := Accepted(ch, Rest(b));
        var s1 := s.(out := s.out + Bytes(b, n), wbSize := s.wbSize - n);
        if n == Rest(b) then s1.(high := s.high[1..], done := s.done + [b.m])
        else Leave(s1.(high := s.high[0 := Buf(b.m, b.off + n)]))
    case SLow =>
      if s.low == [] then s.(spc := SDone)
      else if ch.Error? then ForceClose(s)
      else if ch.WouldBlock? then s.(spc := SCheck)
      else
        var b := s.low[0];
        var n := Accepted(ch, Rest(b));
        var s1 := s.(out := s.out + Bytes(b, n), wbSize := s.wbSize - n);
        if n == Rest(b) then s1.(low := s.low[1..], done := s.done + [b.m])
        else s1.(low := s.low[0 := Buf(b.m, b.off + n)], spc := SCheck)
    case SCheck =>
      if s.low != [] && s.low[0].off != 0 then Leave(s.(high := [s.low[0]], low := s.low[1..])) else Leave(s)
    case SDone => Leave(s)
  }

  function Leave(s: State): State
  {
    s.(holder := Free, spc := SIdle)
  }

  // ---------- What every run keeps ----------

  predicate Locked(pc: Pc)
  {
    pc.High2? || pc.Low2? || pc.Dw2? || pc.Sending2? || pc.Write? || pc.Wrote?
  }

  predicate SLocked(spc: SPc)
  {
    !spc.SIdle? && !spc.SDec?
  }

  /** The message that left the front of the lists without being in one: half written by a worker. */
  function Front(s: State): Slot
  {
    if s.holder.Worker? && s.holder.t < |s.pcs| && s.pcs[s.holder.t].Wrote? then Full(s.pcs[s.holder.t].b) else s.dw
  }

  /** The message that may be written in part. */
  function Current(s: State): Slot
  {
    if Front(s).Full? then Front(s)
    else if s.high != [] then Full(s.high[0])
    else if s.low != [] then Full(s.low[0])
    else Empty
  }

  function Flat(l: seq<Msg>): seq<Byte>
  {
    if l == [] then [] else Flat(l[..|l| - 1]) + l[|l| - 1].data
  }

  function Msgs(l: seq<Buf>): seq<Msg>
  {
    seq(|l|, k requires 0 <= k < |l| => l[k].m)
  }

  function Single(b: Slot): seq<Msg>
  {
    if b.Full? then [b.b.m] else []
  }

  function Sum(l: seq<Buf>): int
  {
    if l == [] then 0 else Sum(l[..|l| - 1]) + Rest(l[|l| - 1])
  }

  /** The messages of one thread and priority, in order. */
  function Mine(l: seq<Msg>, w: nat, p: Priority): seq<Msg>
  {
    if l == [] then []
    else
      var m := l[|l| - 1];
      Mine(l[..|l| - 1], w, p) + (if m.thread == w && m.prio == p then [m] else [])
  }

  /** All messages sent, from those written to those still in the pipe. */
  function Line(s: State): seq<Msg>
  {
    s.done + Single(Front(s)) + Msgs(s.high) + Msgs(s.low) + s.pipe
  }

  function Pipers(pcs: seq<Pc>): set<nat>
  {
    set t | 0 <= t < |pcs| && pcs[t].Piping?
  }

  /** The message a worker is sending. */
  function MsgOf(pc: Pc): Slot
  {
    match pc
    case Idle => Empty
    case Wrote(b) => Full(b)
    case _ => Full(Buf(pc.m, 0))
  }

  predicate LockOK(s: State)
  {
    && (forall t | 0 <= t < |s.pcs| :: s.holder == Worker(t) <==> Locked(s.pcs[t]))
    && (s.holder.Worker? ==> s.holder.t < |s.pcs|) && (s.holder == SocketThread <==> SLocked(s.spc))
  }

  predicate Unwritten(l: seq<Buf>)
  {
    forall k | 0 <= k < |l| :: l[k].off == 0
  }

  /** No high-priority message of thread `t`. */
  predicate NoneOf(l: seq<Msg>, t: nat)
  {
    forall k | 0 <= k < |l| :: l[k].thread != t || l[k].prio != High
  }

  /** Has looked at the counter, so that none of its own requests is in the pipe. */
  predicate PastSending(pc: Pc)
  {
    pc.TryLock? || (Locked(pc) && !pc.Wrote?)
  }

  /** Has seen the high list empty while holding the lock. */
  predicate PastHigh(pc: Pc)
  {
    pc.Low2? || pc.Dw2? || pc.Sending2? || pc.Write?
  }

  /** What worker `t` knows. */
  predicate WorkerOK(s: State, t: nat)
    requires t < |s.pcs|
  {
    var pc := s.pcs[t];
    && (MsgOf(pc).Full? ==> MsgOf(pc).b.m.thread == t && (MsgOf(pc).b.m.prio == High || pc.Inc? || pc.Piping?))
    && (PastHigh(pc) || pc.Wrote? ==> Unwritten(s.high))
    && (pc.Sending2? || pc.Write? || pc.Wrote? ==> s.dw.Empty?)
    && (pc.Wrote? ==> pc.b.off <= |pc.b.m.data|)
    && (PastSending(pc) ==> NoneOf(s.pipe, t))
    && (PastHigh(pc) ==> forall k | 0 <= k < |s.high| :: s.high[k].m.thread != t || s.high[k].m.prio != High)
  }

  predicate WorkersOK(s: State)
  {
    forall t | 0 <= t < |s.pcs| :: WorkerOK(s, t)
  }

  predicate SendingOK(s: State)
  {
    s.sending == |s.pipe| + (if s.spc.SDec? then 1 else 0) + |Pipers(s.pcs)|
  }

  /** The high list: only its first message may be written in part, and not if another one is (`front`). */
  predicate HighOK(l: seq<Buf>, front: bool)
  {
    && (forall k | 0 <= k < |l| :: l[k].off <= |l[k].m.data|)
    && (forall k | 0 <= k < |l| && (k > 0 || front) :: l[k].off == 0)
  }

  /** The low list: its first message may be written in part only while the socket thread has just written to it. */
  predicate LowOK(l: seq<Buf>, check: bool)
  {
    && (forall k | 0 <= k < |l| :: l[k].off <= |l[k].m.data| && l[k].m.prio == Low)
    && (forall k | 0 <= k < |l| && (k > 0 || !check) :: l[k].off == 0)
  }

  /** Where parts of messages may be: at the head of one list, or in front of both. */
  predicate PartsOK(s: State)
  {
    && HighOK(s.high, Front(s).Full?) && LowOK(s.low, s.spc.SCheck?)
    && (s.dw.Full? ==> s.dw.b.off <= |s.dw.b.m.data| && s.dw.b.m.prio == High && !SLocked(s.spc))
    && (s.spc.SLow? || s.spc.SCheck? || s.spc.SDone? ==> s.high == [])
    && (s.spc.SDone? ==> s.low == [])
  }

  predicate SizeOK(s: State)
  {
    s.wbSize == Sum(s.high) + Sum(s.low)
  }

  function Part(c: Slot): seq<Byte>
  {
    if c.Full? && c.b.off <= |c.b.m.data| then c.b.m.data[..c.b.off] else []
  }

  /** The bytes written are whole messages and a part of one. */
  predicate OutOK(s: State)
  {
    s.out == Flat(s.done) + Part(Current(s))
  }

  /** Messages of one thread and priority are in line in the order in which they were sent. */
  ghost predicate OrderOK(s: State)
  {
    forall w, p :: Mine(Line(s), w, p) == Mine(s.sent, w, p)
  }

  /** Everything but the order. */
  predicate Core(s: State)
  {
    !s.closed ==> LockOK(s) && WorkersOK(s) && SendingOK(s) && PartsOK(s) && SizeOK(s) && OutOK(s)
  }

  ghost predicate Inv(s: State)
  {
    Core(s) && (!s.closed ==> OrderOK(s))
  }

  // ---------- Sequences ----------

  lemma {:induction false} MineConcat(a: seq<Msg>, b: seq<Msg>, w: nat, p: Priority)
    ensures Mine(a + b, w, p) == Mine(a, w, p) + Mine(b, w, p)
  {
    if b == [] { assert a + b == a; }
    else {
      assert (a + b)[..|a + b| - 1] == a + b[..|b| - 1];
      MineConcat(a, b[..|b| - 1], w, p);
    }
  }

  lemma {:induction false} MineNone(l: seq<Msg>, w: nat, p: Priority)
    requires forall k | 0 <= k < |l| :: l[k].thread != w || l[k].prio != p
    ensures Mine(l, w, p) == []
  {
    if l != [] { MineNone(l[..|l| - 1], w, p); }
  }

  /** A thread's messages in the parts of the line. */
  lemma MineLine(s: State, w: nat, p: Priority)
    ensures Mine(Line(s), w, p) ==
      Mine(s.done, w, p) + Mine(Single(Front(s)), w, p) + Mine(Msgs(s.high), w, p) + Mine(Msgs(s.low), w,
          p) + Mine(s.pipe, w, p)
  {
    hide Mine, Front, Single;
    var a, b, c, d := s.done, Single(Front(s)), Msgs(s.high), Msgs(s.low);
    MineConcat(a + b + c + d, s.pipe, w, p);
    MineConcat(a + b + c, d, w, p);
    MineConcat(a + b, c, w, p);
    MineConcat(a, b, w, p);
  }

  lemma HighTail(l: seq<Buf>, front: bool)
    requires HighOK(l, front) && l != []
    ensures HighOK(l[1..], true) && l[0].off <= |l[0].m.data| && (front ==> l[0].off == 0)
  {
  }

  lemma HighLess(l: seq<Buf>)
    requires HighOK(l, true)
    ensures HighOK(l, false)
  {
  }

  lemma HighHead(l: seq<Buf>, front: bool, off: nat)
    requires HighOK(l, front) && l != [] && off <= |l[0].m.data|
    ensures HighOK(l[0 := Buf(l[0].m, off)], false)
  {
  }

  lemma HighBack(l: seq<Buf>, front: bool, m: Msg)
    requires HighOK(l, front)
    ensures HighOK(l + [Buf(m, 0)], front)
  {
  }

  lemma LowTail(l: seq<Buf>, check: bool)
    requires LowOK(l, check) && l != []
    ensures LowOK(l[1..], false) && l[0].off <= |l[0].m.data| && (!check ==> l[0].off == 0)
  {
  }

  lemma LowHead(l: seq<Buf>, check: bool, off: nat)
    requires LowOK(l, check) && l != [] && off <= |l[0].m.data|
    ensures LowOK(l[0 := Buf(l[0].m, off)], true)
  {
  }

  lemma LowBack(l: seq<Buf>, check: bool, m: Msg)
    requires LowOK(l, check) && m.prio == Low
    ensures LowOK(l + [Buf(m, 0)], check)
  {
  }

  lemma {:induction false} SumFront(b: Buf, l: seq<Buf>)
    ensures Sum([b] + l) == Rest(b) + Sum(l)
  {
    if l == [] { assert [b] + l == [b]; }
    else {
      assert ([b] + l)[..|l|] == [b] + l[..|l| - 1];
      SumFront(b, l[..|l| - 1]);
    }
  }

  lemma SumBack(l: seq<Buf>, b: Buf)
    ensures Sum(l + [b]) == Sum(l) + Rest(b)
  {
    assert (l + [b])[..|l|] == l;
  }

  lemma FlatBack(l: seq<Msg>, m: Msg)
    ensures Flat(l + [m]) == Flat(l) + m.data
  {
    assert (l + [m])[..|l|] == l;
  }

  // ---------- Steps of workers keep it ----------

  /** A step of worker `t` that leaves the lists alone: what others know stays true. */
  lemma OthersKeep(s: State, s': State, t: nat)
    requires WorkersOK(s) && t < |s.pcs| == |s'.pcs| && s'.pcs == s.pcs[t := s'.pcs[t]] && WorkerOK(s', t)
    requires s'.high == s.high && s'.low == s.low && (s'.dw == s.dw || s.holder == Worker(t)) && LockOK(s)
    requires s'.pipe == s.pipe || (s'.pipe != [] && s'.pipe[..|s'.pipe| - 1] == s.pipe && s'.pipe[|s.pipe|].thread == t)
    ensures WorkersOK(s')
  {
    forall u | 0 <= u < |s.pcs| && u != t ensures WorkerOK(s', u) {
      assert WorkerOK(s, u);
      if s'.pipe != s.pipe { assert s'.pipe == s.pipe + [s'.pipe[|s.pipe|]]; }
    }
  }

  lemma PipersUpdate(pcs: seq<Pc>, t: nat, pc: Pc)
    requires t < |pcs|
    ensures |Pipers(pcs[t := pc])| + (if pcs[t].Piping? then 1 else 0) == |Pipers(pcs)| + (if pc.Piping? then 1 else 0)
  {
    var h, h' := Pipers(pcs), Pipers(pcs[t := pc]);
    assert h - {t} == h' - {t};
    assert |h - {t}| == |h| - (if t in h then 1 else 0);
    assert |h' - {t}| == |h'| - (if t in h' then 1 else 0);
  }

  /** The lists, the written bytes and the part in front of them are as before. */
  predicate SameData(s: State, s': State)
  {
    && s'.high == s.high && s'.low == s.low && s'.wbSize == s.wbSize && s'.out == s.out && s'.done == s.done
    && s'.spc == s.spc && s'.dw == s.dw && Front(s') == Front(s) && s'.closed == s.closed
  }

  lemma SameDataKeeps(s: State, s': State)
    requires PartsOK(s) && SizeOK(s) && OutOK(s) && SameData(s, s')
    ensures PartsOK(s') && SizeOK(s') && OutOK(s')
  {
    assert Current(s') == Current(s);
  }

  /** A step that only looks, takes the lock or gives it back. */
  lemma LookKeeps(s: State, t: nat, pc: Pc, holder: Holder)
    requires Core(s) && !s.closed && t < |s.pcs|
    requires !s.pcs[t].Wrote? && !s.pcs[t].Piping? && !pc.Wrote? && !pc.Piping?
    requires holder == s.holder || (s.holder.Free? && holder == Worker(t)) || (s.holder == Worker(t) && holder.Free?)
    requires Locked(pc) <==> holder == Worker(t)
    requires WorkerOK(SetPc(s, t, pc).(holder := holder), t)
    ensures Core(SetPc(s, t, pc).(holder := holder))
  {
    var s' := SetPc(s, t, pc).(holder := holder);
    PipersUpdate(s.pcs, t, pc);
    assert LockOK(s');
    hide WorkerOK;
    OthersKeep(s, s', t);
    SameDataKeeps(s, s');
  }

  /** What is known of one worker. */
  lemma WorkerHere(s: State, t: nat)
    requires Core(s) && !s.closed && t < |s.pcs|
    ensures WorkerOK(s, t) && (s.holder == Worker(t) <==> Locked(s.pcs[t]))
  {
  }

  lemma IdleStep(s: State, t: nat, ch: Choice, pc: Pc)
    requires t < |s.pcs| && s.pcs[t].Idle? && ch.Send?
    requires pc == if ch.prio == High then Lists1(Msg(t, ch.prio, ch.data)) else Inc(Msg(t, ch.prio, ch.data))
    ensures WorkerStep(s, t, ch) == SetPc(s, t, pc).(holder := s.holder)
  {
  }

  lemma NewlyKnown(s: State, t: nat, pc: Pc)
    requires t < |s.pcs| && (pc.Lists1? || pc.Inc?) && pc.m.thread == t && (pc.m.prio == High || pc.Inc?)
    ensures WorkerOK(SetPc(s, t, pc).(holder := s.holder), t)
  {
  }

  lemma IdleKeeps(s: State, t: nat, ch: Choice)
    requires Core(s) && !s.closed && t < |s.pcs| && s.pcs[t].Idle?
    ensures Core(WorkerStep(s, t, ch))
  {
    if ch.Send? {
      var m := Msg(t, ch.prio, ch.data);
      var pc := if ch.prio == High then Lists1(m) else Inc(m);
      IdleStep(s, t, ch, pc);
      WorkerHere(s, t);
      hide Core, WorkerStep;
      NewlyKnown(s, t, pc);
      LookKeeps(s, t, pc, s.holder);
    }
  }

  /** Steps that only look at the shared state, take the lock or give it back. */
  predicate Looking(pc: Pc)
  {
    pc.Lists1? || pc.Dw1? || pc.Sending1? || pc.TryLock? || pc.High2? || pc.Low2? || pc.Dw2? || pc.Sending2?
  }

  /** Where such a step leads, and who holds the lock then. */
  function Looked(s: State, t: nat): (Pc, Holder)
    requires t < |s.pcs| && Looking(s.pcs[t])
  {
    var m := s.pcs[t].m;
    match s.pcs[t]
    case Lists1(_) => (if s.high == [] && s.low == [] then Dw1(m) else Inc(m), s.holder)
    case Dw1(_) => (if s.dw.Empty? then Sending1(m) else Inc(m), s.holder)
    case Sending1(_) => (if s.sending == 0 then TryLock(m) else Inc(m), s.holder)
    case TryLock(_) => if s.holder.Free? then (High2(m), Worker(t)) else (Inc(m), s.holder)
    case High2(_) => if s.high == [] then (Low2(m), s.holder) else (Inc(m), Free)
    case Low2(_) => if s.low == [] then (Dw2(m), s.holder) else (Inc(m), Free)
    case Dw2(_) => if s.dw.Empty? then (Sending2(m), s.holder) else (Inc(m), Free)
    case Sending2(_) => if s.sending == 0 then (Write(m), s.holder) else (Inc(m), Free)
  }

  lemma LookStep(s: State, t: nat, ch: Choice)
    requires t < |s.pcs| && Looking(s.pcs[t])
    ensures var (pc, holder) := Looked(s, t); WorkerStep(s, t, ch) == SetPc(s, t, pc).(holder := holder)
  {
  }

  lemma LookedLock(s: State, t: nat)
    requires t < |s.pcs| && Looking(s.pcs[t]) && (s.holder == Worker(t) <==> Locked(s.pcs[t]))
    ensures var (pc, holder) := Looked(s, t);
            && (|| holder == s.holder
                || (s.holder.Free? && holder == Worker(t)) || (s.holder == Worker(t) && holder.Free?))
            && (Locked(pc) <==> holder == Worker(t)) && !pc.Wrote? && !pc.Piping?
  {
  }

  lemma LookedKnows(s: State, t: nat)
    requires t < |s.pcs| && Looking(s.pcs[t]) && WorkerOK(s, t) && (s.sending == 0 ==> s.pipe == [])
    ensures var (pc, holder) := Looked(s, t); WorkerOK(SetPc(s, t, pc).(holder := holder), t)
  {
  }

  lemma PipeCounted(s: State)
    requires Core(s) && !s.closed
    ensures s.sending == 0 ==> s.pipe == []
  {
  }

  lemma LookingKeeps(s: State, t: nat, ch: Choice)
    requires Core(s) && !s.closed && t < |s.pcs| && Looking(s.pcs[t])
    ensures Core(WorkerStep(s, t, ch))
  {
    hide *;
    var (pc, holder) := Looked(s, t);
    WorkerHere(s, t);
    PipeCounted(s);
    LookStep(s, t, ch);
    LookedLock(s, t);
    LookedKnows(s, t);
    StillLooking(s.pcs[t]);
    LookKeeps(s, t, pc, holder);
  }

  lemma StillLooking(pc: Pc)
    requires Looking(pc)
    ensures !pc.Wrote? && !pc.Piping?
  {
  }

  lemma IncKeeps(s: State, t: nat, ch: Choice)
    requires Core(s) && !s.closed && t < |s.pcs| && s.pcs[t].Inc?
    ensures Core(WorkerStep(s, t, ch))
  {
    if s.sending < MAXSENDING {
      var s' := WorkerStep(s, t, ch);
      PipersUpdate(s.pcs, t, s'.pcs[t]);
      assert WorkerOK(s, t) && WorkerOK(s', t) && LockOK(s');
      hide WorkerOK;
      OthersKeep(s, s', t);
      SameDataKeeps(s, s');
    }
  }

  lemma PipingKeeps(s: State, t: nat, ch: Choice)
    requires Core(s) && !s.closed && t < |s.pcs| && s.pcs[t].Piping?
    ensures Core(WorkerStep(s, t, ch))
  {
    var s' := WorkerStep(s, t, ch);
    PipersUpdate(s.pcs, t, Idle);
    assert WorkerOK(s, t) && WorkerOK(s', t) && LockOK(s');
    hide WorkerOK;
    OthersKeep(s, s', t);
    SameDataKeeps(s, s');
  }

  /** A worker that is about to write directly finds only whole messages written. */
  lemma NothingHalf(s: State, t: nat)
    requires Core(s) && !s.closed && t < |s.pcs| && s.pcs[t].Write?
    ensures s.holder == Worker(t) && !SLocked(s.spc) && s.dw.Empty? && Front(s) == Empty && WorkerOK(s, t)
    ensures HighOK(s.high, true) && HighOK(s.high, false) && LowOK(s.low, false) && s.out == Flat(s.done) && SizeOK(s)
  {
    assert WorkerOK(s, t);
    NoneHalf(s);
  }

  lemma NoneHalf(s: State)
    requires HighOK(s.high, false) && Unwritten(s.high) && LowOK(s.low, false) && Front(s).Empty?
    ensures HighOK(s.high, true) && Part(Current(s)) == []
  {
  }

  /** The lists and the bytes after a direct write. */
  lemma WriteData(s: State, t: nat, ch: Choice)
    requires Core(s) && !s.closed && t < |s.pcs| && s.pcs[t].Write?
    ensures var s' := WorkerStep(s, t, ch); PartsOK(s') && OutOK(s') && SizeOK(s')
  {
    NothingHalf(s, t);
    hide Core, Sum, Flat, HighOK, LowOK, WorkerOK;
    if Accepted(ch, |s.pcs[t].m.data|) == |s.pcs[t].m.data| { WroteAll(s, t, ch); } else { WrotePart(s, t, ch); }
  }

  lemma WriteAllStep(s: State, t: nat, ch: Choice)
    requires t < |s.pcs| && s.pcs[t].Write? && Accepted(ch, |s.pcs[t].m.data|) == |s.pcs[t].m.data|
    ensures var m := s.pcs[t].m;
            WorkerStep(s, t, ch)
            == s.(out := s.out + m.data, sent := s.sent + [m], done := s.done + [m], holder := Free,
                pcs := s.pcs[t := Idle])
  {
    var m := s.pcs[t].m;
    assert m.data[..|m.data|] == m.data;
  }

  /** Only whole messages are written, and none is in front of the lists. */
  lemma AfterWhole(s: State, s': State)
    requires s'.holder.Free? && s'.dw.Empty? && s' ==
             s.(out := s'.out, sent := s'.sent, done := s'.done, holder := Free, pcs := s'.pcs)
    requires !SLocked(s.spc) && HighOK(s.high, false) && HighOK(s.high, true) && LowOK(s.low, false) && SizeOK(s)
    requires s'.out == Flat(s'.done)
    ensures PartsOK(s') && OutOK(s') && SizeOK(s')
  {
    hide Sum, Flat, HighOK, LowOK;
    assert Front(s') == Empty;
    Unhalf(s');
  }

  lemma WroteAll(s: State, t: nat, ch: Choice)
    requires t < |s.pcs| && s.pcs[t].Write? && Accepted(ch, |s.pcs[t].m.data|) == |s.pcs[t].m.data|
    requires !SLocked(s.spc) && s.dw.Empty? && HighOK(s.high, false) && HighOK(s.high, true) && LowOK(s.low, false)
    requires s.out == Flat(s.done) && SizeOK(s)
    ensures var s' := WorkerStep(s, t, ch); PartsOK(s') && OutOK(s') && SizeOK(s')
  {
    hide *;
    var m := s.pcs[t].m;
    var s' := s.(out := s.out + m.data, sent := s.sent + [m], done := s.done + [m], holder := Free,
        pcs := s.pcs[t := Idle]);
    WriteAllStep(s, t, ch);
    FlatBack(s.done, m);
    AfterWhole(s, s');
  }

  lemma WrotePart(s: State, t: nat, ch: Choice)
    requires t < |s.pcs| && s.pcs[t].Write? && Accepted(ch, |s.pcs[t].m.data|) != |s.pcs[t].m.data|
    requires s.holder == Worker(t) && !SLocked(s.spc) && s.dw.Empty? && HighOK(s.high, true) && LowOK(s.low, false)
    requires s.out == Flat(s.done) && SizeOK(s)
    ensures var s' := WorkerStep(s, t, ch); PartsOK(s') && OutOK(s') && SizeOK(s')
  {
    hide Sum, Flat, HighOK, LowOK;
    var m := s.pcs[t].m;
    var s' := WorkerStep(s, t, ch);
    assert Front(s') == Full(Buf(m, Accepted(ch, |m.data|)));
  }

  lemma Unhalf(s: State)
    requires HighOK(s.high, true) && LowOK(s.low, false) && Front(s).Empty?
    ensures Part(Current(s)) == []
  {
  }

  lemma WriteWorker(s: State, t: nat, ch: Choice)
    requires t < |s.pcs| && s.pcs[t].Write? && WorkerOK(s, t)
    ensures WorkerOK(WorkerStep(s, t, ch), t)
  {
  }

  lemma WriteLock(s: State, t: nat, ch: Choice)
    requires t < |s.pcs| && s.pcs[t].Write? && LockOK(s)
    ensures LockOK(WorkerStep(s, t, ch))
  {
    assert s.holder == Worker(t);
  }

  lemma WriteSending(s: State, t: nat, ch: Choice)
    requires t < |s.pcs| && s.pcs[t].Write? && SendingOK(s)
    ensures SendingOK(WorkerStep(s, t, ch))
  {
    PipersUpdate(s.pcs, t, WorkerStep(s, t, ch).pcs[t]);
  }

  lemma WriteKeeps(s: State, t: nat, ch: Choice)
    requires Core(s) && !s.closed && t < |s.pcs| && s.pcs[t].Write?
    ensures Core(WorkerStep(s, t, ch))
  {
    assert WorkerOK(s, t) && s.holder == Worker(t);
    WriteData(s, t, ch);
    WriteLock(s, t, ch);
    WriteWorker(s, t, ch);
    WriteSending(s, t, ch);
    WriteOthers(s, t, ch);
    hide OutOK, PartsOK, SizeOK, WorkersOK, LockOK, SendingOK;
  }

  lemma WriteOthers(s: State, t: nat, ch: Choice)
    requires t < |s.pcs| && s.pcs[t].Write? && WorkersOK(s) && LockOK(s) && WorkerOK(WorkerStep(s, t, ch), t)
    ensures WorkersOK(WorkerStep(s, t, ch))
  {
    hide WorkerOK;
    OthersKeep(s, WorkerStep(s, t, ch), t);
  }

  lemma WroteKeeps(s: State, t: nat, ch: Choice)
    requires Core(s) && !s.closed && t < |s.pcs| && s.pcs[t].Wrote?
    ensures Core(WorkerStep(s, t, ch))
  {
    var s' := WorkerStep(s, t, ch);
    PipersUpdate(s.pcs, t, s'.pcs[t]);
    assert WorkerOK(s, t) && WorkerOK(s', t) && LockOK(s');
    assert Front(s') == Front(s) == Full(s.pcs[t].b);
    assert PartsOK(s') && Current(s') == Current(s);
    hide WorkerOK;
    OthersKeep(s, s', t);
  }

  // ---------- Steps of the socket thread keep it ----------

  /** A step of the socket thread that leaves the pipe alone: what workers know stays true. */
  lemma WorkersKeep(s: State, s': State)
    requires WorkersOK(s) && LockOK(s) && s'.pcs == s.pcs && s'.pipe == s.pipe
    requires (s'.high == s.high && s'.dw == s.dw) || !s.holder.Worker?
    ensures WorkersOK(s')
  {
    forall u | 0 <= u < |s.pcs| ensures WorkerOK(s', u) { assert WorkerOK(s, u); }
  }

  /** Only the socket thread's place, the lock or the counter changes. */
  lemma MoveKeeps(s: State, s': State)
    requires Core(s) && !s.closed && LockOK(s') && SendingOK(s') && PartsOK(s')
    requires s' == s.(spc := s'.spc, holder := s'.holder, sending := s'.sending) && Front(s') == Front(s)
    ensures Core(s')
  {
    assert Current(s') == Current(s);
    hide WorkerOK;
    forall u | 0 <= u < |s.pcs| ensures WorkerOK(s', u) { WorkerSame(s, s', u); }
  }

  lemma WorkerSame(s: State, s': State, u: nat)
    requires u < |s.pcs| && WorkerOK(s, u) && s'.pcs == s.pcs && s'.pipe == s.pipe && s'.high == s.high && s'.dw == s.dw
    ensures WorkerOK(s', u)
  {
  }

  lemma SDecKeeps(s: State, ch: Choice)
    requires Core(s) && !s.closed && s.spc.SDec?
    ensures Fits(s) && Core(SocketStep(s, ch))
  {
    var s' := SocketStep(s, ch);
    assert LockOK(s') && SendingOK(s') && PartsOK(s');
    MoveKeeps(s, s');
  }

  lemma SDoneKeeps(s: State, ch: Choice)
    requires Core(s) && !s.closed && s.spc.SDone?
    ensures Fits(s) && Core(SocketStep(s, ch))
  {
    var s' := SocketStep(s, ch);
    assert LockOK(s') && SendingOK(s') && PartsOK(s');
    MoveKeeps(s, s');
  }

  /** The low message that is written in part becomes the whole high list. */
  lemma RaiseData(s: State)
    requires PartsOK(s) && SizeOK(s) && OutOK(s) && LockOK(s) && s.spc.SCheck? && s.low != [] && s.low[0].off != 0
    ensures s.high == [] && Front(s) == Empty
    ensures var s' := Leave(s.(high := [s.low[0]], low := s.low[1..]));
            PartsOK(s') && SizeOK(s') && Current(s') == Current(s)
  {
    var s' := Leave(s.(high := [s.low[0]], low := s.low[1..]));
    var b := s.low[0];
    assert s.low == [b] + s'.low;
    SumFront(b, s'.low);
    assert s'.high == [] + [b];
    SumBack([], b);
    LowTail(s.low, true);
    assert Front(s) == Front(s') == Empty;
    assert HighOK([b], false);
    hide HighOK, LowOK, Sum, Front, LockOK;
  }

  lemma SCheckThreads(s: State, s': State)
    requires Core(s) && !s.closed && s.spc.SCheck? && s'.pcs == s.pcs && s'.pipe == s.pipe && s'.sending == s.sending
    requires s'.spc.SIdle? && s'.holder.Free?
    ensures LockOK(s') && SendingOK(s') && WorkersOK(s')
  {
    assert s.holder == SocketThread;
    assert LockOK(s') && SendingOK(s');
    hide PartsOK, OutOK, SizeOK;
    WorkersKeep(s, s');
  }

  lemma SCheckKeeps(s: State, ch: Choice)
    requires Core(s) && !s.closed && s.spc.SCheck?
    ensures Fits(s) && Core(SocketStep(s, ch))
  {
    var s' := SocketStep(s, ch);
    FitsNow(s);
    SCheckThreads(s, s');
    if s.low != [] && s.low[0].off != 0 {
      RaiseData(s);
      hide PartsOK, WorkersOK, SendingOK, LockOK, SizeOK, Current, Flat;
    } else {
      NothingRaised(s);
      hide PartsOK, WorkersOK, SendingOK, LockOK, SizeOK, OutOK, Current, Flat;
      MoveKeeps(s, s');
    }
  }

  lemma NothingRaised(s: State)
    requires PartsOK(s) && LockOK(s) && s.spc.SCheck? && (s.low == [] || s.low[0].off == 0)
    ensures PartsOK(Leave(s)) && Front(Leave(s)) == Front(s) == Empty
  {
  }

  lemma ReadPipeWorkers(s: State)
    requires WorkersOK(s) && s.pipe != []
    ensures WorkersOK(Append(s).(spc := SDec))
  {
    var s' := Append(s).(spc := SDec);
    forall u | 0 <= u < |s.pcs| ensures WorkerOK(s', u) {
      assert WorkerOK(s, u);
      assert s.pipe[0].thread == u && s.pipe[0].prio == High ==> !PastSending(s.pcs[u]);
    }
  }

  lemma ReadPipeParts(s: State)
    requires PartsOK(s) && s.pipe != [] && s.spc.SIdle?
    ensures PartsOK(Append(s).(spc := SDec))
  {
    var m := s.pipe[0];
    assert Front(Append(s).(spc := SDec)) == Front(s);
    HighBack(s.high, Front(s).Full?, m);
    if m.prio == Low { LowBack(s.low, false, m); }
    hide HighOK, LowOK, Front;
  }

  lemma ReadPipeSize(s: State)
    requires SizeOK(s) && s.pipe != []
    ensures SizeOK(Append(s).(spc := SDec))
  {
    SumBack(s.high, Buf(s.pipe[0], 0));
    SumBack(s.low, Buf(s.pipe[0], 0));
    hide Sum;
  }

  /** A message put into a list behind others, or into an empty high list, adds no part. */
  lemma AppendCurrent(s: State)
    requires PartsOK(s) && s.pipe != [] && s.spc.SIdle?
    ensures Part(Current(Append(s).(spc := SDec))) == Part(Current(s))
  {
    var s' := Append(s).(spc := SDec);
    assert Front(s') == Front(s);
  }

  lemma ReadPipeThreads(s: State)
    requires LockOK(s) && SendingOK(s) && s.pipe != [] && s.spc.SIdle?
    ensures LockOK(Append(s).(spc := SDec)) && SendingOK(Append(s).(spc := SDec))
  {
  }

  lemma ReadPipeKeeps(s: State, ch: Choice)
    requires Core(s) && !s.closed && s.spc.SIdle? && ch.ReadPipe? && s.pipe != []
    ensures Fits(s) && Core(SocketStep(s, ch))
  {
    ReadPipeThreads(s);
    ReadPipeWorkers(s);
    ReadPipeParts(s);
    ReadPipeSize(s);
    AppendCurrent(s);
    hide PartsOK, WorkersOK, SizeOK, LockOK, SendingOK, Current, Part, Flat;
    assert Fits(s) by { FitsNow(s); }
  }

  lemma FitsNow(s: State)
    requires PartsOK(s)
    ensures Fits(s)
  {
  }

  lemma WritableKeeps(s: State, ch: Choice)
    requires Core(s) && !s.closed && s.spc.SIdle? && ch.Writable? && s.holder.Free?
    ensures Fits(s) && Core(SocketStep(s, ch))
  {
    var s' := SocketStep(s, ch);
    if s.dw.Full? { SumFront(s.dw.b, s.high); }
    assert LockOK(s') && SendingOK(s') && SizeOK(s') && PartsOK(s');
    WorkersKeep(s, s');
    assert Front(s) == s.dw && Front(s') == Empty;
    assert OutOK(s');
  }

  lemma SliceMore(d: seq<Byte>, i: nat, n: nat)
    requires i + n <= |d|
    ensures d[..i] + d[i..i + n] == d[..i + n]
  {
  }

  lemma Regroup(a: seq<Byte>, b: seq<Byte>, c: seq<Byte>)
    ensures (a + b) + c == a + (b + c)
  {
  }

  /** Writing more of the first message of a list, up to its end or not. */
  lemma MoreOut(done: seq<Msg>, b: Buf, n: nat)
    requires b.off + n <= |b.m.data|
    ensures (Flat(done) + b.m.data[..b.off]) + Bytes(b, n) == Flat(done) + b.m.data[..b.off + n]
    ensures n == Rest(b) ==> (Flat(done) + b.m.data[..b.off]) + Bytes(b, n) == Flat(done + [b.m])
  {
    FlatBack(done, b.m);
    hide Flat;
    SliceMore(b.m.data, b.off, n);
    Regroup(Flat(done), b.m.data[..b.off], Bytes(b, n));
    if n == Rest(b) { assert b.m.data[..b.off + n] == b.m.data; }
  }

  lemma SHighParts(s: State, ch: Choice)
    requires s.spc.SHigh? && s.high != [] && !ch.WouldBlock? && !ch.Error? && PartsOK(s) && LockOK(s)
    ensures Fits(s) && PartsOK(SocketStep(s, ch))
  {
    HighTail(s.high, false);
    assert Front(s) == Empty && Front(SocketStep(s, ch)) == Empty;
    hide HighOK, LowOK, LockOK, Front;
    var b := s.high[0];
    var n := Accepted(ch, Rest(b));
    if n == Rest(b) {
      HighTail(s.high, false);
      HighLess(s.high[1..]);
    } else {
      HighHead(s.high, false, b.off + n);
    }
  }

  /** What the socket thread does with the first message of the high list. */
  lemma SHighStep(s: State, ch: Choice)
    requires s.spc.SHigh? && s.high != [] && !ch.WouldBlock? && !ch.Error? && Fits(s)
    ensures var b := s.high[0];
            var n := Accepted(ch, Rest(b));
            var s' := SocketStep(s, ch);
            && s'.out == s.out + Bytes(b, n) && s'.wbSize == s.wbSize - n && s'.low == s.low && s'.dw == s.dw
            && s'.pcs == s.pcs && s'.holder == (if n == Rest(b) then s.holder else Free)
            && s'.high == (if n == Rest(b) then s.high[1..] else s.high[0 := Buf(b.m, b.off + n)])
            && s'.done == (if n == Rest(b) then s.done + [b.m] else s.done)
  {
  }

  lemma FitsHigh(s: State)
    requires s.spc.SHigh? && s.high != [] && PartsOK(s)
    ensures Fits(s) && s.high[0].off <= |s.high[0].m.data| && s.dw.Empty?
  {
  }

  lemma SHighSize(s: State, ch: Choice)
    requires s.spc.SHigh? && s.high != [] && !ch.WouldBlock? && !ch.Error? && PartsOK(s) && LockOK(s) && SizeOK(s)
    ensures Fits(s) && SizeOK(SocketStep(s, ch))
  {
    FitsHigh(s);
    SHighStep(s, ch);
    hide PartsOK, LockOK, Sum, SocketStep, Fits;
    SumFirst(s.high, Accepted(ch, Rest(s.high[0])));
  }

  lemma SHighFront(s: State, ch: Choice)
    requires s.spc.SHigh? && s.high != [] && !ch.WouldBlock? && !ch.Error? && PartsOK(s) && LockOK(s) && Fits(s)
    ensures Front(s) == Empty && Front(SocketStep(s, ch)) == Empty
  {
    SHighStep(s, ch);
    hide SocketStep, HighOK, LowOK;
  }

  lemma SHighOut(s: State, ch: Choice)
    requires s.spc.SHigh? && s.high != [] && !ch.WouldBlock? && !ch.Error? && PartsOK(s) && LockOK(s) && OutOK(s)
    ensures Fits(s) && OutOK(SocketStep(s, ch))
  {
    FitsHigh(s);
    SHighStep(s, ch);
    HighTail(s.high, false);
    SHighFront(s, ch);
    var s' := SocketStep(s, ch);
    var b := s.high[0];
    var n := Accepted(ch, Rest(b));
    MoreOut(s.done, b, n);
    if n == Rest(b) { Unhalf(s'); }
    hide HighOK, LowOK, LockOK, Flat, Front, SocketStep, Fits, PartsOK;
  }

  lemma SHighKeeps(s: State, ch: Choice)
    requires Core(s) && !s.closed && s.spc.SHigh?
    ensures Fits(s) && Core(SocketStep(s, ch))
  {
    FitsNow(s);
    if s.high == [] || ch.WouldBlock? {
      SHighLeaves(s, ch);
    } else if !ch.Error? {
      SHighParts(s, ch);
      SHighSize(s, ch);
      SHighOut(s, ch);
      SHighThreads(s, ch);
      hide PartsOK, SizeOK, OutOK, LockOK, SendingOK, WorkersOK;
    }
  }

  lemma SHighThreads(s: State, ch: Choice)
    requires Core(s) && !s.closed && s.spc.SHigh? && s.high != [] && !ch.WouldBlock? && !ch.Error?
    ensures Fits(s) && LockOK(SocketStep(s, ch)) && SendingOK(SocketStep(s, ch)) && WorkersOK(SocketStep(s, ch))
  {
    FitsNow(s);
    assert s.holder == SocketThread;
    hide PartsOK, SizeOK, OutOK, WorkerOK;
    WorkersKeep(s, SocketStep(s, ch));
  }

  lemma SHighLeaves(s: State, ch: Choice)
    requires Core(s) && !s.closed && s.spc.SHigh? && (s.high == [] || ch.WouldBlock?)
    ensures Fits(s) && Core(SocketStep(s, ch))
  {
    FitsNow(s);
    assert s.holder == SocketThread && s.dw.Empty?;
    SHighLeavesParts(s, ch);
    SHighLeavesThreads(s, ch);
    hide PartsOK, LockOK, SendingOK, WorkersOK, SizeOK, OutOK;
    MoveKeeps(s, SocketStep(s, ch));
  }

  lemma SHighLeavesParts(s: State, ch: Choice)
    requires PartsOK(s) && LockOK(s) && s.spc.SHigh? && (s.high == [] || ch.WouldBlock?)
    ensures Fits(s) && PartsOK(SocketStep(s, ch)) && Front(s) == Front(SocketStep(s, ch)) == Empty
  {
    FitsNow(s);
    LowCheck(s.low);
    assert Front(s) == Empty && Front(SocketStep(s, ch)) == Empty;
    hide HighOK, LowOK, LockOK, Front;
  }

  lemma SHighLeavesThreads(s: State, ch: Choice)
    requires PartsOK(s) && LockOK(s) && SendingOK(s) && s.spc.SHigh? && (s.high == [] || ch.WouldBlock?)
    ensures Fits(s) && LockOK(SocketStep(s, ch)) && SendingOK(SocketStep(s, ch))
  {
    FitsNow(s);
    hide PartsOK;
  }

  /** The sum after writing more of the first message. */
  lemma SumFirst(l: seq<Buf>, n: nat)
    requires l != [] && n <= Rest(l[0])
    ensures Sum(l[1..]) == Sum(l) - Rest(l[0]) && Sum(l[0 := Buf(l[0].m, l[0].off + n)]) == Sum(l) - n
  {
    assert l == [l[0]] + l[1..];
    SumFront(l[0], l[1..]);
    var b := Buf(l[0].m, l[0].off + n);
    assert l[0 := b] == [b] + l[1..];
    SumFront(b, l[1..]);
  }

  lemma LowCheck(l: seq<Buf>)
    ensures LowOK(l, false) ==> LowOK(l, true)
  {
  }

  lemma NothingHigh(l: seq<Buf>)
    ensures l == [] ==> HighOK(l, true)
  {
  }

  lemma SLowParts(s: State, ch: Choice)
    requires s.spc.SLow? && s.low != [] && !ch.WouldBlock? && !ch.Error? && PartsOK(s) && LockOK(s)
    ensures Fits(s) && PartsOK(SocketStep(s, ch))
  {
    LowTail(s.low, false);
    assert Front(s) == Empty && Front(SocketStep(s, ch)) == Empty;
    hide HighOK, LowOK, LockOK, Front;
    var b := s.low[0];
    var n := Accepted(ch, Rest(b));
    if n == Rest(b) {
      LowTail(s.low, false);
    } else {
      LowHead(s.low, false, b.off + n);
    }
  }

  lemma SLowSize(s: State, ch: Choice)
    requires s.spc.SLow? && s.low != [] && !ch.WouldBlock? && !ch.Error? && PartsOK(s) && LockOK(s) && SizeOK(s)
    ensures Fits(s) && SizeOK(SocketStep(s, ch))
  {
    LowTail(s.low, false);
    hide HighOK, LowOK, LockOK, Sum;
    SumFirst(s.low, Accepted(ch, Rest(s.low[0])));
  }

  lemma SLowOut(s: State, ch: Choice)
    requires s.spc.SLow? && s.low != [] && !ch.WouldBlock? && !ch.Error? && PartsOK(s) && LockOK(s) && OutOK(s)
    ensures Fits(s) && OutOK(SocketStep(s, ch))
  {
    LowTail(s.low, false);
    assert Front(s) == Empty && Front(SocketStep(s, ch)) == Empty;
    var s' := SocketStep(s, ch);
    var b := s.low[0];
    var n := Accepted(ch, Rest(b));
    MoreOut(s.done, b, n);
    if n == Rest(b) {
      NothingHigh(s.high);
      Unhalf(s');
    }
    hide HighOK, LowOK, LockOK, Flat, Front;
  }

  lemma SLowKeeps(s: State, ch: Choice)
    requires Core(s) && !s.closed && s.spc.SLow?
    ensures Fits(s) && Core(SocketStep(s, ch))
  {
    FitsNow(s);
    if s.low == [] || ch.WouldBlock? {
      SLowLeaves(s, ch);
    } else if !ch.Error? {
      SLowParts(s, ch);
      SLowSize(s, ch);
      SLowOut(s, ch);
      SLowThreads(s, ch);
      hide PartsOK, SizeOK, OutOK, LockOK, SendingOK, WorkersOK;
    }
  }

  lemma SLowThreads(s: State, ch: Choice)
    requires Core(s) && !s.closed && s.spc.SLow? && s.low != [] && !ch.WouldBlock? && !ch.Error?
    ensures Fits(s) && LockOK(SocketStep(s, ch)) && SendingOK(SocketStep(s, ch)) && WorkersOK(SocketStep(s, ch))
  {
    FitsNow(s);
    assert s.holder == SocketThread;
    hide PartsOK, SizeOK, OutOK, WorkerOK;
    WorkersKeep(s, SocketStep(s, ch));
  }

  lemma SLowLeaves(s: State, ch: Choice)
    requires Core(s) && !s.closed && s.spc.SLow? && (s.low == [] || ch.WouldBlock?)
    ensures Fits(s) && Core(SocketStep(s, ch))
  {
    FitsNow(s);
    assert s.holder == SocketThread && s.dw.Empty?;
    SLowLeavesParts(s, ch);
    SLowLeavesThreads(s, ch);
    hide PartsOK, LockOK, SendingOK, WorkersOK, SizeOK, OutOK;
    MoveKeeps(s, SocketStep(s, ch));
  }

  lemma SLowLeavesParts(s: State, ch: Choice)
    requires PartsOK(s) && LockOK(s) && s.spc.SLow? && (s.low == [] || ch.WouldBlock?)
    ensures Fits(s) && PartsOK(SocketStep(s, ch)) && Front(s) == Front(SocketStep(s, ch)) == Empty
  {
    FitsNow(s);
    LowCheck(s.low);
    assert Front(s) == Empty && Front(SocketStep(s, ch)) == Empty;
    hide HighOK, LowOK, LockOK, Front;
  }

  lemma SLowLeavesThreads(s: State, ch: Choice)
    requires PartsOK(s) && LockOK(s) && SendingOK(s) && s.spc.SLow? && (s.low == [] || ch.WouldBlock?)
    ensures Fits(s) && LockOK(SocketStep(s, ch)) && SendingOK(SocketStep(s, ch))
  {
    FitsNow(s);
    hide PartsOK;
  }

  // ---------- Order ----------

  /** The line and what was sent after a step of a worker. */
  lemma WorkerOrder(s: State, t: nat, ch: Choice, w: nat, p: Priority)
    requires Core(s) && OrderOK(s) && !s.closed && t < |s.pcs|
    ensures var s' := WorkerStep(s, t, ch); Mine(Line(s'), w, p) == Mine(s'.sent, w, p)
  {
    hide *;
    OrderIs(s, w, p);
    if s.pcs[t].Write? {
      WriteOrder(s, t, ch, w, p);
    } else {
      FrontKept(s, t, ch);
      if s.pcs[t].Piping? {
        var m := s.pcs[t].m;
        PipedAtEnd(s, t, ch);
        MineConcat(Line(s), [m], w, p);
        MineConcat(s.sent, [m], w, p);
      } else {
        NotSent(s, t, ch);
      }
    }
  }

  lemma OrderIs(s: State, w: nat, p: Priority)
    requires OrderOK(s)
    ensures Mine(Line(s), w, p) == Mine(s.sent, w, p)
  {
    hide Line, Mine;
  }

  lemma PipedAtEnd(s: State, t: nat, ch: Choice)
    requires t < |s.pcs| && s.pcs[t].Piping? && Front(WorkerStep(s, t, ch)) == Front(s)
    ensures var s' := WorkerStep(s, t, ch); var m := s.pcs[t].m; Line(s') == Line(s) + [m] && s'.sent == s.sent + [m]
  {
    hide Front, Msgs, Single;
  }

  lemma NotSent(s: State, t: nat, ch: Choice)
    requires t < |s.pcs| && !s.pcs[t].Write? && !s.pcs[t].Piping? && Front(WorkerStep(s, t, ch)) == Front(s)
    ensures var s' := WorkerStep(s, t, ch); Line(s') == Line(s) && s'.sent == s.sent
  {
    hide Front;
  }

  lemma FrontKept(s: State, t: nat, ch: Choice)
    requires Core(s) && !s.closed && t < |s.pcs| && !s.pcs[t].Write?
    ensures Front(WorkerStep(s, t, ch)) == Front(s)
  {
    WorkerHere(s, t);
    hide Core, WorkerOK;
    if Looking(s.pcs[t]) {
      LookStep(s, t, ch);
      hide WorkerStep;
      LookedFront(s, t);
    }
  }

  lemma LookedFront(s: State, t: nat)
    requires t < |s.pcs| && Looking(s.pcs[t]) && (s.holder == Worker(t) <==> Locked(s.pcs[t]))
    ensures var (pc, holder) := Looked(s, t); Front(SetPc(s, t, pc).(holder := holder)) == Front(s)
  {
  }

  /** A direct write: the message overtakes only what other threads sent, and low messages. */
  lemma WriteOrder(s: State, t: nat, ch: Choice, w: nat, p: Priority)
    requires Core(s) && OrderOK(s) && !s.closed && t < |s.pcs| && s.pcs[t].Write?
    ensures var s' := WorkerStep(s, t, ch); Mine(Line(s'), w, p) == Mine(s'.sent, w, p)
  {
    var m := s.pcs[t].m;
    NothingHalf(s, t);
    WriteLine(s, t, ch);
    NonePending(s, t);
    assert Mine(Line(s), w, p) == Mine(s.sent, w, p);
    assert Mine([m], w, p) == if w == t && p == High then [m] else [];
    assert Mine(Single(Front(s)), w, p) == [];
    hide Mine, Line, WorkerStep, Core, OrderOK, Front, Single;
    MineLine(s, w, p);
    Five(s.done, [m], Msgs(s.high), Msgs(s.low), s.pipe, w, p);
    MineConcat(s.sent, [m], w, p);
    Overtake(Mine(s.done, w, p), Mine([m], w, p), Mine(Msgs(s.high), w, p), Mine(Msgs(s.low), w, p), Mine(s.pipe,
        w, p));
  }

  lemma Overtake(a: seq<Msg>, x: seq<Msg>, c: seq<Msg>, d: seq<Msg>, e: seq<Msg>)
    requires x == [] || c == d == e == []
    ensures a + x + c + d + e == (a + [] + c + d + e) + x
  {
  }

  lemma Five(a: seq<Msg>, b: seq<Msg>, c: seq<Msg>, d: seq<Msg>, e: seq<Msg>, w: nat, p: Priority)
    ensures Mine(a + b + c + d + e, w, p) == Mine(a, w, p) + Mine(b, w, p) + Mine(c, w, p) + Mine(d, w,
            p) + Mine(e, w, p)
  {
    hide Mine;
    MineConcat(a + b + c + d, e, w, p);
    MineConcat(a + b + c, d, w, p);
    MineConcat(a + b, c, w, p);
    MineConcat(a, b, w, p);
  }

  lemma WriteLine(s: State, t: nat, ch: Choice)
    requires t < |s.pcs| && s.pcs[t].Write? && s.holder == Worker(t) && s.dw.Empty?
    ensures var s' := WorkerStep(s, t, ch);
            && Line(s') == s.done + [s.pcs[t].m] + Msgs(s.high) + Msgs(s.low) + s.pipe
            && s'.sent == s.sent + [s.pcs[t].m]
  {
  }

  /** The writer has no other high message on its way. */
  lemma NonePending(s: State, t: nat)
    requires t < |s.pcs| && s.pcs[t].Write? && WorkerOK(s, t) && LowOK(s.low, false)
    ensures Mine(Msgs(s.high), t, High) == [] && Mine(Msgs(s.low), t, High) == [] && Mine(s.pipe, t, High) == []
    ensures s.pcs[t].m.thread == t && s.pcs[t].m.prio == High
  {
    MineNone(Msgs(s.high), t, High);
    MineNone(Msgs(s.low), t, High);
    MineNone(s.pipe, t, High);
  }

  /** No step of the socket thread changes the line, but for high requests passing low messages. */
  lemma SocketOrder(s: State, ch: Choice, w: nat, p: Priority)
    requires Core(s) && OrderOK(s) && !s.closed && Fits(s)
    ensures var s' := SocketStep(s, ch); s'.closed || Mine(Line(s'), w, p) == Mine(s'.sent, w, p)
  {
    var s' := SocketStep(s, ch);
    assert Mine(Line(s), w, p) == Mine(s.sent, w, p);
    if s.spc.SIdle? && ch.ReadPipe? && s.pipe != [] { ReadPipeOrder(s, w, p); }
    else { LineKept(s, ch); }
  }

  lemma LineKept(s: State, ch: Choice)
    requires Core(s) && !s.closed && Fits(s) && !(s.spc.SIdle? && ch.ReadPipe? && s.pipe != [])
    ensures var s' := SocketStep(s, ch); s'.closed || (Line(s') == Line(s) && s'.sent == s.sent)
  {
    hide WorkersOK, SendingOK, SizeOK, OutOK, Mine;
    match s.spc
    case SIdle => if ch.Writable? && s.holder.Free? { LineWritable(s); }
    case SHigh => if s.high != [] && !ch.Error? && !ch.WouldBlock? { LineHigh(s, ch); } else { LineMoved(s, ch); }
    case SLow => if s.low != [] && !ch.Error? && !ch.WouldBlock? { LineLow(s, ch); } else { LineMoved(s, ch); }
    case SCheck => LineCheck(s);
    case _ => LineMoved(s, ch);
  }

  /** Only the socket thread's own place changes. */
  lemma LineMoved(s: State, ch: Choice)
    requires LockOK(s) && PartsOK(s) && Fits(s) && !s.spc.SIdle? && !s.spc.SCheck?
    requires s.spc.SHigh? ==> s.high == [] || ch.Error? || ch.WouldBlock?
    requires s.spc.SLow? ==> s.low == [] || ch.Error? || ch.WouldBlock?
    ensures var s' := SocketStep(s, ch); s'.closed || (Line(s') == Line(s) && s'.sent == s.sent)
  {
    hide HighOK, LowOK;
    assert s.closed || SocketStep(s, ch).closed || Front(SocketStep(s, ch)) == Front(s);
  }

  lemma LineWritable(s: State)
    requires LockOK(s) && s.spc.SIdle? && s.holder.Free? && Fits(s)
    ensures Line(SocketStep(s, Writable)) == Line(s) && SocketStep(s, Writable).sent == s.sent
  {
    var s' := SocketStep(s, Writable);
    assert Front(s) == s.dw && Front(s') == Empty;
    if s.dw.Full? { assert Msgs([s.dw.b] + s.high) == [s.dw.b.m] + Msgs(s.high); }
  }

  lemma HeadMsgs(l: seq<Buf>, n: nat)
    requires l != []
    ensures Msgs(l) == [l[0].m] + Msgs(l[1..]) && Msgs(l[0 := Buf(l[0].m, l[0].off + n)]) == Msgs(l)
  {
  }

  lemma NextHigh(d: seq<Msg>, m: Msg, h: seq<Msg>, l: seq<Msg>, p: seq<Msg>)
    ensures d + [] + ([m] + h) + l + p == (d + [m]) + [] + h + l + p
  {
  }

  lemma NextLow(d: seq<Msg>, m: Msg, l: seq<Msg>, p: seq<Msg>)
    ensures forall h: seq<Msg> | h == [] :: d + [] + h + ([m] + l) + p == (d + [m]) + [] + h + l + p
  {
    assert d + [] + [] + ([m] + l) + p == (d + [m]) + [] + [] + l + p;
  }

  lemma LineHigh(s: State, ch: Choice)
    requires LockOK(s) && PartsOK(s) && Fits(s) && s.spc.SHigh? && s.high != [] && !ch.Error? && !ch.WouldBlock?
    ensures Line(SocketStep(s, ch)) == Line(s) && SocketStep(s, ch).sent == s.sent
  {
    assert Front(s) == Empty && Front(SocketStep(s, ch)) == Empty;
    var b := s.high[0];
    HeadMsgs(s.high, Accepted(ch, Rest(b)));
    hide PartsOK, LockOK, Front, Msgs;
    NextHigh(s.done, b.m, Msgs(s.high[1..]), Msgs(s.low), s.pipe);
  }

  lemma LineLow(s: State, ch: Choice)
    requires LockOK(s) && PartsOK(s) && Fits(s) && s.spc.SLow? && s.low != [] && !ch.Error? && !ch.WouldBlock?
    ensures Line(SocketStep(s, ch)) == Line(s) && SocketStep(s, ch).sent == s.sent
  {
    assert Front(s) == Empty && Front(SocketStep(s, ch)) == Empty;
    var b := s.low[0];
    HeadMsgs(s.low, Accepted(ch, Rest(b)));
    hide PartsOK, LockOK, Front, Msgs;
    NextLow(s.done, b.m, Msgs(s.low[1..]), s.pipe);
  }

  lemma LineCheck(s: State)
    requires LockOK(s) && PartsOK(s) && Fits(s) && s.spc.SCheck?
    ensures Line(SocketStep(s, Nothing)) == Line(s) && SocketStep(s, Nothing).sent == s.sent
    ensures forall ch :: SocketStep(s, ch) == SocketStep(s, Nothing)
  {
    hide HighOK, LowOK;
    var s' := SocketStep(s, Nothing);
    assert Front(s) == Empty && Front(s') == Empty;
    if s.low != [] && s.low[0].off != 0 {
      assert Msgs(s.low) == [s.low[0].m] + Msgs(s.low[1..]);
      assert Msgs([s.low[0]]) == [s.low[0].m];
    }
  }

  lemma ReadPipeOrder(s: State, w: nat, p: Priority)
    requires PartsOK(s) && s.pipe != [] && s.spc.SIdle?
    ensures Mine(Line(Append(s).(spc := SDec)), w, p) == Mine(Line(s), w, p)
  {
    var s' := Append(s).(spc := SDec);
    var m := s.pipe[0];
    assert s.pipe == [m] + s.pipe[1..];
    assert Front(s') == Front(s);
    if p == High { MineNone(Msgs(s.low), w, p); }
    if m.prio == High && p == Low { MineNone([m], w, p); }
    if s.low == [] { MineNone(Msgs(s.low), w, p); }
    hide PartsOK, Mine, Front, Single;
    MineConcat([m], s.pipe[1..], w, p);
    BackMsgs(s.high, m, w, p);
    BackMsgs(s.low, m, w, p);
    MineLine(s, w, p);
    MineLine(s', w, p);
    hide Msgs, Line;
    var f := Mine(s.done, w, p) + Mine(Single(Front(s)), w, p);
    PassLow(f, Mine(Msgs(s.high), w, p), Mine(Msgs(s.low), w, p), Mine([m], w, p), Mine(s.pipe[1..], w, p));
  }

  lemma BackMsgs(l: seq<Buf>, m: Msg, w: nat, p: Priority)
    ensures Mine(Msgs(l + [Buf(m, 0)]), w, p) == Mine(Msgs(l), w, p) + Mine([m], w, p)
  {
    assert Msgs(l + [Buf(m, 0)]) == Msgs(l) + [m];
    MineConcat(Msgs(l), [m], w, p);
  }

  /** A request moves to the end of the low list, or of the high list when one of the two is of no concern. */
  lemma PassLow(f: seq<Msg>, h: seq<Msg>, l: seq<Msg>, x: seq<Msg>, r: seq<Msg>)
    ensures f + h + l + (x + r) == f + h + (l + x) + r
    ensures l == [] || x == [] ==> f + h + l + (x + r) == f + (h + x) + l + r
  {
  }

  // ---------- Whole runs ----------

  /**
   * A step of worker `t`, or of the socket thread when there is no such worker. After a failed write nothing happens.
   */
  ghost function Step(s: State, t: nat, ch: Choice): State
    requires Inv(s)
  {
    if s.closed then s
    else if t < |s.pcs| then WorkerStep(s, t, ch)
    else FitsNow(s); SocketStep(s, ch)
  }

  lemma StepKeeps(s: State, t: nat, ch: Choice)
    requires Inv(s)
    ensures Inv(Step(s, t, ch)) && |Step(s, t, ch).pcs| == |s.pcs|
  {
    if !s.closed {
      if t < |s.pcs| {
        WorkerKeeps(s, t, ch);
        forall w, p ensures Mine(Line(Step(s, t, ch)), w, p) ==
            Mine(Step(s, t, ch).sent, w, p) { WorkerOrder(s, t, ch, w, p); }
      } else {
        FitsNow(s);
        SocketKeeps(s, ch);
        forall w, p | !Step(s, t, ch).closed ensures Mine(Line(Step(s, t, ch)), w, p) ==
            Mine(Step(s, t, ch).sent, w, p) {
          SocketOrder(s, ch, w, p);
        }
      }
      hide Core, Mine, Line;
    }
  }

  lemma WorkerKeeps(s: State, t: nat, ch: Choice)
    requires Core(s) && !s.closed && t < |s.pcs|
    ensures Core(WorkerStep(s, t, ch)) && |WorkerStep(s, t, ch).pcs| == |s.pcs|
  {
    hide Core;
    match s.pcs[t]
    case Idle => IdleKeeps(s, t, ch);
    case Write(_) => WriteKeeps(s, t, ch);
    case Wrote(_) => WroteKeeps(s, t, ch);
    case Inc(_) => IncKeeps(s, t, ch);
    case Piping(_) => PipingKeeps(s, t, ch);
    case _ => LookingKeeps(s, t, ch);
  }

  lemma SocketPcs(s: State, ch: Choice)
    requires Fits(s)
    ensures SocketStep(s, ch).pcs == s.pcs
  {
  }

  lemma IdleSocketKeeps(s: State, ch: Choice)
    requires Core(s) && !s.closed && s.spc.SIdle? && Fits(s)
    ensures Core(SocketStep(s, ch))
  {
    hide Core, Fits;
    if ch.ReadPipe? && s.pipe != [] { ReadPipeKeeps(s, ch); }
    else if ch.Writable? && s.holder.Free? { WritableKeeps(s, ch); }
  }

  lemma SocketKeeps(s: State, ch: Choice)
    requires Core(s) && !s.closed
    ensures Fits(s) && Core(SocketStep(s, ch)) && SocketStep(s, ch).pcs == s.pcs
  {
    FitsNow(s);
    SocketPcs(s, ch);
    hide *;
    match s.spc
    case SIdle => IdleSocketKeeps(s, ch);
    case SDec => SDecKeeps(s, ch);
    case SHigh => SHighKeeps(s, ch);
    case SLow => SLowKeeps(s, ch);
    case SCheck => SCheckKeeps(s, ch);
    case SDone => SDoneKeeps(s, ch);
  }

  /** A fresh socket and `n` workers. */
  function Init(n: nat): State
  {
    State([], [], [], [], [], 0, Empty, 0, Free, [], false, SIdle, seq(n, _ => Idle))
  }

  lemma InitInv(n: nat)
    ensures Inv(Init(n))
  {
    assert Pipers(Init(n).pcs) == {};
    assert Line(Init(n)) == [];
  }

  ghost function Run(n: nat, schedule: seq<(nat, Choice)>): (s: State)
    ensures Inv(s) && |s.pcs| == n
    decreases |schedule|
  {
    if schedule == [] then InitInv(n); Init(n)
    else
      var before := Run(n, schedule[..|schedule| - 1]);
      var (t, ch) := schedule[|schedule| - 1];
      StepKeeps(before, t, ch);
      Step(before, t, ch)
  }

  /** The message that may be written in part is the next one in line. */
  lemma CurrentInLine(s: State)
    requires Current(s).Full?
    ensures |s.done| < |Line(s)| && Line(s)[|s.done|] == Current(s).b.m
  {
    var rest := Single(Front(s)) + Msgs(s.high) + Msgs(s.low) + s.pipe;
    assert Line(s) == s.done + rest;
    assert rest[0] == Current(s).b.m;
  }

  lemma {:induction false} MineMembers(l: seq<Msg>, m: Msg)
    ensures m in l <==> m in Mine(l, m.thread, m.prio)
  {
    if l != [] {
      var k := |l| - 1;
      MineMembers(l[..k], m);
      assert l == l[..k] + [l[k]];
    }
  }

  /**
   * In every run the bytes on the wire are whole messages, one after the other, and perhaps a part of one more: of
   * the message that comes next in line, which was sent.
   */
  lemma NeverInterleaved(n: nat, schedule: seq<(nat, Choice)>)
    ensures var s := Run(n, schedule);
            !s.closed ==>
              || s.out == Flat(s.done)
              || (&& |s.done| < |Line(s)| && Line(s)[|s.done|] in s.sent
                  && exists k | 0 <= k <= |Line(s)[|s.done|].data| ::
                       s.out == Flat(s.done) + Line(s)[|s.done|].data[..k])
  {
    var s := Run(n, schedule);
    if !s.closed && Current(s).Full? && Current(s).b.off <= |Current(s).b.m.data| {
      var b := Current(s).b;
      CurrentInLine(s);
      var m := Line(s)[|s.done|];
      assert m == b.m;
      MineMembers(Line(s), m);
      MineMembers(s.sent, m);
      assert Mine(Line(s), m.thread, m.prio) == Mine(s.sent, m.thread, m.prio);
      assert s.out == Flat(s.done) + m.data[..b.off];
    }
  }

  /**
   * In every run what a thread sent at one priority is on its way exactly once and in the order in which it was
   * sent, whether written directly or through the pipe; what is written in full comes first.
   */
  lemma OrderKept(n: nat, schedule: seq<(nat, Choice)>, w: nat, p: Priority)
    ensures var s := Run(n, schedule);
            !s.closed ==>
              && Mine(s.sent, w, p) == Mine(Line(s), w, p)
              && Mine(s.done, w, p) <= Mine(s.sent, w, p)
  {
    var s := Run(n, schedule);
    if !s.closed {
      assert Mine(Line(s), w, p) == Mine(s.sent, w, p);
      MineLine(s, w, p);
    }
  }

  /** When nothing is on its way, everything sent is written in full. */
  lemma DrainedIsWritten(n: nat, schedule: seq<(nat, Choice)>, w: nat, p: Priority)
    requires var s := Run(n, schedule);
             !s.closed && s.high == [] && s.low == [] && s.pipe == [] && s.dw.Empty? && s.holder.Free?
    ensures var s := Run(n, schedule); s.out == Flat(s.done) && Mine(s.done, w, p) == Mine(s.sent, w, p)
  {
    var s := Run(n, schedule);
    assert Line(s) == s.done;
    assert Mine(Line(s), w, p) == Mine(s.sent, w, p);
  }

  /**
   * The assertions of the program: no low message is half written when the socket thread starts writing; the high
   * list is empty when a low message is raised; both lists are empty and the size is zero when it is done; and the
   * counter is not zero when it counts down. A direct write never overwrites another one.
   */
  lemma AssertionsHold(n: nat, schedule: seq<(nat, Choice)>, t: nat)
    ensures var s := Run(n, schedule);
            !s.closed ==>
              && (s.spc.SIdle? || s.spc.SHigh? ==> forall k | 0 <= k < |s.low| :: s.low[k].off == 0)
              && (s.spc.SCheck? ==> s.high == [])
              && (s.spc.SDone? ==> s.high == [] && s.low == [] && s.wbSize == 0)
              && (s.spc.SDec? ==> s.sending > 0)
              && (t < n && s.pcs[t].Wrote? ==> s.dw.Empty?)
              && s.wbSize == Sum(s.high) + Sum(s.low)
  {
    var s := Run(n, schedule);
    if !s.closed && t < n { assert WorkerOK(s, t); }
  }
}
