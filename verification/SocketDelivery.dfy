/** What becomes of the messages sent in runs of the write path, read off the schedule and where the workers are. */
module SocketDelivery {
  import opened SocketWrite

  type Schedule = seq<(nat, Choice)>

  // ---------- Histories of a run ----------

  /** The state before the last step of a schedule. */
  ghost function Before(n: nat, schedule: Schedule): (s: State)
    requires schedule != []
    ensures Inv(s) && |s.pcs| == n
  {
    Run(n, schedule[..|schedule| - 1])
  }

  /** The messages that worker `w` was given to send at one priority. */
  ghost function Sends(n: nat, schedule: Schedule, w: nat, p: Priority): seq<Msg>
    decreases |schedule|
  {
    if schedule == [] then []
    else
      var (t, ch) := schedule[|schedule| - 1];
      Sends(n, schedule[..|schedule| - 1], w, p)
      + (if t == w < n then Started(Before(n, schedule), w, ch, p) else [])
  }

  function Started(s: State, w: nat, ch: Choice, p: Priority): seq<Msg>
    requires w < |s.pcs|
  {
    if !s.closed && s.pcs[w].Idle? && ch.Send? && ch.prio == p then [Msg(w, p, ch.data)] else []
  }

  /** The message that a worker has not yet written or put into the pipe. */
  function Held(pc: Pc, p: Priority): seq<Msg>
  {
    if MsgOf(pc).Full? && !pc.Wrote? && MsgOf(pc).b.m.prio == p then [MsgOf(pc).b.m] else []
  }

  /** A write may accept any part of what it is given. */
  lemma AcceptsAny(n: nat, k: nat)
    requires k <= n
    ensures Accepted(Accept(k), n) == k && Accepted(Error, n) == 0
  {
  }

  // ---------- One step ----------

  /** A worker goes on with its message until that is written or in the pipe, and leaves the lists alone. */
  predicate Moved(s: State, s': State, t: nat, ch: Choice, p: Priority)
    requires t < |s.pcs|
  {
    var pc := s.pcs[t];
    && |s'.pcs| == |s.pcs| && s'.closed == s.closed && s'.high == s.high && s'.low == s.low
    && s'.pcs == s.pcs[t := s'.pcs[t]] && (Started(s, t, ch, p) != [] ==> pc.Idle?)
    && (if pc.Write? || pc.Piping? then s'.sent == s.sent + [pc.m] && Held(s'.pcs[t], p) == []
        else s'.sent == s.sent && Held(s'.pcs[t], p) == Held(pc, p) + Started(s, t, ch, p))
  }

  lemma LookMoves(s: State, t: nat, ch: Choice, p: Priority)
    requires t < |s.pcs| && Looking(s.pcs[t])
    ensures Moved(s, WorkerStep(s, t, ch), t, ch, p)
  {
    LookStep(s, t, ch);
    var (pc, holder) := Looked(s, t);
    LookedHolds(s, t, p);
    hide Looked, WorkerStep;
    var s' := SetPc(s, t, pc).(holder := holder);
    assert Started(s, t, ch, p) == [];
  }

  lemma LookedHolds(s: State, t: nat, p: Priority)
    requires t < |s.pcs| && Looking(s.pcs[t])
    ensures Held(Looked(s, t).0, p) == Held(s.pcs[t], p)
  {
  }

  lemma IdleMoves(s: State, t: nat, ch: Choice, p: Priority)
    requires t < |s.pcs| && s.pcs[t].Idle? && !s.closed
    ensures Moved(s, WorkerStep(s, t, ch), t, ch, p)
  {
  }

  lemma WriteMoves(s: State, t: nat, ch: Choice, p: Priority)
    requires t < |s.pcs| && (s.pcs[t].Write? || s.pcs[t].Wrote?)
    ensures Moved(s, WorkerStep(s, t, ch), t, ch, p)
  {
  }

  lemma PipeMoves(s: State, t: nat, ch: Choice, p: Priority)
    requires t < |s.pcs| && (s.pcs[t].Inc? || s.pcs[t].Piping?)
    ensures Moved(s, WorkerStep(s, t, ch), t, ch, p)
  {
  }

  lemma WorkerMoves(s: State, t: nat, ch: Choice, p: Priority)
    requires t < |s.pcs| && !s.closed
    ensures Moved(s, WorkerStep(s, t, ch), t, ch, p)
  {
    hide WorkerStep, Moved;
    var pc := s.pcs[t];
    if pc.Idle? { IdleMoves(s, t, ch, p); }
    else if pc.Write? || pc.Wrote? { WriteMoves(s, t, ch, p); }
    else if pc.Inc? || pc.Piping? { PipeMoves(s, t, ch, p); }
    else { LookMoves(s, t, ch, p); }
  }

  lemma MineLast(l: seq<Msg>, m: Msg, w: nat, p: Priority)
    ensures Mine(l + [m], w, p) == Mine(l, w, p) + (if m.thread == w && m.prio == p then [m] else [])
  {
    assert (l + [m])[..|l|] == l;
  }

  /** What a worker sent and what it holds changes by what it is given. */
  lemma WorkerSends(s: State, t: nat, ch: Choice, w: nat, p: Priority)
    requires Inv(s) && !s.closed && t < |s.pcs| && w < |s.pcs|
    ensures var s' := WorkerStep(s, t, ch);
            && |s'.pcs| == |s.pcs|
            && Mine(s'.sent, w, p) + Held(s'.pcs[w], p) ==
               Mine(s.sent, w, p) + Held(s.pcs[w], p) + (if t == w then Started(s, w, ch, p) else [])
  {
    OwnMessage(s, t);
    hide *;
    WorkerMoves(s, t, ch, p);
    MovedSends(s, WorkerStep(s, t, ch), t, ch, w, p);
  }

  lemma OwnMessage(s: State, t: nat)
    requires Inv(s) && !s.closed && t < |s.pcs|
    ensures MsgOf(s.pcs[t]).Full? ==> MsgOf(s.pcs[t]).b.m.thread == t
  {
    assert WorkerOK(s, t);
  }

  lemma MovedSends(s: State, s': State, t: nat, ch: Choice, w: nat, p: Priority)
    requires t < |s.pcs| && w < |s.pcs| && Moved(s, s', t, ch, p)
    requires MsgOf(s.pcs[t]).Full? ==> MsgOf(s.pcs[t]).b.m.thread == t
    ensures |s'.pcs| == |s.pcs|
    ensures Mine(s'.sent, w, p) + Held(s'.pcs[w], p) ==
            Mine(s.sent, w, p) + Held(s.pcs[w], p) + (if t == w then Started(s, w, ch, p) else [])
  {
    hide Mine;
    var pc := s.pcs[t];
    if pc.Write? || pc.Piping? {
      MineLast(s.sent, pc.m, w, p);
      assert Started(s, t, ch, p) == [];
    }
  }

  lemma SocketSends(s: State, ch: Choice)
    requires Fits(s)
    ensures SocketStep(s, ch).sent == s.sent && SocketStep(s, ch).pcs == s.pcs
  {
  }

  // ---------- Whole runs ----------

  lemma LastStep(n: nat, schedule: Schedule)
    requires schedule != []
    ensures var (t, ch) := schedule[|schedule| - 1];
            Run(n, schedule) == Step(Before(n, schedule), t, ch)
  {
  }

  lemma StepIs(s: State, t: nat, ch: Choice)
    requires Inv(s)
    ensures s.closed ==> Step(s, t, ch) == s
    ensures !s.closed && t < |s.pcs| ==> Step(s, t, ch) == WorkerStep(s, t, ch)
    ensures !s.closed && t >= |s.pcs| ==> Fits(s) && Step(s, t, ch) == SocketStep(s, ch)
  {
    if !s.closed { FitsNow(s); }
  }

  lemma SendsMore(n: nat, schedule: Schedule, w: nat, p: Priority)
    requires schedule != []
    ensures var (t, ch) := schedule[|schedule| - 1];
            Sends(n, schedule, w, p) == Sends(n, schedule[..|schedule| - 1], w, p)
            + (if t == w < n then Started(Before(n, schedule), w, ch, p) else [])
  {
  }

  lemma NothingSent(n: nat, schedule: Schedule, w: nat, p: Priority)
    requires schedule == [] && w < n
    ensures Sends(n, schedule, w, p) == Mine(Run(n, schedule).sent, w, p) + Held(Run(n, schedule).pcs[w], p)
  {
  }

  /** The history kept in the state is that of the run. */
  lemma {:induction false} SentIs(n: nat, schedule: Schedule, w: nat, p: Priority)
    requires w < n
    ensures var s := Run(n, schedule);
            !s.closed ==> Sends(n, schedule, w, p) == Mine(s.sent, w, p) + Held(s.pcs[w], p)
    decreases |schedule|
  {
    hide *;
    if schedule == [] {
      NothingSent(n, schedule, w, p);
    } else {
      var (t, ch) := schedule[|schedule| - 1];
      var s := Before(n, schedule);
      BeforeIs(n, schedule);
      SentIs(n, schedule[..|schedule| - 1], w, p);
      LastStep(n, schedule);
      SendsMore(n, schedule, w, p);
      StepIs(s, t, ch);
      if !s.closed {
        if t < n { WorkerSends(s, t, ch, w, p); } else { SocketSends(s, ch); }
      }
    }
  }

  lemma BeforeIs(n: nat, schedule: Schedule)
    requires schedule != []
    ensures Before(n, schedule) == Run(n, schedule[..|schedule| - 1])
  {
  }

  /**
   * In every run what a worker was given to send at one priority is in line, once each and in order, but for the one
   * message that the worker is still dealing with.
   */
  lemma SentInLine(n: nat, schedule: Schedule, w: nat, p: Priority)
    requires w < n
    ensures var s := Run(n, schedule);
            !s.closed ==>
              && Sends(n, schedule, w, p) == Mine(Line(s), w, p) + Held(s.pcs[w], p)
              && (s.pcs[w].Idle? ==> Sends(n, schedule, w, p) == Mine(Line(s), w, p))
  {
    var s := Run(n, schedule);
    if !s.closed {
      SentIs(n, schedule, w, p);
      OrderKept(n, schedule, w, p);
    }
  }

  /** Nothing is on its way, and no worker has anything to send. */
  predicate Drained(s: State)
  {
    && !s.closed && s.high == [] && s.low == [] && s.pipe == [] && s.dw.Empty? && s.spc.SIdle? && s.holder.Free?
    && forall t | 0 <= t < |s.pcs| :: s.pcs[t].Idle?
  }

  /** When nothing is on its way, the bytes written are those of all messages that were given to the workers. */
  lemma DrainedWritesAll(n: nat, schedule: Schedule, w: nat, p: Priority)
    requires w < n && Drained(Run(n, schedule))
    ensures var s := Run(n, schedule); s.out == Flat(s.done) && Mine(s.done, w, p) == Sends(n, schedule, w, p)
  {
    DrainedIsWritten(n, schedule, w, p);
    SentIs(n, schedule, w, p);
  }

  // ---------- Priorities ----------

  /** At most one low message stands in the high list. */
  predicate OneLow(l: seq<Buf>)
  {
    forall j, k | 0 <= j < k < |l| :: l[j].m.prio == High || l[k].m.prio == High
  }

  lemma OneLowFirst(l: seq<Buf>, b: Buf)
    requires OneLow(l) && b.m.prio == High
    ensures OneLow([b] + l) && OneLow(l + [b])
  {
  }

  lemma SocketOneLow(s: State, ch: Choice)
    requires PartsOK(s) && !s.closed && Fits(s) && OneLow(s.high)
    ensures OneLow(SocketStep(s, ch).high)
  {
    hide HighOK, LowOK, OneLow, Fits;
    match s.spc
    case SIdle => IdleOneLow(s, ch);
    case SHigh => WritingOneLow(s, ch);
    case SCheck => CheckOneLow(s, ch);
    case _ => RestOneLow(s, ch);
  }

  lemma IdleOneLow(s: State, ch: Choice)
    requires Fits(s) && OneLow(s.high) && s.spc.SIdle? && (s.dw.Full? ==> s.dw.b.m.prio == High)
    ensures OneLow(SocketStep(s, ch).high)
  {
    hide Fits, OneLow;
    OneLowAlone();
    if s.dw.Full? { OneLowFirst(s.high, s.dw.b); }
    if s.pipe != [] {
      if s.pipe[0].prio == High { OneLowFirst(s.high, Buf(s.pipe[0], 0)); }
      assert [] + [Buf(s.pipe[0], 0)] == [Buf(s.pipe[0], 0)];
    }
  }

  lemma OneLowAlone()
    ensures OneLow([]) && forall b :: OneLow([b])
  {
  }

  lemma WritingOneLow(s: State, ch: Choice)
    requires Fits(s) && OneLow(s.high) && s.spc.SHigh?
    ensures OneLow(SocketStep(s, ch).high)
  {
    if s.high != [] && !ch.WouldBlock? && !ch.Error? {
      SHighStep(s, ch);
      hide SocketStep, Fits;
    } else {
      hide OneLow;
      OneLowAlone();
    }
  }

  lemma CheckOneLow(s: State, ch: Choice)
    requires Fits(s) && OneLow(s.high) && s.spc.SCheck?
    ensures OneLow(SocketStep(s, ch).high)
  {
    hide OneLow;
    OneLowAlone();
  }

  lemma RestOneLow(s: State, ch: Choice)
    requires Fits(s) && OneLow(s.high) && (s.spc.SDec? || s.spc.SLow? || s.spc.SDone?)
    ensures OneLow(SocketStep(s, ch).high)
  {
    hide OneLow;
    OneLowAlone();
  }

  /**
   * In every run a message of high priority that the socket thread has taken up has at most one low one before it
   * that waits in the lists: the low list holds low messages only, and comes after the high list.
   */
  lemma {:induction false} HighFirst(n: nat, schedule: Schedule)
    ensures var s := Run(n, schedule);
            !s.closed ==> OneLow(s.high) && forall k | 0 <= k < |s.low| :: s.low[k].m.prio == Low
    decreases |schedule|
  {
    LowIsLow(n, schedule);
    hide *;
    OneLowAlone();
    if schedule == [] { FreshLists(n, schedule); }
    if schedule != [] {
      var (t, ch) := schedule[|schedule| - 1];
      var s := Before(n, schedule);
      BeforeIs(n, schedule);
      HighFirst(n, schedule[..|schedule| - 1]);
      LastStep(n, schedule);
      StepIs(s, t, ch);
      if !s.closed {
        PartsHere(s);
        if t < |s.pcs| { ListsLeft(s, t, ch); } else { SocketOneLow(s, ch); }
      }
    }
  }

  lemma ListsLeft(s: State, t: nat, ch: Choice)
    requires t < |s.pcs| && !s.closed
    ensures WorkerStep(s, t, ch).high == s.high
  {
    hide WorkerStep;
    WorkerMoves(s, t, ch, High);
  }

  lemma PartsHere(s: State)
    requires Inv(s) && !s.closed
    ensures PartsOK(s)
  {
  }

  lemma LowIsLow(n: nat, schedule: Schedule)
    ensures var s := Run(n, schedule); !s.closed ==> forall k | 0 <= k < |s.low| :: s.low[k].m.prio == Low
  {
    var s := Run(n, schedule);
    assert !s.closed ==> PartsOK(s);
  }

  lemma FreshLists(n: nat, schedule: Schedule)
    requires schedule == []
    ensures Run(n, schedule).high == []
  {
  }

  /** What the socket thread takes up stands last in the list of its priority; in the high list when nothing waits. */
  lemma TakenUp(s: State)
    requires Fits(s) && s.spc.SIdle? && s.pipe != []
    ensures var (s', b) := (SocketStep(s, ReadPipe), Buf(s.pipe[0], 0));
            && s'.pipe == s.pipe[1..] && s'.out == s.out && s'.done == s.done && s'.dw == s.dw
            && (if b.m.prio == Low && !(s.high == [] && s.low == []) then s'.low == s.low + [b] && s'.high == s.high
                else s'.high == s.high + [b] && s'.low == s.low)
  {
  }

  /** A write that blocks, or accepts a part only, ends the turn of the socket thread on the high list. */
  lemma BlockedLeaves(s: State, k: nat)
    requires Fits(s) && s.spc.SHigh? && s.high != [] && k < Rest(s.high[0])
    ensures SocketStep(s, WouldBlock) == s.(holder := Free, spc := SIdle)
    ensures var (s', b) := (SocketStep(s, Accept(k)), s.high[0]);
            && s'.holder.Free? && s'.spc.SIdle? && s'.out == s.out + b.m.data[b.off..b.off + k]
            && s'.high == s.high[0 := Buf(b.m, b.off + k)] && s'.low == s.low && s'.done == s.done
    ensures SocketStep(s, Error).closed
  {
  }

  /** On the low list it then looks whether the first message was begun, and raises that to the high list. */
  lemma BlockedRaises(s: State, k: nat)
    requires Fits(s) && !s.closed && s.spc.SLow? && s.low != [] && s.high == [] && 0 < k < Rest(s.low[0])
    ensures var (s1, b) := (SocketStep(s, Accept(k)), s.low[0]);
            && Fits(s1) && s1.out == s.out + b.m.data[b.off..b.off + k]
            && var s2 := SocketStep(s1, Nothing);
            && s2.holder.Free? && s2.spc.SIdle? && s2.high == [Buf(b.m, b.off + k)] && s2.low == s.low[1..]
  {
  }
}
