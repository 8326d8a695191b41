/** From every state that the write path can reach without a failed write, everything sent can be written. */
module SocketDraining {
  import opened SocketWrite
  import opened SocketDelivery

  // ---------- How much is left to do ----------

  function PcWeight(pc: Pc): nat
  {
    match pc
    case Idle => 0
    case Wrote(_) => 12
    case Piping(_) => 14
    case Inc(_) => 15
    case Write(_) => 16
    case Sending2(_) => 17
    case Dw2(_) => 18
    case Low2(_) => 19
    case High2(_) => 20
    case TryLock(_) => 21
    case Sending1(_) => 22
    case Dw1(_) => 23
    case Lists1(_) => 24
  }

  function SocketWeight(spc: SPc): nat
  {
    match spc
    case SIdle => 0
    case SDec => 1
    case SDone => 1
    case SCheck => 1
    case SLow => 2
    case SHigh => 3
  }

  function PcsWeight(pcs: seq<Pc>): nat
  {
    if pcs == [] then 0 else PcsWeight(pcs[..|pcs| - 1]) + PcWeight(pcs[|pcs| - 1])
  }

  /** What is queued. */
  function QueueWeight(s: State): nat
  {
    10 * (|s.high| + |s.low|) + (if s.dw.Full? then 11 else 0) + 13 * |s.pipe|
  }

  function Weight(s: State): nat
  {
    PcsWeight(s.pcs) + QueueWeight(s) + SocketWeight(s.spc)
  }

  lemma {:induction false} PcsUpdate(pcs: seq<Pc>, t: nat, pc: Pc)
    requires t < |pcs|
    ensures PcsWeight(pcs[t := pc]) + PcWeight(pcs[t]) == PcsWeight(pcs) + PcWeight(pc)
  {
    hide PcWeight;
    var n := |pcs| - 1;
    if t < n {
      PcsUpdate(pcs[..n], t, pc);
      assert pcs[t := pc][..n] == pcs[..n][t := pc];
    } else {
      assert pcs[t := pc][..n] == pcs[..n];
    }
  }

  // ---------- Steps that leave less to do ----------

  /** A worker that waits for the counter of requests to go down. */
  predicate Waits(s: State, t: nat)
    requires t < |s.pcs|
  {
    s.pcs[t].Inc? && s.sending >= MAXSENDING
  }

  /** The choice with which a worker writes all of its message. */
  function Whole(pc: Pc): Choice
  {
    if pc.Write? then Accept(|pc.m.data|) else Nothing
  }

  predicate WorkerDone(s: State, s': State, t: nat)
  {
    && t < |s.pcs| == |s'.pcs| && s'.pcs == s.pcs[t := s'.pcs[t]] && s'.spc == s.spc && s'.closed == s.closed
    && PcWeight(s'.pcs[t]) + QueueWeight(s') < PcWeight(s.pcs[t]) + QueueWeight(s)
  }

  lemma LookLess(s: State, t: nat)
    requires t < |s.pcs| && Looking(s.pcs[t])
    ensures WorkerDone(s, WorkerStep(s, t, Nothing), t)
  {
    LookStep(s, t, Nothing);
    LookedLess(s, t);
    hide Looked, WorkerStep, PcWeight;
    var (pc, holder) := Looked(s, t);
    assert QueueWeight(SetPc(s, t, pc).(holder := holder)) == QueueWeight(s);
  }

  lemma LookedLess(s: State, t: nat)
    requires t < |s.pcs| && Looking(s.pcs[t])
    ensures PcWeight(Looked(s, t).0) < PcWeight(s.pcs[t])
  {
  }

  lemma WriteLess(s: State, t: nat)
    requires t < |s.pcs| && (s.pcs[t].Write? || (s.pcs[t].Wrote? && s.dw.Empty?))
    ensures WorkerDone(s, WorkerStep(s, t, Whole(s.pcs[t])), t)
  {
  }

  lemma PipeLess(s: State, t: nat)
    requires t < |s.pcs| && (s.pcs[t].Piping? || s.pcs[t].Inc?) && !Waits(s, t)
    ensures WorkerDone(s, WorkerStep(s, t, Nothing), t)
  {
  }

  lemma WorkerLess(s: State, t: nat)
    requires Inv(s) && !s.closed && t < |s.pcs| && !s.pcs[t].Idle? && !Waits(s, t)
    ensures var s' := Step(s, t, Whole(s.pcs[t])); !s'.closed && Weight(s') < Weight(s)
  {
    WroteAlone(s, t);
    StepIs(s, t, Whole(s.pcs[t]));
    hide Inv, WorkerStep, WorkerDone, Waits, PcWeight, QueueWeight;
    var pc := s.pcs[t];
    if pc.Write? || pc.Wrote? { WriteLess(s, t); }
    else if pc.Piping? || pc.Inc? { PipeLess(s, t); }
    else { LookLess(s, t); }
    DoneWeighs(s, WorkerStep(s, t, Whole(pc)), t);
  }

  lemma WroteAlone(s: State, t: nat)
    requires Inv(s) && !s.closed && t < |s.pcs|
    ensures s.pcs[t].Wrote? ==> s.dw.Empty?
  {
    assert WorkerOK(s, t);
  }

  lemma DoneWeighs(s: State, s': State, t: nat)
    requires WorkerDone(s, s', t)
    ensures s'.closed == s.closed && Weight(s') < Weight(s)
  {
    PcsUpdate(s.pcs, t, s'.pcs[t]);
  }

  /** The choice with which the socket thread goes on, writing as much as there is. */
  function Onward(s: State): Choice
  {
    if s.spc.SIdle? then ReadPipe
    else if s.spc.SHigh? && s.high != [] then Accept(|s.high[0].m.data|)
    else if s.spc.SLow? && s.low != [] then Accept(|s.low[0].m.data|)
    else Nothing
  }

  predicate SocketDone(s: State, s': State)
  {
    && s'.pcs == s.pcs && !s'.closed
    && QueueWeight(s') + SocketWeight(s'.spc) < QueueWeight(s) + SocketWeight(s.spc)
  }

  lemma SocketLess(s: State)
    requires Fits(s) && !s.closed && (!s.spc.SIdle? || s.pipe != [])
    ensures SocketDone(s, SocketStep(s, Onward(s)))
  {
    match s.spc
    case SIdle => AppendLess(s);
    case SHigh => HighLess(s);
    case SLow => LowLess(s);
    case _ =>
  }

  lemma AppendLess(s: State)
    requires Fits(s) && !s.closed && s.spc.SIdle? && s.pipe != []
    ensures SocketDone(s, SocketStep(s, ReadPipe))
  {
  }

  lemma HighLess(s: State)
    requires Fits(s) && !s.closed && s.spc.SHigh?
    ensures SocketDone(s, SocketStep(s, Onward(s)))
  {
  }

  lemma LowLess(s: State)
    requires Fits(s) && !s.closed && s.spc.SLow?
    ensures SocketDone(s, SocketStep(s, Onward(s)))
  {
  }

  lemma SocketGoes(s: State)
    requires Inv(s) && !s.closed && (!s.spc.SIdle? || s.pipe != [])
    ensures var s' := Step(s, |s.pcs|, Onward(s)); !s'.closed && Weight(s') < Weight(s)
  {
    StepIs(s, |s.pcs|, Onward(s));
    hide Inv, SocketStep, Fits;
    SocketLess(s);
  }

  // ---------- Runs that drain ----------

  /** The state after more steps. */
  ghost function RunFrom(s: State, schedule: Schedule): (s': State)
    requires Inv(s)
    ensures Inv(s') && |s'.pcs| == |s.pcs|
    decreases |schedule|
  {
    if schedule == [] then s
    else
      var before := RunFrom(s, schedule[..|schedule| - 1]);
      var (t, ch) := schedule[|schedule| - 1];
      StepKeeps(before, t, ch);
      Step(before, t, ch)
  }

  lemma RunOne(s: State, t: nat, ch: Choice)
    requires Inv(s)
    ensures RunFrom(s, [(t, ch)]) == Step(s, t, ch)
  {
    hide Inv, Step;
    assert [(t, ch)][..0] == [];
    assert RunFrom(s, []) == s;
  }

  lemma {:induction false} RunMore(s: State, a: Schedule, b: Schedule)
    requires Inv(s)
    ensures RunFrom(s, a + b) == RunFrom(RunFrom(s, a), b)
    decreases |b|
  {
    hide Inv, Step;
    if b == [] {
      assert a + b == a;
    } else {
      var k := |b| - 1;
      RunMore(s, a, b[..k]);
      assert (a + b)[..|a + b| - 1] == a + b[..k];
    }
  }

  lemma {:induction false} RunGoesOn(n: nat, a: Schedule, b: Schedule)
    ensures Run(n, a + b) == RunFrom(Run(n, a), b)
    decreases |b|
  {
    hide Inv, Step;
    if b == [] {
      assert a + b == a;
    } else {
      var k := |b| - 1;
      RunGoesOn(n, a, b[..k]);
      assert (a + b)[..|a + b| - 1] == a + b[..k];
    }
  }

  lemma TakesLists(s: State)
    requires Inv(s) && !s.closed && s.spc.SIdle? && s.holder.Free? && (s.high != [] || s.low != [] || s.dw.Full?)
    ensures var s1 := Step(s, |s.pcs|, Writable);
            && s1.spc.SHigh? && !s1.closed && s1.pcs == s.pcs && (s1.high != [] || s1.low != []) && s1.pipe == s.pipe
            && QueueWeight(s1) <= QueueWeight(s)
  {
    StepIs(s, |s.pcs|, Writable);
    hide Inv, Fits;
  }

  lemma WritesHigh(s: State)
    requires Inv(s) && !s.closed && s.spc.SHigh? && s.high != []
    ensures var s' := Step(s, |s.pcs|, Accept(|s.high[0].m.data|));
            !s'.closed && s'.pcs == s.pcs && QueueWeight(s') + 10 <= QueueWeight(s) && SocketWeight(s'.spc) <= 3
  {
    StepIs(s, |s.pcs|, Accept(|s.high[0].m.data|));
    hide Inv;
  }

  lemma TurnsLow(s: State)
    requires Inv(s) && !s.closed && s.spc.SHigh? && s.high == [] && s.low != []
    ensures var s' := Step(s, |s.pcs|, Nothing);
            !s'.closed && s'.spc.SLow? && s'.low == s.low && s'.pcs == s.pcs && QueueWeight(s') == QueueWeight(s)
  {
    StepIs(s, |s.pcs|, Nothing);
    hide Inv, Fits;
  }

  lemma WritesLow(s: State)
    requires Inv(s) && !s.closed && s.spc.SLow? && s.low != []
    ensures var s' := Step(s, |s.pcs|, Accept(|s.low[0].m.data|));
            !s'.closed && s'.pcs == s.pcs && QueueWeight(s') + 10 <= QueueWeight(s) && SocketWeight(s'.spc) <= 3
  {
    StepIs(s, |s.pcs|, Accept(|s.low[0].m.data|));
    hide Inv;
  }

  /** When only the lists hold messages, the socket thread writes one of them. */
  lemma WritesOne(s: State) returns (more: Schedule)
    requires Inv(s) && !s.closed && s.spc.SIdle? && s.holder.Free? && (s.high != [] || s.low != [] || s.dw.Full?)
    ensures var s' := RunFrom(s, more); !s'.closed && Weight(s') < Weight(s)
  {
    hide Inv, Step, QueueWeight, RunFrom, PcsWeight;
    var n := |s.pcs|;
    TakesLists(s);
    RunOne(s, n, Writable);
    var s1 := RunFrom(s, [(n, Writable)]);
    if s1.high != [] {
      WritesHigh(s1);
      var ch := Accept(|s1.high[0].m.data|);
      RunOne(s1, n, ch);
      RunMore(s, [(n, Writable)], [(n, ch)]);
      more := [(n, Writable)] + [(n, ch)];
    } else {
      TurnsLow(s1);
      RunOne(s1, n, Nothing);
      var s2 := RunFrom(s1, [(n, Nothing)]);
      WritesLow(s2);
      var ch := Accept(|s2.low[0].m.data|);
      RunOne(s2, n, ch);
      RunMore(s1, [(n, Nothing)], [(n, ch)]);
      RunMore(s, [(n, Writable)], [(n, Nothing)] + [(n, ch)]);
      more := [(n, Writable)] + ([(n, Nothing)] + [(n, ch)]);
    }
  }

  /** A worker that waits for the counter finds a request that can go on. */
  lemma CounterGoesDown(s: State, t: nat) returns (u: nat)
    requires Inv(s) && !s.closed && t < |s.pcs| && Waits(s, t)
    ensures s.pipe != [] || !s.spc.SIdle? || (u < |s.pcs| && s.pcs[u].Piping?)
  {
    assert SendingOK(s);
    u := 0;
    if s.pipe == [] && s.spc.SIdle? {
      assert |Pipers(s.pcs)| > 0;
      u :| u in Pipers(s.pcs);
    }
  }

  lemma IdleUnlocked(s: State)
    requires Inv(s) && !s.closed && s.spc.SIdle? && forall t | 0 <= t < |s.pcs| :: s.pcs[t].Idle?
    ensures s.holder.Free?
  {
    assert LockOK(s);
  }

  /** While something is on its way, some steps leave less to do. */
  lemma Less(s: State) returns (more: Schedule)
    requires Inv(s) && !s.closed && !Drained(s)
    ensures var s' := RunFrom(s, more); !s'.closed && Weight(s') < Weight(s)
  {
    hide Inv, Step, Weight, Waits, RunFrom;
    if !s.spc.SIdle? || s.pipe != [] {
      SocketGoes(s);
      RunOne(s, |s.pcs|, Onward(s));
      more := [(|s.pcs|, Onward(s))];
    } else if t: nat :| t < |s.pcs| && !s.pcs[t].Idle? {
      var u := t;
      if Waits(s, t) {
        u := CounterGoesDown(s, t);
        PiperGoes(s, u);
      }
      WorkerLess(s, u);
      RunOne(s, u, Whole(s.pcs[u]));
      more := [(u, Whole(s.pcs[u]))];
    } else {
      IdleUnlocked(s);
      more := WritesOne(s);
    }
  }

  lemma PiperGoes(s: State, u: nat)
    requires u < |s.pcs| && s.pcs[u].Piping?
    ensures !Waits(s, u)
  {
  }

  lemma {:induction false} Drains(s: State) returns (more: Schedule)
    requires Inv(s) && !s.closed
    ensures Drained(RunFrom(s, more))
    decreases Weight(s)
  {
    hide Inv, Weight, Drained;
    if Drained(s) {
      more := [];
      assert RunFrom(s, []) == s;
    } else {
      var a := Less(s);
      var b := Drains(RunFrom(s, a));
      RunMore(s, a, b);
      more := a + b;
    }
  }

  /**
   * Every run without a failed write can go on until nothing is on its way; then the bytes written are whole messages,
   * and those of each worker and priority are exactly the ones it was given to send, in order.
   */
  lemma AllWritten(n: nat, schedule: Schedule) returns (more: Schedule)
    requires !Run(n, schedule).closed
    ensures var (all, s) := (schedule + more, Run(n, schedule + more));
            && Drained(s) && s.out == Flat(s.done)
            && forall w, p | 0 <= w < n :: Mine(s.done, w, p) == Sends(n, all, w, p)
  {
    more := Drains(Run(n, schedule));
    RunGoesOn(n, schedule, more);
    hide Drained, Run, RunFrom, Sends, Mine;
    DrainedIsWhole(n, schedule + more);
    forall w, p | 0 <= w < n
      ensures Mine(Run(n, schedule + more).done, w, p) == Sends(n, schedule + more, w, p)
    {
      DrainedWritesAll(n, schedule + more, w, p);
    }
  }

  lemma DrainedIsWhole(n: nat, schedule: Schedule)
    requires Drained(Run(n, schedule))
    ensures Run(n, schedule).out == Flat(Run(n, schedule).done)
  {
    DrainedIsWritten(n, schedule, 0, High);
  }

  // ---------- Direct writes ----------

  /** Where a worker is after `k` steps with a high message, when nothing is on its way. */
  function DirectPc(m: Msg, k: nat): Pc
  {
    match k
    case 0 => Lists1(m)
    case 1 => Dw1(m)
    case 2 => Sending1(m)
    case 3 => TryLock(m)
    case 4 => High2(m)
    case 5 => Low2(m)
    case 6 => Dw2(m)
    case 7 => Sending2(m)
    case _ => Write(m)
  }

  /** The state then: only the place of the worker and the lock have changed. */
  function Direct(s: State, w: nat, m: Msg, k: nat): State
    requires w < |s.pcs|
  {
    SetPc(s, w, DirectPc(m, k)).(holder := if k >= 4 then Worker(w) else Free)
  }

  lemma DirectStep(s: State, w: nat, m: Msg, k: nat)
    requires w < |s.pcs| && Drained(s) && s.sending == 0 && k < 8
    ensures WorkerStep(Direct(s, w, m, k), w, Nothing) == Direct(s, w, m, k + 1)
  {
  }

  lemma NoneSending(s: State)
    requires Inv(s) && Drained(s)
    ensures s.sending == 0
  {
    assert SendingOK(s);
    assert Pipers(s.pcs) == {};
  }

  /** The steps with which a worker writes a message directly. */
  function DirectSteps(w: nat, data: seq<Byte>, k: nat): Schedule
  {
    if k == 0 then [(w, Send(High, data))] else DirectSteps(w, data, k - 1) + [(w, Nothing)]
  }

  lemma DirectStart(s: State, w: nat, data: seq<Byte>)
    requires w < |s.pcs| && Drained(s)
    ensures !s.closed && WorkerStep(s, w, Send(High, data)) == Direct(s, w, Msg(w, High, data), 0)
  {
  }

  lemma DirectFacts(s: State, w: nat, m: Msg, k: nat)
    requires w < |s.pcs| && Drained(s)
    ensures !Direct(s, w, m, k).closed && |Direct(s, w, m, k).pcs| == |s.pcs|
  {
  }

  lemma DirectMore(w: nat, data: seq<Byte>, k: nat)
    ensures DirectSteps(w, data, 0) == [(w, Send(High, data))]
    ensures k > 0 ==> DirectSteps(w, data, k) == DirectSteps(w, data, k - 1) + [(w, Nothing)]
  {
  }

  lemma {:induction false} DirectRun(s: State, w: nat, data: seq<Byte>, k: nat)
    requires Inv(s) && w < |s.pcs| && Drained(s) && k <= 8
    ensures RunFrom(s, DirectSteps(w, data, k)) == Direct(s, w, Msg(w, High, data), k)
  {
    hide *;
    NoneSending(s);
    DirectMore(w, data, k);
    if k == 0 {
      DirectStart(s, w, data);
      RunOne(s, w, Send(High, data));
      StepIs(s, w, Send(High, data));
    } else {
      DirectRun(s, w, data, k - 1);
      var before := RunFrom(s, DirectSteps(w, data, k - 1));
      DirectFacts(s, w, Msg(w, High, data), k - 1);
      RunOne(before, w, Nothing);
      RunMore(s, DirectSteps(w, data, k - 1), [(w, Nothing)]);
      StepIs(before, w, Nothing);
      DirectStep(s, w, Msg(w, High, data), k - 1);
    }
  }

  /** What a direct write does, when nothing is on its way. */
  predicate WroteDirectly(s: State, s': State, w: nat, m: Msg, k: nat)
    requires w < |s.pcs| == |s'.pcs| && k <= |m.data|
  {
    && s'.out == s.out + m.data[..k] && s'.pipe == [] && s'.high == [] && s'.low == []
    && (k == |m.data| ==> Drained(s') && s'.done == s.done + [m])
    && (k < |m.data| ==> s'.pcs[w] == Wrote(Buf(m, k)))
  }

  lemma DirectWrite(s: State, w: nat, m: Msg, k: nat)
    requires w < |s.pcs| && Drained(s) && k <= |m.data|
    ensures var s' := WorkerStep(Direct(s, w, m, 8), w, Accept(k));
            |s'.pcs| == |s.pcs| && WroteDirectly(s, s', w, m, k)
  {
    assert m.data[..|m.data|] == m.data;
  }

  /**
   * When nothing is on its way, a high message can be written by its worker itself, all of it or as much as the
   * write accepts; the rest is left to the socket thread, and nothing goes through the pipe.
   */
  lemma WrittenDirectly(s: State, w: nat, data: seq<Byte>, k: nat)
    requires Inv(s) && w < |s.pcs| && Drained(s) && k <= |data|
    ensures WroteDirectly(s, RunFrom(s, DirectSteps(w, data, 8) + [(w, Accept(k))]), w, Msg(w, High, data), k)
  {
    hide *;
    DirectRun(s, w, data, 8);
    var before := RunFrom(s, DirectSteps(w, data, 8));
    DirectFacts(s, w, Msg(w, High, data), 8);
    RunOne(before, w, Accept(k));
    RunMore(s, DirectSteps(w, data, 8), [(w, Accept(k))]);
    StepIs(before, w, Accept(k));
    DirectWrite(s, w, Msg(w, High, data), k);
  }
}
