/** From every state that a run of the scheduler can reach, the threads can go on until nothing is left to do. */
module Settling {
  import opened Scheduler
  import opened Delivery

  // ---------- How much is left to do ----------

  function PcWeight(pc: Pc): nat
  {
    match pc
    case Idle => 0
    case Pop => 1
    case Freeing(_, _) => 2
    case Draining(_, _) => 3
    case Dropping(_, _) => 4
    case Grabbed(_) => 4
    case Got(_, _) => 5
    case Have(_) => 5
    case Pushing(_) => 7
    case Retiring(_) => 7
    case SetInit(_) => 8
    case Ending(_) => 9
    case Sending(_, _) => 11
    case Creating(_) => 11
    case Swap(_, _) => 14
    case Releasing(_, k) => ThenWeight(k) + 2
    case Deleting(_, k) => ThenWeight(k) + 1
  }

  function ThenWeight(k: Then): nat
  {
    match k
    case ThenIdle => 0
    case ThenPop => 1
    case ThenHave(_) => 5
    case ThenInit(_) => 8
    case ThenRetire(_) => 7
    case ThenDrop(_) => 4
  }

  function ServiceWeight(v: Service): nat
  {
    2 * |v.messages| + (match v.life case Live => 8 case Dying(_) => 7 case Dead => 0)
  }

  function PcsWeight(pcs: seq<Pc>): nat
  {
    if pcs == [] then 0 else PcsWeight(pcs[..|pcs| - 1]) + PcWeight(pcs[|pcs| - 1])
  }

  function ServicesWeight(vs: seq<Service>): nat
  {
    if vs == [] then 0 else ServicesWeight(vs[..|vs| - 1]) + ServiceWeight(vs[|vs| - 1])
  }

  function Weight(s: State): nat
  {
    PcsWeight(s.pcs) + ServicesWeight(s.services) + 6 * |s.list|
  }

  lemma {:induction false} PcsUpdate(pcs: seq<Pc>, t: nat, pc: Pc)
    requires t < |pcs|
    ensures PcsWeight(pcs[t := pc]) + PcWeight(pcs[t]) == PcsWeight(pcs) + PcWeight(pc)
  {
    hide PcWeight;
    var n := |pcs| - 1;
    if t < n {
      PcsUpdate(pcs[..n], t, pc);
      assert pcs[t := pc][..n] == pcs[..n][t := pc];
    } else {
      assert pcs[t := pc][..n] == pcs[..n];
    }
  }

  /** Only the weight of service `a` changes. */
  lemma {:induction false} ServicesUpdate(vs: seq<Service>, vs': seq<Service>, a: nat)
    requires |vs| == |vs'|
    requires forall c | 0 <= c < |vs| && c != a :: ServiceWeight(vs'[c]) == ServiceWeight(vs[c])
    ensures if a < |vs| then ServicesWeight(vs') + ServiceWeight(vs[a]) == ServicesWeight(vs) + ServiceWeight(vs'[a])
            else ServicesWeight(vs') == ServicesWeight(vs)
  {
    hide ServiceWeight;
    if vs != [] { ServicesUpdate(vs[..|vs| - 1], vs'[..|vs| - 1], a); }
  }

  /** What a step of thread `t` changes: its place, the weight of one service at most, and the list. */
  predicate Lighter(s: State, s': State, t: nat, a: Id)
  {
    && t < |s.pcs| == |s'.pcs| && s'.pcs == s.pcs[t := s'.pcs[t]] && |s'.services| == |s.services|
    && (forall c | 0 <= c < |s.services| && c != a :: ServiceWeight(s'.services[c]) == ServiceWeight(s.services[c]))
    && PcWeight(s'.pcs[t]) + 6 * |s'.list| + (if a < |s.services| then ServiceWeight(s'.services[a]) else 0)
       < PcWeight(s.pcs[t]) + 6 * |s.list| + (if a < |s.services| then ServiceWeight(s.services[a]) else 0)
  }

  lemma LighterWeighs(s: State, s': State, t: nat, a: Id)
    requires Lighter(s, s', t, a)
    ensures Weight(s') < Weight(s)
  {
    PcsUpdate(s.pcs, t, s'.pcs[t]);
    ServicesUpdate(s.services, s'.services, a);
  }

  // ---------- Every step that can go on leaves less to do ----------

  /** A thread that cannot let go of a queue, because the context of the service is still there. */
  predicate Blocked(s: State, t: nat)
    requires t < |s.pcs|
  {
    s.pcs[t].Dropping? && s.pcs[t].q < |s.services| && !s.services[s.pcs[t].q].release
  }

  /** The service that a step may change but for its owner. */
  function Touched(pc: Pc): Id
  {
    match pc
    case Idle => 0
    case Pop => 0
    case Sending(c, _) => c
    case Releasing(c, _) => c
    case Deleting(c, _) => c
    case Creating(c) => c
    case SetInit(c) => c
    case Pushing(c) => c
    case Retiring(c) => c
    case _ => pc.q
  }

  lemma HolderLess(s: State, t: nat)
    requires Inv(s) && t < |s.pcs|
    requires s.pcs[t].Have? || s.pcs[t].Grabbed? || s.pcs[t].Got? || s.pcs[t].Draining? || s.pcs[t].Freeing?
    ensures Bounded(s) && Lighter(s, Step(s, t, Yes), t, Touched(s.pcs[t]))
  {
    Facts(s, t, Touched(s.pcs[t]));
    hide Inv, RefsOK, DyingOK, HeldOK, ListOK, InitOK, PcsOK, ServicesOK, ServiceOK, Holders;
  }

  lemma PopLess(s: State, t: nat)
    requires Inv(s) && t < |s.pcs| && s.pcs[t].Pop?
    ensures Bounded(s) && Lighter(s, Step(s, t, Yes), t, Touched(s.pcs[t]))
  {
    assert Bounded(s);
    hide Inv, RefsOK, DyingOK, HeldOK, ListOK, InitOK, PcsOK, ServicesOK, ServiceOK, Holds, Holders, PcOK;
  }

  lemma EndingLess(s: State, t: nat)
    requires Inv(s) && t < |s.pcs| && s.pcs[t].Ending?
    ensures Bounded(s) && Lighter(s, Step(s, t, Yes), t, Touched(s.pcs[t]))
  {
    Facts(s, t, Touched(s.pcs[t]));
    hide Inv, RefsOK, DyingOK, HeldOK, ListOK, InitOK, PcsOK, ServicesOK, ServiceOK, Holds, Holders, PcOK;
  }

  lemma SwapLess(s: State, t: nat)
    requires Inv(s) && t < |s.pcs| && s.pcs[t].Swap?
    ensures Bounded(s) && Lighter(s, Step(s, t, Yes), t, Touched(s.pcs[t]))
  {
    Facts(s, t, Touched(s.pcs[t]));
    hide Inv, RefsOK, DyingOK, HeldOK, ListOK, InitOK, PcsOK, ServicesOK, ServiceOK, Holds, Holders, PcOK;
  }

  lemma DroppingLess(s: State, t: nat)
    requires Inv(s) && t < |s.pcs| && s.pcs[t].Dropping? && !Blocked(s, t)
    ensures Bounded(s) && Lighter(s, Step(s, t, Yes), t, Touched(s.pcs[t]))
  {
    Facts(s, t, Touched(s.pcs[t]));
    hide Inv, RefsOK, DyingOK, HeldOK, ListOK, InitOK, PcsOK, ServicesOK, ServiceOK, Holds, Holders, PcOK;
  }

  lemma PushingLess(s: State, t: nat)
    requires Inv(s) && t < |s.pcs| && s.pcs[t].Pushing?
    ensures Bounded(s) && Lighter(s, Step(s, t, Yes), t, Touched(s.pcs[t]))
  {
    Facts(s, t, Touched(s.pcs[t]));
    hide Inv, RefsOK, DyingOK, HeldOK, ListOK, InitOK, PcsOK, ServicesOK, ServiceOK, Holds, Holders, PcOK;
  }

  lemma SendLess(s: State, t: nat)
    requires Inv(s) && t < |s.pcs| && s.pcs[t].Sending?
    ensures Bounded(s) && Lighter(s, Step(s, t, Yes), t, Touched(s.pcs[t]))
  {
    Facts(s, t, Touched(s.pcs[t]));
    hide Inv, RefsOK, DyingOK, HeldOK, ListOK, InitOK, PcsOK, ServicesOK, ServiceOK, Holders;
  }

  lemma ReleaseLess(s: State, t: nat)
    requires Inv(s) && t < |s.pcs|
    requires s.pcs[t].Releasing? || s.pcs[t].Deleting?
    ensures Bounded(s) && Lighter(s, Step(s, t, Yes), t, Touched(s.pcs[t]))
  {
    var c := Touched(s.pcs[t]);
    Facts(s, t, c);
    hide Inv, RefsOK, DyingOK, HeldOK, ListOK, InitOK, PcsOK, ServicesOK, Holders;
    assert s.pcs[t].Deleting? ==> Deletes(s.pcs[t], c);
  }

  lemma CreateLess(s: State, t: nat)
    requires Inv(s) && t < |s.pcs| && (s.pcs[t].Creating? || s.pcs[t].SetInit?)
    ensures Bounded(s) && Lighter(s, Step(s, t, Yes), t, Touched(s.pcs[t]))
  {
    Facts(s, t, Touched(s.pcs[t]));
    hide Inv, RefsOK, DyingOK, HeldOK, ListOK, InitOK, PcsOK, ServicesOK, ServiceOK, Holds, Holders, PcOK;
  }

  lemma RetireLess(s: State, t: nat)
    requires Inv(s) && t < |s.pcs| && s.pcs[t].Retiring?
    ensures Bounded(s) && Lighter(s, Step(s, t, Yes), t, Touched(s.pcs[t]))
  {
    Facts(s, t, Touched(s.pcs[t]));
    hide Inv, RefsOK, DyingOK, HeldOK, ListOK, InitOK, PcsOK, ServicesOK, ServiceOK, Holds, Holders, PcOK;
  }

  lemma StepLess(s: State, t: nat)
    requires Inv(s) && t < |s.pcs| && !s.pcs[t].Idle? && !Blocked(s, t)
    ensures Bounded(s) && Weight(Step(s, t, Yes)) < Weight(s)
  {
    hide Inv, Step, Lighter, Weight, Blocked;
    var pc := s.pcs[t];
    if pc.Have? || pc.Grabbed? || pc.Got? || pc.Draining? || pc.Freeing? { HolderLess(s, t); }
    else if pc.Pop? { PopLess(s, t); }
    else if pc.Ending? { EndingLess(s, t); }
    else if pc.Swap? { SwapLess(s, t); }
    else if pc.Dropping? { DroppingLess(s, t); }
    else if pc.Pushing? { PushingLess(s, t); }
    else if pc.Retiring? { RetireLess(s, t); }
    else if pc.Sending? { SendLess(s, t); }
    else if pc.Releasing? || pc.Deleting? { ReleaseLess(s, t); }
    else { CreateLess(s, t); }
    LighterWeighs(s, Step(s, t, Yes), t, Touched(pc));
  }

  /** When a thread waits for a context to go, some other thread has a reference to it or is deleting it. */
  lemma Unblocker(s: State, t: nat) returns (u: nat)
    requires Inv(s) && t < |s.pcs| && Blocked(s, t)
    ensures u < |s.pcs| && !s.pcs[u].Idle? && !Blocked(s, u)
  {
    var c := s.pcs[t].q;
    var v := s.services[c];
    assert PcOK(s, s.pcs[t]) && ServiceOK(v);
    if v.life.Dying? {
      u := v.life.t;
      assert s.pcs[u].Deleting?;
    } else {
      assert v.ref > 0 && |Holders(s.pcs, c)| > 0;
      u :| u in Holders(s.pcs, c);
    }
  }

  // ---------- Runs that settle ----------

  /** No thread has anything to do, and no queue is listed. */
  predicate Quiet(s: State)
  {
    s.list == [] && forall t | 0 <= t < |s.pcs| :: s.pcs[t].Idle?
  }

  lemma RunOne(s: State, t: nat, ch: Choice)
    requires Inv(s) && t < |s.pcs|
    ensures Bounded(s) && Run(s, [(t, ch)]) == Step(s, t, ch)
  {
    var one := [(t, ch)];
    assert one[..0] == [];
    assert Run(s, []) == s;
  }

  lemma {:induction false} RunMore(s: State, a: Schedule, b: Schedule)
    requires Inv(s)
    ensures Run(s, a + b) == Run(Run(s, a), b)
    decreases |b|
  {
    hide Inv, Step;
    if b == [] {
      assert a + b == a;
    } else {
      var k := |b| - 1;
      RunMore(s, a, b[..k]);
      assert (a + b)[..|a + b| - 1] == a + b[..k];
    }
  }

  /** A worker that starts when nothing else is going on takes a queue. */
  lemma WorkerStarts(s: State)
    requires Inv(s) && |s.pcs| > 0 && s.list != [] && s.pcs[0].Idle?
    ensures Weight(Run(s, [(0, StartWorker)] + [(0, Yes)])) < Weight(s)
  {
    hide *;
    RunOne(s, 0, StartWorker);
    StepKeeps(s, 0, StartWorker);
    var s1 := Step(s, 0, StartWorker);
    RunOne(s1, 0, Yes);
    RunMore(s, [(0, StartWorker)], [(0, Yes)]);
    WorkerTakes(s);
  }

  lemma WorkerTakes(s: State)
    requires Inv(s) && |s.pcs| > 0 && s.list != [] && s.pcs[0].Idle?
    ensures Bounded(s) && Bounded(Step(s, 0, StartWorker)) && |Step(s, 0, StartWorker).pcs| > 0
    ensures Weight(Step(Step(s, 0, StartWorker), 0, Yes)) < Weight(s)
  {
    StepKeeps(s, 0, StartWorker);
    assert s.list[0] < |s.services|;
    hide Inv, Bounded, Weight;
    var s1 := SetPc(s, 0, Pop);
    assert Step(s, 0, StartWorker) == s1;
    var s2 := Step(s1, 0, Yes);
    assert s2.pcs == s.pcs[0 := Have(s.list[0])];
    LighterWeighs(s, s2, 0, s.list[0]);
  }

  /** While not everything is quiet, some steps leave less to do. */
  lemma Less(s: State) returns (more: Schedule)
    requires Inv(s) && |s.pcs| > 0 && !Quiet(s)
    ensures Weight(Run(s, more)) < Weight(s)
  {
    hide Inv, Weight, Step, Blocked;
    if t: nat :| t < |s.pcs| && !s.pcs[t].Idle? {
      var u := t;
      if Blocked(s, t) { u := Unblocker(s, t); }
      StepLess(s, u);
      RunOne(s, u, Yes);
      more := [(u, Yes)];
    } else {
      WorkerStarts(s);
      more := [(0, StartWorker)] + [(0, Yes)];
    }
  }

  lemma {:induction false} Settles(s: State) returns (more: Schedule)
    requires Inv(s) && |s.pcs| > 0
    ensures Quiet(Run(s, more))
    decreases Weight(s)
  {
    hide Inv, Weight, Quiet;
    if Quiet(s) {
      more := [];
      assert Run(s, []) == s;
    } else {
      var a := Less(s);
      var b := Settles(Run(s, a));
      RunMore(s, a, b);
      more := a + b;
    }
  }

  /**
   * Every run can go on until nothing is left to do. Then every message of every send that found its handle has been
   * pushed, in the order of the sends of a thread, and the callback of a service that was not retired was called once
   * for each, in the order of the pushes; a service that was retired is freed.
   */
  lemma AllDelivered(n: nat, schedule: Schedule) returns (more: Schedule)
    requires n > 0
    ensures var (all, s) := (schedule + more, After(n, schedule + more));
            && Quiet(s)
            && (forall c, t | 0 <= c < |s.services| && 0 <= t < n ::
                  By(Sends(n, all, c), t) == By(Pushes(n, all, c), t))
            && forall c | 0 <= c < |s.services| ::
                 if WasRetired(n, all, c) then s.services[c].freed
                 else s.services[c].messages == [] && Calls(n, all, c) == Msgs(Pushes(n, all, c))
  {
    more := Settles(After(n, schedule));
    RunMore(Init(n), schedule, more);
    var all := schedule + more;
    var s := After(n, all);
    assert s == Run(After(n, schedule), more);
    QuietIs(s);
    hide *;
    QuietThreads(s);
    forall c, t | 0 <= c < |s.services| && 0 <= t < n
      ensures By(Sends(n, all, c), t) == By(Pushes(n, all, c), t)
    {
      SentIsPushed(n, all, t, c);
      IdleNotPending(s.pcs[t], c);
    }
    forall c | 0 <= c < |s.services|
      ensures if WasRetired(n, all, c) then s.services[c].freed
              else s.services[c].messages == [] && Calls(n, all, c) == Msgs(Pushes(n, all, c))
    {
      QuietService(n, all, c);
    }
  }

  lemma QuietIs(s: State)
    requires Quiet(s)
    ensures s.list == [] && forall t | 0 <= t < |s.pcs| :: s.pcs[t].Idle?
  {
  }

  lemma QuietThreads(s: State)
    requires forall t | 0 <= t < |s.pcs| :: s.pcs[t].Idle?
    ensures forall t | 0 <= t < |s.pcs| :: s.pcs[t] == Idle
  {
  }

  lemma IdleNotPending(pc: Pc, c: Id)
    requires pc == Idle
    ensures Pending(pc, c) == []
  {
  }

  lemma QuietService(n: nat, schedule: Schedule, c: Id)
    requires var s := After(n, schedule);
             c < |s.services| && s.list == [] && forall t | 0 <= t < n :: s.pcs[t].Idle?
    ensures var s := After(n, schedule);
            if WasRetired(n, schedule, c) then s.services[c].freed
            else s.services[c].messages == [] && Calls(n, schedule, c) == Msgs(Pushes(n, schedule, c))
  {
    hide WasRetired, Calls, Pushes, After;
    QuietIsDone(n, schedule, c);
    RegisteredUntilRetired(n, schedule, c);
    CalledInOrder(n, schedule, c);
    var s := After(n, schedule);
    assert ServiceOK(s.services[c]);
  }
}
