/**
 * The actor scheduler of skynet_mq.c and skynet_server.c as atomic steps of any number of threads: workers that
 * dispatch message queues, and operations that send, create and retire.
 *
 * A service and its queue are named by one number, its handle, which is never used again. A thread stands for one
 * activity: a callback that sends or creates does so as another thread.
 */
module Scheduler {

  type Id = nat
  type Msg = nat

  /** Where a queue is. HeldBy covers workers and creators. */
  datatype Owner = Nobody | Listed | HeldBy(t: nat)

  /** Whether the context of a service exists: Dying while thread `t` is deleting it, Dead once its queue is marked. */
  datatype Life = Live | Dying(t: nat) | Dead

  /** What became of a message that was taken from its queue. */
  datatype Taken = Dispatched(m: Msg) | Dropped(m: Msg)

  /** A service: its context (`ref`, `registered`, `init`) and its queue; the last four fields record its history. */
  datatype Service = Service(
    ref: int, registered: bool, init: bool,
    inGlobal: bool, release: bool, freed: bool, messages: seq<Msg>,
    owner: Owner, life: Life, pushed: seq<Msg>, taken: seq<Taken>)

  /** What a thread does after releasing a context. */
  datatype Then =
    | ThenIdle
    | ThenPop             // take another queue from the global list
    | ThenHave(q: Id)     // go on with queue q
    | ThenInit(c: Id)     // creation succeeded
    | ThenRetire(c: Id)   // creation failed
    | ThenDrop(c: Id)     // creation failed and the handle is gone

  /** Where a thread is, with the queues it holds. */
  datatype Pc =
    | Idle
    | Pop                             // about to take a queue from the global list
    | Have(q: Id)                     // has a queue, about to look up its context
    | Grabbed(q: Id)                  // also has a reference, about to take a message
    | Got(q: Id, m: Msg)              // the callback of the service is running on m
    | Ending(q: Id)                   // done with the queue for now, about to look for another
    | Swap(q: Id, nq: Id)             // has found nq, about to put q back
    | Dropping(q: Id, worker: bool)   // the context is gone, a worker or creator is about to release the queue
    | Draining(q: Id, worker: bool)   // the queue is marked: dropping what is left
    | Freeing(q: Id, worker: bool)
    | Sending(c: Id, m: Msg)          // has a reference, about to push m
    | Releasing(c: Id, k: Then)       // about to give its reference back
    | Deleting(c: Id, k: Then)        // gave the last reference back, about to mark the queue
    | Creating(c: Id)                 // the service is initialising itself
    | SetInit(c: Id)
    | Pushing(c: Id)                  // about to put the new queue on the global list
    | Retiring(c: Id)                 // creation failed, about to take the handle away

  datatype State = State(services: seq<Service>, list: seq<Id>, pcs: seq<Pc>)

  /** What a thread chooses where the program, its environment or its timing decides. */
  datatype Choice = Stay | StartWorker | StartSend(c: Id, m: Msg) | StartCreate | StartRetire(c: Id) | Yes | No

  // ---------- Steps ----------

  function SetPc(s: State, t: nat, pc: Pc): State
    requires t < |s.pcs|
  {
    s.(pcs := s.pcs[t := pc])
  }

  function SetService(s: State, c: Id, v: Service): State
    requires c < |s.services|
  {
    s.(services := s.services[c := v])
  }

  /** Append to the global list. */
  function GlobalPush(s: State, c: Id): State
    requires c < |s.services|
  {
    SetService(s, c, s.services[c].(owner := Listed)).(list := s.list + [c])
  }

  /** Take the first queue of the global list; thread `t` has it. */
  function GlobalPop(s: State, t: nat): State
    requires |s.list| > 0 && s.list[0] < |s.services|
  {
    var q := s.list[0];
    SetService(s, q, s.services[q].(owner := HeldBy(t))).(list := s.list[1..])
  }

  /** Look a handle up and take a reference. */
  function Grab(s: State, c: Id): State
    requires c < |s.services|
  {
    SetService(s, c, s.services[c].(ref := s.services[c].ref + 1))
  }

  predicate Registered(s: State, c: Id)
  {
    c < |s.services| && s.services[c].registered
  }

  /** Where a thread goes on. */
  function Go(k: Then): Pc
  {
    match k
    case ThenIdle => Idle
    case ThenPop => Pop
    case ThenHave(q) => Have(q)
    case ThenInit(c) => SetInit(c)
    case ThenRetire(c) => Retiring(c)
    case ThenDrop(c) => Dropping(c, false)
  }

  /** The same after the thread itself deleted the context: a created service is not marked as initialised then. */
  function GoDeleted(k: Then): Pc
  {
    if k.ThenInit? then Pushing(k.c) else Go(k)
  }

  function AfterDrop(worker: bool): Pc
  {
    if worker then Pop else Idle
  }

  const NEW: Service :=
    Service(2, true, false, true, false, false, [], Nobody, Live, [], [])

  /** skynet_mq_push. */
  function MqPush(s: State, c: Id, m: Msg): State
    requires c < |s.services|
  {
    var v := s.services[c];
    var v1 := v.(messages := v.messages + [m], pushed := v.pushed + [m]);
    if v.inGlobal then SetService(s, c, v1)
    else GlobalPush(SetService(s, c, v1.(inGlobal := true)), c)
  }

  /** skynet_mq_mark_release. */
  function MarkRelease(s: State, c: Id): State
    requires c < |s.services|
  {
    var v := s.services[c].(release := true, life := Dead);
    if v.inGlobal then SetService(s, c, v) else GlobalPush(SetService(s, c, v), c)
  }

  /** All services that a thread names exist. */
  predicate NamedThen(k: Then, n: nat)
  {
    match k
    case ThenHave(q) => q < n
    case ThenInit(c) => c < n
    case ThenRetire(c) => c < n
    case ThenDrop(c) => c < n
    case _ => true
  }

  predicate Named(pc: Pc, n: nat)
  {
    match pc
    case Idle => true
    case Pop => true
    case Swap(q, nq) => q < n && nq < n
    case Releasing(c, k) => c < n && NamedThen(k, n)
    case Deleting(c, k) => c < n && NamedThen(k, n)
    case Sending(c, _) => c < n
    case Creating(c) => c < n
    case SetInit(c) => c < n
    case Pushing(c) => c < n
    case Retiring(c) => c < n
    case _ => pc.q < n
  }

  predicate Bounded(s: State)
  {
    && (forall k | 0 <= k < |s.list| :: s.list[k] < |s.services|)
    && (forall t | 0 <= t < |s.pcs| :: Named(s.pcs[t], |s.services|))
  }

  /** One step of thread `t`. */
  function Step(s: State, t: nat, ch: Choice): State
    requires t < |s.pcs| && Bounded(s)
  {
    match s.pcs[t]
    case Idle => StepIdle(s, t, ch)
    case Pop => if s.list == [] then SetPc(s, t, Idle) else SetPc(GlobalPop(s, t), t, Have(s.list[0]))
    case Have(q) =>
      if Registered(s, q) then SetPc(Grab(s, q), t, Grabbed(q)) else SetPc(s, t, Dropping(q, true))
    case Grabbed(q) =>
      var v := s.services[q];
      if v.messages == [] then
        SetPc(SetService(s, q, v.(inGlobal := false, owner := Nobody)), t, Releasing(q, ThenPop))
      else
        SetPc(SetService(s, q, v.(messages := v.messages[1..], taken := v.taken + [Dispatched(v.messages[0])])),
              t, Got(q, v.messages[0]))
    case Got(q, _) => SetPc(s, t, if ch == Yes then Grabbed(q) else Ending(q))
    case Ending(q) =>
      if s.list == [] then SetPc(s, t, Releasing(q, ThenHave(q)))
      else SetPc(GlobalPop(s, t), t, Swap(q, s.list[0]))
    case Swap(q, nq) => SetPc(GlobalPush(s, q), t, Releasing(q, ThenHave(nq)))
    case Dropping(q, worker) =>
      if s.services[q].release then SetPc(s, t, Draining(q, worker)) else SetPc(GlobalPush(s, q), t, AfterDrop(worker))
    case Draining(q, worker) =>
      var v := s.services[q];
      if v.messages == [] then SetPc(SetService(s, q, v.(inGlobal := false)), t, Freeing(q, worker))
      else
        SetService(s, q, v.(messages := v.messages[1..], taken := v.taken + [Dropped(v.messages[0])]))
    case Freeing(q, worker) =>
      SetPc(SetService(s, q, s.services[q].(freed := true, owner := Nobody)), t, AfterDrop(worker))
    case Sending(c, m) => SetPc(MqPush(s, c, m), t, Releasing(c, ThenIdle))
    case Releasing(c, k) =>
      var v := s.services[c];
      if v.ref == 1 then SetPc(SetService(s, c, v.(ref := 0, life := Dying(t))), t, Deleting(c, k))
      else SetPc(SetService(s, c, v.(ref := v.ref - 1)), t, Go(k))
    case Deleting(c, k) => SetPc(MarkRelease(s, c), t, GoDeleted(k))
    case Creating(c) =>
      SetPc(s, t, if ch == Yes then Releasing(c, ThenInit(c)) else Releasing(c, ThenRetire(c)))
    case SetInit(c) => SetPc(SetService(s, c, s.services[c].(init := true)), t, Pushing(c))
    case Pushing(c) => SetPc(GlobalPush(s, c), t, Idle)
    case Retiring(c) =>
      if Registered(s, c) then
        SetPc(SetService(s, c, s.services[c].(registered := false)), t, Releasing(c, ThenDrop(c)))
      else SetPc(s, t, Dropping(c, false))
  }

  function StepIdle(s: State, t: nat, ch: Choice): State
    requires t < |s.pcs|
  {
    match ch
    case StartWorker => SetPc(s, t, Pop)
    case StartSend(c, m) => if Registered(s, c) then SetPc(Grab(s, c), t, Sending(c, m)) else s
    case StartCreate =>
      var s1 := s.(services := s.services + [NEW.(owner := HeldBy(t))]);
      SetPc(s1, t, Creating(|s.services|))
    case StartRetire(c) =>
      if Registered(s, c) then
        SetPc(SetService(s, c, s.services[c].(registered := false)), t, Releasing(c, ThenIdle))
      else s
    case _ => s
  }

  /** The queues that a thread holds. */
  function HoldsThen(k: Then): set<Id>
  {
    match k
    case ThenHave(q) => {q}
    case ThenInit(c) => {c}
    case ThenRetire(c) => {c}
    case ThenDrop(c) => {c}
    case _ => {}
  }

  function Holds(pc: Pc): set<Id>
  {
    match pc
    case Have(q) => {q}
    case Grabbed(q) => {q}
    case Got(q, _) => {q}
    case Ending(q) => {q}
    case Swap(q, nq) => {q, nq}
    case Dropping(q, _) => {q}
    case Draining(q, _) => {q}
    case Freeing(q, _) => {q}
    case Releasing(_, k) => HoldsThen(k)
    case Deleting(_, k) => HoldsThen(k)
    case Creating(c) => {c}
    case SetInit(c) => {c}
    case Pushing(c) => {c}
    case Retiring(c) => {c}
    case _ => {}
  }

  datatype MaybeId = None | Some(c: Id)

  /** The service to which a thread has a reference. */
  function RefOf(pc: Pc): MaybeId
  {
    match pc
    case Grabbed(q) => Some(q)
    case Got(q, _) => Some(q)
    case Ending(q) => Some(q)
    case Swap(q, _) => Some(q)
    case Sending(c, _) => Some(c)
    case Releasing(c, _) => Some(c)
    case Creating(c) => Some(c)
    case _ => None
  }

  // ---------- What every run keeps ----------

  /** The global list holds each queue at most once, and exactly the listed ones. */
  predicate ListOK(s: State)
  {
    && (forall j, k | 0 <= j < k < |s.list| :: s.list[j] != s.list[k])
    && (forall c | 0 <= c < |s.services| :: s.services[c].owner == Listed <==> c in s.list)
  }

  /** A queue is held by the thread that owns it, and by no other. */
  predicate HeldOK(s: State)
  {
    && (forall c, t | 0 <= c < |s.services| && 0 <= t < |s.pcs| ::
          s.services[c].owner == HeldBy(t) <==> c in Holds(s.pcs[t]))
    && (forall c | 0 <= c < |s.services| :: s.services[c].owner.HeldBy? ==> s.services[c].owner.t < |s.pcs|)
    && (forall t | 0 <= t < |s.pcs| :: s.pcs[t].Swap? ==> s.pcs[t].q != s.pcs[t].nq)
  }

  /** The threads that have a reference to `c`. */
  function Holders(pcs: seq<Pc>, c: Id): set<nat>
  {
    set t | 0 <= t < |pcs| && RefOf(pcs[t]) == Some(c)
  }

  /** A reference count counts the handle table and the threads that have a reference. */
  predicate RefsOK(s: State)
  {
    forall c | 0 <= c < |s.services| ::
      s.services[c].ref == |Holders(s.pcs, c)| + (if s.services[c].registered then 1 else 0)
  }

  /** A context without references is being deleted by one thread, or was. */
  predicate DyingOK(s: State)
  {
    && (forall c, t | 0 <= c < |s.services| && 0 <= t < |s.pcs| ::
          s.services[c].life == Dying(t) <==> s.pcs[t].Deleting? && s.pcs[t].c == c)
    && (forall c | 0 <= c < |s.services| :: s.services[c].life.Dying? ==> s.services[c].life.t < |s.pcs|)
  }

  function Messages(taken: seq<Taken>): seq<Msg>
  {
    seq(|taken|, k requires 0 <= k < |taken| => taken[k].m)
  }

  /** Messages are dropped only when no more will be dispatched. */
  predicate DroppedLast(taken: seq<Taken>)
  {
    forall j, k | 0 <= j < k < |taken| :: taken[j].Dropped? ==> taken[k].Dropped?
  }

  predicate ServiceOK(v: Service)
  {
    && (v.life.Live? <==> v.ref > 0) && v.ref >= 0
    && (v.release <==> v.life.Dead?)
    && (!v.freed ==> (v.owner != Nobody <==> v.inGlobal || v.release))
    && (v.freed ==> v.release && v.owner == Nobody && v.messages == [])
    && (v.messages != [] ==> v.inGlobal || v.release)
    && v.pushed == Messages(v.taken) + v.messages
    && DroppedLast(v.taken)
    && (!v.release ==> forall k | 0 <= k < |v.taken| :: v.taken[k].Dispatched?)
  }

  predicate ServicesOK(s: State)
  {
    forall c | 0 <= c < |s.services| :: ServiceOK(s.services[c])
  }

  /** What a thread knows about the services it deals with. */
  predicate PcOK(s: State, pc: Pc)
    requires Named(pc, |s.services|)
  {
    match pc
    case Grabbed(q) => s.services[q].init
    case Got(q, _) => s.services[q].init
    case Ending(q) => s.services[q].init
    case Swap(q, _) => s.services[q].init
    case Dropping(q, _) => !s.services[q].registered
    case Draining(q, _) => s.services[q].release
    case Freeing(q, _) => s.services[q].release && s.services[q].messages == []
    case Releasing(c, k) => ThenOK(s, c, k)
    case Deleting(c, k) => ThenOK(s, c, k)
    case _ => true
  }

  predicate ThenOK(s: State, c: Id, k: Then)
    requires c < |s.services|
  {
    match k
    case ThenInit(c') => c' == c
    case ThenRetire(c') => c' == c
    case ThenDrop(c') => c' == c && !s.services[c].registered
    case _ => true
  }

  predicate PcsOK(s: State)
    requires Bounded(s)
  {
    forall t | 0 <= t < |s.pcs| :: PcOK(s, s.pcs[t])
  }

  /** The service that a thread is creating and has not marked as initialised. */
  function CreationOf(pc: Pc): MaybeId
  {
    match pc
    case Creating(c) => Some(c)
    case SetInit(c) => Some(c)
    case Retiring(c) => Some(c)
    case Releasing(_, ThenInit(c)) => Some(c)
    case Releasing(_, ThenRetire(c)) => Some(c)
    case _ => None
  }

  /** A service that can still be found but is not initialised is with its creator. */
  predicate InitOK(s: State)
    requires HeldOK(s)
  {
    forall c | 0 <= c < |s.services| && s.services[c].registered && !s.services[c].init ::
      s.services[c].owner.HeldBy? && CreationOf(s.pcs[s.services[c].owner.t]) == Some(c)
  }

  predicate Inv(s: State)
  {
    Bounded(s) && ListOK(s) && HeldOK(s) && RefsOK(s) && DyingOK(s) && ServicesOK(s) && PcsOK(s) && InitOK(s)
  }

  // ---------- Steps keep it ----------

  /** Only thread `t`, the services `a` and `b`, and the global list changed. */
  predicate Frame(s: State, s': State, t: nat, a: Id, b: Id)
  {
    && t < |s.pcs| && |s'.pcs| == |s.pcs| && a < |s.services| && b < |s.services| && |s'.services| == |s.services|
    && s'.pcs == s.pcs[t := s'.pcs[t]]
    && (forall c | 0 <= c < |s.services| && c != a && c != b :: s'.services[c] == s.services[c])
  }

  /** The list changed by at most one queue at its ends. */
  predicate ListStep(s: State, s': State, a: Id, b: Id)
    requires a < |s.services| == |s'.services| && b < |s.services|
  {
    var (va, va', vb, vb') := (s.services[a].owner, s'.services[a].owner, s.services[b].owner, s'.services[b].owner);
    || (s'.list == s.list && (va == Listed <==> va' == Listed) && (vb == Listed <==> vb' == Listed))
    || (s'.list == s.list + [a] && va != Listed && va' == Listed && ((vb == Listed <==> vb' == Listed) || b == a))
    || (s.list != [] && s'.list == s.list[1..] && s.list[0] == a && va' != Listed
        && ((vb == Listed <==> vb' == Listed) || b == a))
  }

  lemma KeepsList(s: State, s': State, t: nat, a: Id, b: Id)
    requires Bounded(s) && ListOK(s) && Frame(s, s', t, a, b) && ListStep(s, s', a, b)
    ensures ListOK(s') && forall k | 0 <= k < |s'.list| :: s'.list[k] < |s'.services|
  {
    if s'.list == s.list + [a] {
      forall c | 0 <= c < |s.services| ensures c in s'.list <==> c in s.list || c == a {}
    } else if s'.list != s.list {
      forall c | 0 <= c < |s.services| ensures c in s'.list <==> c in s.list && c != a {
        if c in s.list && c != a {
          var k :| 0 <= k < |s.list| && s.list[k] == c;
          assert s'.list[k - 1] == c;
        }
        if c in s'.list {
          var k :| 0 <= k < |s'.list| && s'.list[k] == c;
          assert s.list[k + 1] == c;
        }
      }
    }
  }

  /** Thread `t` may give `a` or `b` away, get them, or keep them. */
  predicate OwnerStep(v: Service, v': Service, t: nat, held: bool)
  {
    && (v'.owner == HeldBy(t) <==> held)
    && (v'.owner == v.owner || ((v.owner.HeldBy? ==> v.owner.t == t) && (v'.owner.HeldBy? ==> v'.owner.t == t)))
  }

  lemma KeepsHeld(s: State, s': State, t: nat, a: Id, b: Id)
    requires HeldOK(s) && Frame(s, s', t, a, b)
    requires OwnerStep(s.services[a], s'.services[a], t, a in Holds(s'.pcs[t]))
    requires OwnerStep(s.services[b], s'.services[b], t, b in Holds(s'.pcs[t]))
    requires forall c | c != a && c != b :: c in Holds(s'.pcs[t]) <==> c in Holds(s.pcs[t])
    requires s'.pcs[t].Swap? ==> s'.pcs[t].q != s'.pcs[t].nq
    ensures HeldOK(s')
  {
  }

  predicate LifeStep(v: Service, v': Service, t: nat, dying: bool)
  {
    && (v'.life == Dying(t) <==> dying)
    && (v'.life == v.life || ((v.life.Dying? ==> v.life.t == t) && (v'.life.Dying? ==> v'.life.t == t)))
  }

  predicate Deletes(pc: Pc, c: Id)
  {
    pc.Deleting? && pc.c == c
  }

  lemma KeepsDying(s: State, s': State, t: nat, a: Id, b: Id)
    requires DyingOK(s) && Frame(s, s', t, a, b)
    requires LifeStep(s.services[a], s'.services[a], t, Deletes(s'.pcs[t], a))
    requires LifeStep(s.services[b], s'.services[b], t, Deletes(s'.pcs[t], b))
    requires forall c | c != a && c != b :: Deletes(s'.pcs[t], c) <==> Deletes(s.pcs[t], c)
    ensures DyingOK(s')
  {
    forall c, u | 0 <= c < |s'.services| && 0 <= u < |s'.pcs|
      ensures s'.services[c].life == Dying(u) <==> Deletes(s'.pcs[u], c)
    {
      assert s.services[c].life == Dying(u) <==> Deletes(s.pcs[u], c);
    }
  }

  /** What other threads know stays true. */
  predicate Monotone(v: Service, v': Service)
  {
    && (v.init ==> v'.init) && (v'.registered ==> v.registered) && (v.release ==> v'.release)
    && (v.release && v.messages == [] ==> v'.messages == [])
  }

  lemma KeepsPcs(s: State, s': State, t: nat, a: Id, b: Id)
    requires Bounded(s) && PcsOK(s) && Frame(s, s', t, a, b) && Bounded(s')
    requires Monotone(s.services[a], s'.services[a]) && Monotone(s.services[b], s'.services[b])
    requires PcOK(s', s'.pcs[t])
    ensures PcsOK(s')
  {
    forall u | 0 <= u < |s.pcs| && u != t ensures PcOK(s', s.pcs[u]) {
      assert Named(s.pcs[u], |s.services|) && PcOK(s, s.pcs[u]);
      forall c | 0 <= c < |s.services| ensures Monotone(s.services[c], s'.services[c]) {}
      PcKept(s, s', s.pcs[u]);
    }
  }

  lemma PcKept(s: State, s': State, pc: Pc)
    requires |s'.services| == |s.services| && Named(pc, |s.services|) && PcOK(s, pc)
    requires forall c | 0 <= c < |s.services| :: Monotone(s.services[c], s'.services[c])
    ensures PcOK(s', pc)
  {
  }

  lemma KeepsInit(s: State, s': State, t: nat, a: Id, b: Id)
    requires HeldOK(s) && InitOK(s) && Frame(s, s', t, a, b) && HeldOK(s')
    requires forall c | c == a || c == b :: s'.services[c].registered && !s'.services[c].init ==>
               s'.services[c].owner.HeldBy? && CreationOf(s'.pcs[s'.services[c].owner.t]) == Some(c)
    requires forall c | c != a && c != b :: CreationOf(s.pcs[t]) == Some(c) ==> CreationOf(s'.pcs[t]) == Some(c)
    ensures InitOK(s')
  {
  }

  /** How a change of one thread changes who has references. */
  lemma HoldersUpdate(pcs: seq<Pc>, t: nat, pc: Pc, c: Id)
    requires t < |pcs|
    ensures |Holders(pcs[t := pc], c)| + (if RefOf(pcs[t]) == Some(c) then 1 else 0)
              == |Holders(pcs, c)| + (if RefOf(pc) == Some(c) then 1 else 0)
  {
    var h, h' := Holders(pcs, c), Holders(pcs[t := pc], c);
    assert h - {t} == h' - {t};
    assert (t in h <==> RefOf(pcs[t]) == Some(c)) && (t in h' <==> RefOf(pc) == Some(c));
    assert |h - {t}| == |h| - (if t in h then 1 else 0);
    assert |h' - {t}| == |h'| - (if t in h' then 1 else 0);
  }

  /** References and registration of one service, without the other threads. */
  function Count(v: Service, pc: Pc, c: Id): int
  {
    v.ref - (if v.registered then 1 else 0) - (if RefOf(pc) == Some(c) then 1 else 0)
  }

  lemma KeepsRefs(s: State, s': State, t: nat, a: Id, b: Id)
    requires RefsOK(s) && Frame(s, s', t, a, b)
    requires Count(s'.services[a], s'.pcs[t], a) == Count(s.services[a], s.pcs[t], a)
    requires Count(s'.services[b], s'.pcs[t], b) == Count(s.services[b], s.pcs[t], b)
    requires forall c | c != a && c != b :: RefOf(s'.pcs[t]) == Some(c) <==> RefOf(s.pcs[t]) == Some(c)
    ensures RefsOK(s')
  {
    forall c | 0 <= c < |s.services|
      ensures s'.services[c].ref == |Holders(s'.pcs, c)| + (if s'.services[c].registered then 1 else 0)
    {
      HoldersUpdate(s.pcs, t, s'.pcs[t], c);
    }
  }

  /** A step of thread `t` that deals with services `a` and `b` as it may. */
  predicate Local(s: State, s': State, t: nat, a: Id, b: Id)
    requires Frame(s, s', t, a, b)
  {
    var (pc, pc', va, va', vb, vb') := (s.pcs[t], s'.pcs[t], s.services[a], s'.services[a], s.services[b],
        s'.services[b]);
    && ListStep(s, s', a, b)
    && OwnerStep(va, va', t, a in Holds(pc')) && OwnerStep(vb, vb', t, b in Holds(pc'))
    && Holds(pc') - {a, b} == Holds(pc) - {a, b} && (pc'.Swap? ==> pc'.q != pc'.nq)
    && LifeStep(va, va', t, Deletes(pc', a)) && LifeStep(vb, vb', t, Deletes(pc', b))
    && (pc'.Deleting? ==> pc'.c == a || pc'.c == b) && (pc.Deleting? ==> pc.c == a || pc.c == b)
    && Monotone(va, va') && Monotone(vb, vb') && Named(pc', |s.services|) && PcOK(s', pc')
    && InitStep(s', t, a) && InitStep(s', t, b)
    && (CreationOf(pc).Some? ==> CreationOf(pc).c == a || CreationOf(pc).c == b || CreationOf(pc') == CreationOf(pc))
    && Count(va', pc', a) == Count(va, pc, a) && Count(vb', pc', b) == Count(vb, pc, b)
    && (RefOf(pc') == RefOf(pc) || ((RefOf(pc').Some? ==> RefOf(pc').c == a) && (RefOf(pc).Some? ==> RefOf(pc).c == a)))
    && ServiceOK(va') && ServiceOK(vb')
  }

  /** A findable service without its mark is with its creator: with thread `t`, or with another as before. */
  predicate InitStep(s': State, t: nat, c: Id)
    requires c < |s'.services| && t < |s'.pcs|
  {
    var v := s'.services[c];
    v.registered && !v.init ==>
      v.owner.HeldBy? && v.owner.t < |s'.pcs| && CreationOf(s'.pcs[v.owner.t]) == Some(c)
  }

  lemma Keeps(s: State, s': State, t: nat, a: Id, b: Id)
    requires Inv(s) && Frame(s, s', t, a, b) && Local(s, s', t, a, b)
    ensures Inv(s')
  {
    assert forall c | c != a && c != b :: c in Holds(s'.pcs[t]) <==> c in Holds(s'.pcs[t]) - {a, b};
    assert forall c | c != a && c != b :: c in Holds(s.pcs[t]) <==> c in Holds(s.pcs[t]) - {a, b};
    hide ServiceOK, Holds, RefOf, CreationOf, Holders, PcOK, Named;
    KeepsList(s, s', t, a, b);
    KeepsHeld(s, s', t, a, b);
    KeepsDying(s, s', t, a, b);
    KeepsPcs(s, s', t, a, b);
    KeepsInit(s, s', t, a, b);
    KeepsRefs(s, s', t, a, b);
  }

  /** What the invariant says about thread `t` and service `c`. */
  lemma Facts(s: State, t: nat, c: Id)
    requires Inv(s) && t < |s.pcs| && c < |s.services|
    ensures Bounded(s) && Named(s.pcs[t], |s.services|) && PcOK(s, s.pcs[t])
    ensures var (v, pc) := (s.services[c], s.pcs[t]);
            && ServiceOK(v)
            && (v.owner == HeldBy(t) <==> c in Holds(pc)) && (v.owner == Listed <==> c in s.list)
            && (v.life == Dying(t) <==> Deletes(pc, c)) && (v.registered ==> v.ref > 0)
            && (RefOf(pc) == Some(c) ==> v.ref >= 1 + (if v.registered then 1 else 0))
            && (pc.Swap? ==> pc.q != pc.nq) && InitStep(s, t, c)
    ensures s.list != [] ==> s.list[0] < |s.services|
  {
    if RefOf(s.pcs[t]) == Some(c) { assert t in Holders(s.pcs, c); }
  }

  lemma HeadListed(s: State)
    requires s.list != []
    ensures s.list[0] in s.list
  {
  }

  lemma HaveKeeps(s: State, t: nat, ch: Choice)
    requires Inv(s) && t < |s.pcs| && s.pcs[t].Have?
    ensures Bounded(s) && Inv(Step(s, t, ch))
  {
    var q := s.pcs[t].q;
    Facts(s, t, q);
    hide Inv, RefsOK, DyingOK, HeldOK, ListOK, InitOK, PcsOK, ServicesOK;
    Keeps(s, Step(s, t, ch), t, q, q);
  }

  lemma GrabbedKeeps(s: State, t: nat, ch: Choice)
    requires Inv(s) && t < |s.pcs| && s.pcs[t].Grabbed?
    ensures Bounded(s) && Inv(Step(s, t, ch))
  {
    var q := s.pcs[t].q;
    Facts(s, t, q);
    hide Inv, RefsOK, DyingOK, HeldOK, ListOK, InitOK, PcsOK, ServicesOK;
    TakeFirst(s.services[q]);
    Keeps(s, Step(s, t, ch), t, q, q);
  }

  lemma GotKeeps(s: State, t: nat, ch: Choice)
    requires Inv(s) && t < |s.pcs| && s.pcs[t].Got?
    ensures Bounded(s) && Inv(Step(s, t, ch))
  {
    var q := s.pcs[t].q;
    Facts(s, t, q);
    hide Inv, RefsOK, DyingOK, HeldOK, ListOK, InitOK, PcsOK, ServicesOK;
    Keeps(s, Step(s, t, ch), t, q, q);
  }

  lemma SwapKeeps(s: State, t: nat, ch: Choice)
    requires Inv(s) && t < |s.pcs| && s.pcs[t].Swap?
    ensures Bounded(s) && Inv(Step(s, t, ch))
  {
    var q, nq := s.pcs[t].q, s.pcs[t].nq;
    Facts(s, t, q);
    Facts(s, t, nq);
    hide Inv, RefsOK, DyingOK, HeldOK, ListOK, InitOK, PcsOK, ServicesOK;
    Keeps(s, Step(s, t, ch), t, q, nq);
  }

  lemma DroppingKeeps(s: State, t: nat, ch: Choice)
    requires Inv(s) && t < |s.pcs| && s.pcs[t].Dropping?
    ensures Bounded(s) && Inv(Step(s, t, ch))
  {
    var q := s.pcs[t].q;
    Facts(s, t, q);
    hide Inv, RefsOK, DyingOK, HeldOK, ListOK, InitOK, PcsOK, ServicesOK;
    Keeps(s, Step(s, t, ch), t, q, q);
  }

  lemma DrainingKeeps(s: State, t: nat, ch: Choice)
    requires Inv(s) && t < |s.pcs| && s.pcs[t].Draining?
    ensures Bounded(s) && Inv(Step(s, t, ch))
  {
    var q := s.pcs[t].q;
    Facts(s, t, q);
    hide Inv, RefsOK, DyingOK, HeldOK, ListOK, InitOK, PcsOK, ServicesOK;
    TakeFirst(s.services[q]);
    Keeps(s, Step(s, t, ch), t, q, q);
  }

  lemma FreeingKeeps(s: State, t: nat, ch: Choice)
    requires Inv(s) && t < |s.pcs| && s.pcs[t].Freeing?
    ensures Bounded(s) && Inv(Step(s, t, ch))
  {
    var q := s.pcs[t].q;
    Facts(s, t, q);
    hide Inv, RefsOK, DyingOK, HeldOK, ListOK, InitOK, PcsOK, ServicesOK;
    Keeps(s, Step(s, t, ch), t, q, q);
  }

  lemma SendingKeeps(s: State, t: nat, ch: Choice)
    requires Inv(s) && t < |s.pcs| && s.pcs[t].Sending?
    ensures Bounded(s) && Inv(Step(s, t, ch))
  {
    var c := s.pcs[t].c;
    Facts(s, t, c);
    hide Inv, RefsOK, DyingOK, HeldOK, ListOK, InitOK, PcsOK, ServicesOK;
    PushLast(s.services[c], s.pcs[t].m);
    Keeps(s, Step(s, t, ch), t, c, c);
  }

  lemma ReleasingKeeps(s: State, t: nat, ch: Choice)
    requires Inv(s) && t < |s.pcs| && s.pcs[t].Releasing?
    ensures Bounded(s) && Inv(Step(s, t, ch))
  {
    var c := s.pcs[t].c;
    Facts(s, t, c);
    hide Inv, RefsOK, DyingOK, HeldOK, ListOK, InitOK, PcsOK, ServicesOK;
    Keeps(s, Step(s, t, ch), t, c, c);
  }

  lemma DeletingKeeps(s: State, t: nat, ch: Choice)
    requires Inv(s) && t < |s.pcs| && s.pcs[t].Deleting?
    ensures Bounded(s) && Inv(Step(s, t, ch))
  {
    var c := s.pcs[t].c;
    Facts(s, t, c);
    hide Inv, RefsOK, DyingOK, HeldOK, ListOK, InitOK, PcsOK, ServicesOK;
    Keeps(s, Step(s, t, ch), t, c, c);
  }

  lemma CreatingKeeps(s: State, t: nat, ch: Choice)
    requires Inv(s) && t < |s.pcs| && s.pcs[t].Creating?
    ensures Bounded(s) && Inv(Step(s, t, ch))
  {
    var c := s.pcs[t].c;
    Facts(s, t, c);
    hide Inv, RefsOK, DyingOK, HeldOK, ListOK, InitOK, PcsOK, ServicesOK;
    Keeps(s, Step(s, t, ch), t, c, c);
  }

  lemma SetInitKeeps(s: State, t: nat, ch: Choice)
    requires Inv(s) && t < |s.pcs| && s.pcs[t].SetInit?
    ensures Bounded(s) && Inv(Step(s, t, ch))
  {
    var c := s.pcs[t].c;
    Facts(s, t, c);
    hide Inv, RefsOK, DyingOK, HeldOK, ListOK, InitOK, PcsOK, ServicesOK;
    Keeps(s, Step(s, t, ch), t, c, c);
  }

  lemma PushingKeeps(s: State, t: nat, ch: Choice)
    requires Inv(s) && t < |s.pcs| && s.pcs[t].Pushing?
    ensures Bounded(s) && Inv(Step(s, t, ch))
  {
    var c := s.pcs[t].c;
    Facts(s, t, c);
    hide Inv, RefsOK, DyingOK, HeldOK, ListOK, InitOK, PcsOK, ServicesOK;
    Keeps(s, Step(s, t, ch), t, c, c);
  }

  lemma RetiringKeeps(s: State, t: nat, ch: Choice)
    requires Inv(s) && t < |s.pcs| && s.pcs[t].Retiring?
    ensures Bounded(s) && Inv(Step(s, t, ch))
  {
    var c := s.pcs[t].c;
    Facts(s, t, c);
    hide Inv, RefsOK, DyingOK, HeldOK, ListOK, InitOK, PcsOK, ServicesOK;
    Keeps(s, Step(s, t, ch), t, c, c);
  }

  /** A thread that has nothing goes on having nothing. */
  lemma NothingKeeps(s: State, t: nat, pc: Pc)
    requires Inv(s) && t < |s.pcs| && (s.pcs[t].Idle? || s.pcs[t].Pop?) && (pc.Idle? || pc.Pop?)
    ensures Inv(SetPc(s, t, pc))
  {
    var s' := SetPc(s, t, pc);
    if |s.services| > 0 {
      Facts(s, t, 0);
      hide Inv, RefsOK, DyingOK, HeldOK, ListOK, InitOK, PcsOK, ServicesOK;
      Keeps(s, s', t, 0, 0);
    } else {
      forall u | 0 <= u < |s'.pcs| ensures Named(s'.pcs[u], 0) && PcOK(s', s'.pcs[u]) { PcKept(s, s', s.pcs[u]); }
    }
  }

  lemma PopKeeps(s: State, t: nat, ch: Choice)
    requires Inv(s) && t < |s.pcs| && s.pcs[t].Pop?
    ensures Bounded(s) && Inv(Step(s, t, ch))
  {
    if s.list == [] { NothingKeeps(s, t, Idle); }
    else {
      var q := s.list[0];
      Facts(s, t, q);
      HeadListed(s);
      hide Inv, RefsOK, DyingOK, HeldOK, ListOK, InitOK, PcsOK, ServicesOK;
      Keeps(s, Step(s, t, ch), t, q, q);
    }
  }

  lemma EndingKeeps(s: State, t: nat, ch: Choice)
    requires Inv(s) && t < |s.pcs| && s.pcs[t].Ending?
    ensures Bounded(s) && Inv(Step(s, t, ch))
  {
    var q := s.pcs[t].q;
    var nq := if s.list == [] then q else s.list[0];
    Facts(s, t, q);
    Facts(s, t, nq);
    if s.list != [] { HeadListed(s); }
    hide Inv, RefsOK, DyingOK, HeldOK, ListOK, InitOK, PcsOK, ServicesOK;
    Keeps(s, Step(s, t, ch), t, nq, q);
  }

  lemma IdleKeeps(s: State, t: nat, ch: Choice)
    requires Inv(s) && t < |s.pcs| && s.pcs[t].Idle?
    ensures Bounded(s) && Inv(Step(s, t, ch))
  {
    match ch
    case StartWorker => NothingKeeps(s, t, Pop);
    case StartCreate => CreateKeeps(s, t);
    case StartSend(c, _) => if Registered(s, c) { LookupKeeps(s, t, ch, c); }
    case StartRetire(c) => if Registered(s, c) { LookupKeeps(s, t, ch, c); }
    case _ =>
  }

  lemma LookupKeeps(s: State, t: nat, ch: Choice, c: Id)
    requires Inv(s) && t < |s.pcs| && s.pcs[t].Idle? && Registered(s, c)
    requires (ch.StartSend? && ch.c == c) || (ch.StartRetire? && ch.c == c)
    ensures Bounded(s) && Inv(Step(s, t, ch))
  {
    Facts(s, t, c);
    hide Inv, RefsOK, DyingOK, HeldOK, ListOK, InitOK, PcsOK, ServicesOK;
    Keeps(s, Step(s, t, ch), t, c, c);
  }

  /** The number of the next service is not in use. */
  lemma Unused(s: State, s': State, u: nat)
    requires Inv(s) && u < |s.pcs| && |s'.services| == |s.services| + 1
    requires forall c | 0 <= c < |s.services| :: s'.services[c] == s.services[c]
    ensures var n := |s.services|;
            && Named(s.pcs[u], n + 1) && PcOK(s', s.pcs[u])
            && n !in Holds(s.pcs[u]) && RefOf(s.pcs[u]) != Some(n) && !Deletes(s.pcs[u], n)
  {
    assert Named(s.pcs[u], |s.services|) && PcOK(s, s.pcs[u]);
  }

  lemma CreateRefs(s: State, s': State, t: nat)
    requires Inv(s) && t < |s.pcs| && s.pcs[t].Idle? && s' == StepIdle(s, t, StartCreate)
    ensures RefsOK(s')
  {
    var n := |s.services|;
    forall u | 0 <= u < |s.pcs| ensures RefOf(s.pcs[u]) != Some(n) { Unused(s, s', u); }
    forall c | 0 <= c <= n
      ensures s'.services[c].ref == |Holders(s'.pcs, c)| + (if s'.services[c].registered then 1 else 0)
    {
      HoldersUpdate(s.pcs, t, Creating(n), c);
      if c == n { assert Holders(s.pcs, n) == {}; }
    }
  }

  lemma CreateHeld(s: State, s': State, t: nat)
    requires Inv(s) && t < |s.pcs| && s.pcs[t].Idle? && s' == StepIdle(s, t, StartCreate)
    ensures HeldOK(s')
  {
    var n := |s.services|;
    forall u | 0 <= u < |s.pcs| ensures n !in Holds(s.pcs[u]) { Unused(s, s', u); }
    hide RefsOK, ServiceOK, PcOK, Named, DyingOK, ListOK, InitOK, ServicesOK, PcsOK;
  }

  lemma CreateDying(s: State, s': State, t: nat)
    requires Inv(s) && t < |s.pcs| && s.pcs[t].Idle? && s' == StepIdle(s, t, StartCreate)
    ensures DyingOK(s')
  {
    var n := |s.services|;
    forall u | 0 <= u < |s.pcs| ensures !Deletes(s.pcs[u], n) { Unused(s, s', u); }
    hide RefsOK, ServiceOK, PcOK, Named, HeldOK, ListOK, InitOK, ServicesOK, PcsOK;
    forall c, u | 0 <= c <= n && 0 <= u < |s.pcs|
      ensures s'.services[c].life == Dying(u) <==> Deletes(s'.pcs[u], c)
    {
      if c < n { assert s.services[c].life == Dying(u) <==> Deletes(s.pcs[u], c); }
    }
  }

  lemma CreateListed(s: State, s': State, t: nat)
    requires Inv(s) && t < |s.pcs| && s.pcs[t].Idle? && s' == StepIdle(s, t, StartCreate)
    ensures ListOK(s') && InitOK'(s)
  {
    hide RefsOK, ServiceOK, PcOK, Named, DyingOK, ServicesOK, PcsOK;
    assert |s.services| !in s.list;
  }

  /** InitOK of a state whose queues are held as they should be. */
  predicate InitOK'(s: State)
  {
    HeldOK(s) && InitOK(s)
  }

  lemma CreateInit(s: State, s': State, t: nat)
    requires InitOK'(s) && HeldOK(s') && t < |s.pcs| && s.pcs[t].Idle? && s' == StepIdle(s, t, StartCreate)
    ensures InitOK(s')
  {
  }

  lemma CreateOwned(s: State, s': State, t: nat)
    requires Inv(s) && t < |s.pcs| && s.pcs[t].Idle? && s' == StepIdle(s, t, StartCreate)
    ensures HeldOK(s') && DyingOK(s') && ListOK(s') && InitOK(s')
  {
    CreateHeld(s, s', t);
    CreateDying(s, s', t);
    CreateListed(s, s', t);
    hide Inv;
    CreateInit(s, s', t);
  }

  /** A new service, held and referred to by its creator and by the handle table. */
  lemma CreateKeeps(s: State, t: nat)
    requires Inv(s) && t < |s.pcs| && s.pcs[t].Idle?
    ensures Inv(StepIdle(s, t, StartCreate))
  {
    var s' := StepIdle(s, t, StartCreate);
    CreateRefs(s, s', t);
    CreateOwned(s, s', t);
    hide RefsOK, HeldOK, DyingOK, ListOK, InitOK;
    forall u | 0 <= u < |s.pcs| ensures Named(s'.pcs[u], |s'.services|) && PcOK(s', s'.pcs[u]) { Unused(s, s', u); }
    assert ServicesOK(s') && Bounded(s');
  }

  /** Every step of every thread keeps the invariant. */
  lemma StepKeeps(s: State, t: nat, ch: Choice)
    requires Inv(s) && t < |s.pcs|
    ensures Bounded(s) && Inv(Step(s, t, ch))
  {
    hide Inv, Step;
    match s.pcs[t]
    case Idle => IdleKeeps(s, t, ch);
    case Pop => PopKeeps(s, t, ch);
    case Have(_) => HaveKeeps(s, t, ch);
    case Grabbed(_) => GrabbedKeeps(s, t, ch);
    case Got(_, _) => GotKeeps(s, t, ch);
    case Ending(_) => EndingKeeps(s, t, ch);
    case Swap(_, _) => SwapKeeps(s, t, ch);
    case Dropping(_, _) => DroppingKeeps(s, t, ch);
    case Draining(_, _) => DrainingKeeps(s, t, ch);
    case Freeing(_, _) => FreeingKeeps(s, t, ch);
    case Sending(_, _) => SendingKeeps(s, t, ch);
    case Releasing(_, _) => ReleasingKeeps(s, t, ch);
    case Deleting(_, _) => DeletingKeeps(s, t, ch);
    case Creating(_) => CreatingKeeps(s, t, ch);
    case SetInit(_) => SetInitKeeps(s, t, ch);
    case Pushing(_) => PushingKeeps(s, t, ch);
    case Retiring(_) => RetiringKeeps(s, t, ch);
  }

  /** Taking the first message keeps the order. */
  lemma TakeFirst(v: Service)
    requires ServiceOK(v)
    ensures v.messages != [] ==>
              && Messages(v.taken + [Dispatched(v.messages[0])]) + v.messages[1..] == v.pushed
              && Messages(v.taken + [Dropped(v.messages[0])]) + v.messages[1..] == v.pushed
  {
    if v.messages != [] {
      assert v.messages == [v.messages[0]] + v.messages[1..];
      assert Messages(v.taken + [Dispatched(v.messages[0])]) == Messages(v.taken) + [v.messages[0]];
      assert Messages(v.taken + [Dropped(v.messages[0])]) == Messages(v.taken) + [v.messages[0]];
    }
  }

  lemma PushLast(v: Service, m: Msg)
    requires ServiceOK(v)
    ensures v.pushed + [m] == Messages(v.taken) + (v.messages + [m])
  {
  }

  // ---------- Whole runs ----------

  /** No services, and `n` threads with nothing to do. */
  function Init(n: nat): State
  {
    State([], [], seq(n, _ => Idle))
  }

  lemma InitInv(n: nat)
    ensures Inv(Init(n))
  {
  }

  /** Threads of a schedule take one step after the other. */
  ghost function Run(s: State, schedule: seq<(nat, Choice)>): (s': State)
    requires Inv(s)
    ensures Inv(s') && |s'.pcs| == |s.pcs|
    decreases |schedule|
  {
    if schedule == [] then s
    else
      var before := Run(s, schedule[..|schedule| - 1]);
      var (t, ch) := schedule[|schedule| - 1];
      if t < |s.pcs| then StepKeeps(before, t, ch); SameThreads(before, t, ch); Step(before, t, ch) else before
  }

  lemma SameThreads(s: State, t: nat, ch: Choice)
    requires Bounded(s) && t < |s.pcs|
    ensures |Step(s, t, ch).pcs| == |s.pcs|
  {
  }

  /** The state after a run of `n` threads. */
  ghost function After(n: nat, schedule: seq<(nat, Choice)>): (s: State)
    ensures Inv(s) && |s.pcs| == n
  {
    InitInv(n);
    Run(Init(n), schedule)
  }

  /** In every run each queue is on the global list once, or held by one thread, or neither. */
  lemma OneOwner(n: nat, schedule: seq<(nat, Choice)>, c: Id)
    ensures var s := After(n, schedule);
            && (forall j, k | 0 <= j < |s.list| && 0 <= k < |s.list| && s.list[j] == c && s.list[k] == c :: j == k)
            && (forall t | 0 <= t < n && c in Holds(s.pcs[t]) :: c !in s.list)
            && (forall t, u | 0 <= t < n && 0 <= u < n && c in Holds(s.pcs[t]) && c in Holds(s.pcs[u]) :: t == u)
  {
    var s := After(n, schedule);
    forall t | 0 <= t < n && c in Holds(s.pcs[t]) ensures c < |s.services| && s.services[c].owner == HeldBy(t) {
      assert Named(s.pcs[t], |s.services|);
    }
  }

  /** In every run a callback runs in one thread at a time, on an initialised service whose queue is not freed. */
  lemma CallbackAlone(n: nat, schedule: seq<(nat, Choice)>, t: nat, u: nat)
    requires t < n && u < n
    ensures var s := After(n, schedule);
            s.pcs[t].Got? ==>
              && s.pcs[t].q < |s.services| && s.services[s.pcs[t].q].init
              && s.services[s.pcs[t].q].ref > 0 && !s.services[s.pcs[t].q].freed
              && (s.pcs[u].Got? && s.pcs[u].q == s.pcs[t].q ==> t == u)
  {
    var s := After(n, schedule);
    if s.pcs[t].Got? {
      var q := s.pcs[t].q;
      OneOwner(n, schedule, q);
      assert Named(s.pcs[t], |s.services|);
      Facts(s, t, q);
    }
  }

  /** In every run a queue with messages is on the global list or held. */
  lemma NonEmptyOwned(n: nat, schedule: seq<(nat, Choice)>, c: Id)
    ensures var s := After(n, schedule);
            c < |s.services| && s.services[c].messages != [] ==>
              c in s.list || exists t | 0 <= t < n :: c in Holds(s.pcs[t])
  {
    var s := After(n, schedule);
    if c < |s.services| && s.services[c].messages != [] {
      assert ServiceOK(s.services[c]);
      var o := s.services[c].owner;
      if o.HeldBy? { assert c in Holds(s.pcs[o.t]); }
    }
  }

  /**
   * In every run the messages accepted by a queue have been taken once each and in order, up to those still in it;
   * all dispatched until its context is deleted, and from some point on dropped.
   */
  lemma ExactlyOnce(n: nat, schedule: seq<(nat, Choice)>, c: Id)
    ensures var s := After(n, schedule);
            c < |s.services| ==>
              var v := s.services[c];
              && v.pushed == Messages(v.taken) + v.messages && DroppedLast(v.taken)
              && (forall k | 0 <= k < |v.taken| && v.taken[k].Dropped? :: v.release && v.ref == 0)
  {
    var s := After(n, schedule);
    if c < |s.services| { assert ServiceOK(s.services[c]); }
  }

  /** The queue that the next step of a thread reads or writes. */
  function Touches(pc: Pc): set<Id>
  {
    match pc
    case Sending(c, _) => {c}
    case Deleting(c, _) => {c}
    case Releasing(_, _) => {}
    case Creating(_) => {}
    case _ => Holds(pc)
  }

  /** In every run a freed queue is neither listed nor held, and no thread is about to use it or to free it again. */
  lemma FreedOnce(n: nat, schedule: seq<(nat, Choice)>, c: Id)
    ensures var s := After(n, schedule);
            c < |s.services| && s.services[c].freed ==>
              && c !in s.list && s.services[c].messages == []
              && forall t | 0 <= t < n :: c !in Holds(s.pcs[t]) && c !in Touches(s.pcs[t])
  {
    var s := After(n, schedule);
    if c < |s.services| && s.services[c].freed {
      forall t | 0 <= t < n ensures c !in Holds(s.pcs[t]) && c !in Touches(s.pcs[t]) {
        Facts(s, t, c);
        assert !Deletes(s.pcs[t], c);
      }
    }
  }

  /** A queue is marked once, and is not on the list when it is put there. */
  lemma AssertionsHold(n: nat, schedule: seq<(nat, Choice)>, t: nat)
    requires t < n
    ensures var s := After(n, schedule);
            && (s.pcs[t].Deleting? ==> s.pcs[t].c < |s.services| && !s.services[s.pcs[t].c].release)
            && (forall c | c in Holds(s.pcs[t]) :: c !in s.list)
            && (s.pcs[t].Sending? && s.pcs[t].c < |s.services| && !s.services[s.pcs[t].c].inGlobal ==>
                 s.pcs[t].c !in s.list)
            && (s.pcs[t].Deleting? && !s.services[s.pcs[t].c].inGlobal ==> s.pcs[t].c !in s.list)
  {
    var s := After(n, schedule);
    var pc := s.pcs[t];
    assert Named(pc, |s.services|);
    if pc.Deleting? { Facts(s, t, pc.c); assert Deletes(pc, pc.c); }
    if pc.Sending? { Facts(s, t, pc.c); }
    forall c | c in Holds(pc) ensures c !in s.list { OneOwner(n, schedule, c); }
  }

  /** When all threads have nothing to do and the list is empty, no message waits, and what was retired is freed. */
  lemma QuietIsDone(n: nat, schedule: seq<(nat, Choice)>, c: Id)
    requires var s := After(n, schedule); s.list == [] && forall t | 0 <= t < n :: s.pcs[t].Idle?
    ensures var s := After(n, schedule);
            c < |s.services| ==>
              var v := s.services[c];
              && v.messages == [] && v.pushed == Messages(v.taken)
              && (v.registered ==> v.ref == 1 && v.init) && (!v.registered ==> v.freed)
  {
    var s := After(n, schedule);
    if c < |s.services| {
      QuietOwner(s, c);
      hide Inv, After;
    }
  }

  lemma QuietOwner(s: State, c: Id)
    requires Inv(s) && s.list == [] && (forall t | 0 <= t < |s.pcs| :: s.pcs[t].Idle?) && c < |s.services|
    ensures var v := s.services[c];
            && v.owner == Nobody && !v.life.Dying? && v.ref == (if v.registered then 1 else 0)
            && ServiceOK(v) && (v.registered ==> v.init)
  {
    var v := s.services[c];
    assert Holders(s.pcs, c) == {};
    hide ServiceOK, PcOK;
    assert forall t | 0 <= t < |s.pcs| :: Holds(s.pcs[t]) == {};
    assert forall t | 0 <= t < |s.pcs| :: v.life != Dying(t);
  }

  /** The step takes the handle of service `c` out of the handle table. */
  predicate Retires(s: State, t: nat, ch: Choice, c: Id)
  {
    t < |s.pcs| && Registered(s, c) && ((s.pcs[t].Idle? && ch == StartRetire(c)) || s.pcs[t] == Retiring(c))
  }

  /** Some step of the run retired service `c`. */
  ghost predicate WasRetired(n: nat, schedule: seq<(nat, Choice)>, c: Id)
  {
    exists k | 0 <= k < |schedule| :: RetiredAt(n, schedule, c, k)
  }

  ghost predicate RetiredAt(n: nat, schedule: seq<(nat, Choice)>, c: Id, k: nat)
    requires k < |schedule|
  {
    Retires(After(n, schedule[..k]), schedule[k].0, schedule[k].1, c)
  }

  /** A step keeps the handle table as it is, but for a new service and a retired one. */
  predicate TableStep(s: State, s': State, t: nat, ch: Choice, c: Id)
  {
    && |s.services| <= |s'.services|
    && (Registered(s', c) <==> (Registered(s, c) && !Retires(s, t, ch, c)) || |s.services| <= c < |s'.services|)
  }

  lemma StepRegistered(s: State, t: nat, ch: Choice, c: Id)
    requires Bounded(s) && t < |s.pcs|
    ensures TableStep(s, Step(s, t, ch), t, ch, c)
  {
    match s.pcs[t]
    case Idle => IdleRegistered(s, t, ch, c);
    case Sending(_, _) => PushRegistered(s, t, ch, c);
    case Deleting(_, _) => MarkRegistered(s, t, ch, c);
    case _ => OtherRegistered(s, t, ch, c);
  }

  lemma IdleRegistered(s: State, t: nat, ch: Choice, c: Id)
    requires t < |s.pcs| && s.pcs[t].Idle?
    ensures TableStep(s, StepIdle(s, t, ch), t, ch, c)
  {
  }

  lemma PushRegistered(s: State, t: nat, ch: Choice, c: Id)
    requires Bounded(s) && t < |s.pcs| && s.pcs[t].Sending?
    ensures TableStep(s, Step(s, t, ch), t, ch, c)
  {
    assert Named(s.pcs[t], |s.services|);
  }

  lemma MarkRegistered(s: State, t: nat, ch: Choice, c: Id)
    requires Bounded(s) && t < |s.pcs| && s.pcs[t].Deleting?
    ensures TableStep(s, Step(s, t, ch), t, ch, c)
  {
    assert Named(s.pcs[t], |s.services|);
  }

  lemma OtherRegistered(s: State, t: nat, ch: Choice, c: Id)
    requires Bounded(s) && t < |s.pcs| && !s.pcs[t].Idle? && !s.pcs[t].Sending? && !s.pcs[t].Deleting?
    ensures TableStep(s, Step(s, t, ch), t, ch, c)
  {
    assert Named(s.pcs[t], |s.services|);
  }

  lemma RunStep(n: nat, schedule: seq<(nat, Choice)>)
    requires schedule != []
    ensures var k := |schedule| - 1;
            var (before, t) := (After(n, schedule[..k]), schedule[k].0);
            After(n, schedule) == if t < n then Step(before, t, schedule[k].1) else before
  {
  }

  /** In every run a service is in the handle table from its creation until it is retired. */
  lemma {:induction false} RegisteredUntilRetired(n: nat, schedule: seq<(nat, Choice)>, c: Id)
    ensures var s := After(n, schedule);
            Registered(s, c) <==> c < |s.services| && !WasRetired(n, schedule, c)
    ensures WasRetired(n, schedule, c) ==> c < |After(n, schedule).services|
    decreases |schedule|
  {
    if schedule == [] {
      assert After(n, schedule) == Init(n);
    } else {
      hide *;
      var k := |schedule| - 1;
      var (t, ch) := schedule[k];
      var before := After(n, schedule[..k]);
      RegisteredUntilRetired(n, schedule[..k], c);
      RunStep(n, schedule);
      RetiredLater(n, schedule, c);
      RetiresExisting(before, t, ch, c);
      if t < n {
        BoundedAfter(n, schedule[..k]);
        StepRegistered(before, t, ch, c);
        TableUnfolds(before, Step(before, t, ch), t, ch, c);
      }
      RegisteredExists(After(n, schedule), c);
    }
  }

  lemma RegisteredExists(s: State, c: Id)
    ensures Registered(s, c) ==> c < |s.services|
  {
  }

  lemma BoundedAfter(n: nat, schedule: seq<(nat, Choice)>)
    ensures Bounded(After(n, schedule)) && |After(n, schedule).pcs| == n
  {
  }

  lemma TableUnfolds(s: State, s': State, t: nat, ch: Choice, c: Id)
    requires TableStep(s, s', t, ch, c)
    ensures |s.services| <= |s'.services|
    ensures Registered(s', c) <==> (Registered(s, c) && !Retires(s, t, ch, c)) || |s.services| <= c < |s'.services|
  {
  }

  /** What was retired by a run: by all but its last step, or by that. */
  lemma RetiredLater(n: nat, schedule: seq<(nat, Choice)>, c: Id)
    requires schedule != []
    ensures var k := |schedule| - 1;
            WasRetired(n, schedule, c) <==>
              WasRetired(n, schedule[..k], c) || Retires(After(n, schedule[..k]), schedule[k].0, schedule[k].1, c)
  {
    hide After, Retires;
    var k := |schedule| - 1;
    forall j | 0 <= j < k ensures RetiredAt(n, schedule, c, j) == RetiredAt(n, schedule[..k], c, j) {
      assert schedule[..k][..j] == schedule[..j];
    }
    assert RetiredAt(n, schedule, c, k) == Retires(After(n, schedule[..k]), schedule[k].0, schedule[k].1, c);
    if WasRetired(n, schedule[..k], c) {
      var j :| 0 <= j < k && RetiredAt(n, schedule[..k], c, j);
      assert RetiredAt(n, schedule, c, j);
    }
  }

  lemma RetiresExisting(s: State, t: nat, ch: Choice, c: Id)
    ensures Retires(s, t, ch, c) ==> Registered(s, c) && t < |s.pcs|
  {
  }

  /**
   * After giving its reference back, the creator of a service still marks the context as initialised. If the service
   * was not retired meanwhile, the context is there; if it was, it is there exactly while another thread has a
   * reference.
   */
  lemma LateMark(n: nat, schedule: seq<(nat, Choice)>, t: nat)
    requires t < n
    ensures var s := After(n, schedule);
            s.pcs[t].SetInit? ==>
              var c := s.pcs[t].c;
              && c < |s.services|
              && (!WasRetired(n, schedule, c) ==> s.services[c].registered && s.services[c].life.Live?)
              && (s.services[c].life.Live? <==> !WasRetired(n, schedule, c) || Holders(s.pcs, c) != {})
  {
    var s := After(n, schedule);
    assert Named(s.pcs[t], |s.services|);
    if s.pcs[t].SetInit? {
      var c := s.pcs[t].c;
      assert ServiceOK(s.services[c]);
      RegisteredUntilRetired(n, schedule, c);
    }
  }

  /** The run in which another thread retires and deletes a service just before the mark. */
  const LATE: seq<(nat, Choice)> := [(0, StartCreate), (0, Yes), (0, Stay), (1, StartRetire(0)), (1, Stay)]

  /** The state after `k` steps of it. */
  function LateState(k: nat): State
  {
    var v := NEW.(owner := HeldBy(0));
    match k
    case 0 => Init(2)
    case 1 => State([v], [], [Creating(0), Idle])
    case 2 => State([v], [], [Releasing(0, ThenInit(0)), Idle])
    case 3 => State([v.(ref := 1)], [], [SetInit(0), Idle])
    case 4 => State([v.(ref := 1, registered := false)], [], [SetInit(0), Releasing(0, ThenIdle)])
    case _ => State([v.(ref := 0, registered := false, life := Dying(1))], [], [SetInit(0), Deleting(0, ThenIdle)])
  }

  lemma LateStart(k: nat)
    requires k < 3
    ensures var (t, ch) := LATE[k];
            t < 2 && |LateState(k).pcs| == 2 && Bounded(LateState(k)) && Step(LateState(k), t, ch) == LateState(k + 1)
  {
    if k == 0 { assert Step(Init(2), 0, StartCreate) == LateState(1); }
    else if k == 1 { assert Step(LateState(1), 0, Yes) == LateState(2); }
    else { assert Step(LateState(2), 0, Stay) == LateState(3); }
  }

  lemma LateEnd(k: nat)
    requires 3 <= k < |LATE|
    ensures var (t, ch) := LATE[k];
            t < 2 && |LateState(k).pcs| == 2 && Bounded(LateState(k)) && Step(LateState(k), t, ch) == LateState(k + 1)
  {
    if k == 3 { assert Step(LateState(3), 1, StartRetire(0)) == LateState(4); }
    else { assert Step(LateState(4), 1, Stay) == LateState(5); }
  }

  lemma LateStep(k: nat)
    requires k < |LATE|
    ensures var (t, ch) := LATE[k];
            t < 2 && |LateState(k).pcs| == 2 && Bounded(LateState(k)) && Step(LateState(k), t, ch) == LateState(k + 1)
  {
    if k < 3 { LateStart(k); } else { LateEnd(k); }
  }

  /** A run that is one step longer. */
  lemma AfterNext(n: nat, schedule: seq<(nat, Choice)>, k: nat)
    requires k < |schedule| && schedule[k].0 < n
    ensures After(n, schedule[..k + 1]) == Step(After(n, schedule[..k]), schedule[k].0, schedule[k].1)
  {
    hide Step, Inv, Init;
    assert schedule[..k + 1][..k] == schedule[..k];
  }

  lemma {:induction false} LateRun(k: nat)
    requires k <= |LATE|
    ensures After(2, LATE[..k]) == LateState(k)
  {
    if k > 0 {
      LateRun(k - 1);
      LateStep(k - 1);
      AfterNext(2, LATE, k - 1);
      hide LateState, Step, After;
    }
  }

  /** The mark can come after the deletion. */
  lemma LateMarkHappens()
    ensures After(2, LATE) == LateState(5)
    ensures LateState(5).pcs[0] == SetInit(0) && LateState(5).services[0].life == Dying(1)
  {
    hide After;
    LateRun(5);
    assert LATE[..5] == LATE;
  }
}
