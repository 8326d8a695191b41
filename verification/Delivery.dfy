/** What becomes of the messages sent in runs of the scheduler, read off the schedule and where the threads are. */
module Delivery {
  import opened Scheduler

  /** A message that thread `t` sends. */
  datatype Sent = Sent(t: nat, m: Msg)

  type Schedule = seq<(nat, Choice)>

  // ---------- Histories of a run ----------

  /** The state before the last step of a schedule. */
  ghost function Before(n: nat, schedule: Schedule): (s: State)
    requires schedule != []
    ensures Inv(s) && |s.pcs| == n
  {
    After(n, schedule[..|schedule| - 1])
  }

  /** The sends to `c` that found its handle. */
  ghost function Sends(n: nat, schedule: Schedule, c: Id): seq<Sent>
    decreases |schedule|
  {
    if schedule == [] then []
    else
      var (t, ch) := schedule[|schedule| - 1];
      Sends(n, schedule[..|schedule| - 1], c) + (if t < n then Starts(Before(n, schedule), t, ch, c) else [])
  }

  function Starts(s: State, t: nat, ch: Choice, c: Id): seq<Sent>
    requires t < |s.pcs|
  {
    if s.pcs[t].Idle? && ch.StartSend? && ch.c == c && Registered(s, c) then [Sent(t, ch.m)] else []
  }

  /** The steps in which a thread that is about to push a message to `c` goes on. */
  ghost function Pushes(n: nat, schedule: Schedule, c: Id): seq<Sent>
    decreases |schedule|
  {
    if schedule == [] then []
    else
      var (t, ch) := schedule[|schedule| - 1];
      Pushes(n, schedule[..|schedule| - 1], c)
      + (if t < n then Tagged(t, Pending(Before(n, schedule).pcs[t], c)) else [])
  }

  function Tagged(t: nat, l: seq<Msg>): seq<Sent>
  {
    seq(|l|, k requires 0 <= k < |l| => Sent(t, l[k]))
  }

  /** The message that a thread is about to push to `c`. */
  function Pending(pc: Pc, c: Id): seq<Msg>
  {
    if pc.Sending? && pc.c == c then [pc.m] else []
  }

  /** The messages with which the callback of `c` was called. */
  ghost function Calls(n: nat, schedule: Schedule, c: Id): seq<Msg>
    decreases |schedule|
  {
    if schedule == [] then []
    else
      var t := schedule[|schedule| - 1].0;
      Calls(n, schedule[..|schedule| - 1], c)
      + (if t < n then Called(Before(n, schedule).pcs[t], After(n, schedule).pcs[t], c) else [])
  }

  function Called(pc: Pc, pc': Pc, c: Id): seq<Msg>
  {
    if !pc.Got? && pc'.Got? && pc'.q == c then [pc'.m] else []
  }

  function Msgs(l: seq<Sent>): (ms: seq<Msg>)
    ensures |ms| == |l| && forall k | 0 <= k < |l| :: ms[k] == l[k].m
  {
    seq(|l|, k requires 0 <= k < |l| => l[k].m)
  }

  /** What thread `t` sent. */
  function By(l: seq<Sent>, t: nat): seq<Msg>
  {
    if l == [] then []
    else By(l[..|l| - 1], t) + (if l[|l| - 1].t == t then [l[|l| - 1].m] else [])
  }

  lemma {:induction false} ByMore(a: seq<Sent>, b: seq<Sent>, t: nat)
    ensures By(a + b, t) == By(a, t) + By(b, t)
  {
    if b == [] { assert a + b == a; }
    else {
      assert (a + b)[..|a + b| - 1] == a + b[..|b| - 1];
      ByMore(a, b[..|b| - 1], t);
    }
  }

  lemma ByTagged(u: nat, m: Msg, t: nat)
    ensures By([Sent(u, m)], t) == if u == t then [m] else []
  {
    assert [Sent(u, m)][..0] == [];
  }

  // ---------- One step ----------

  /**
   * A thread about to push a message appends it to that queue, whatever its state, and leaves all other queues alone.
   */
  lemma SendStep(s: State, t: nat, ch: Choice)
    requires Bounded(s) && t < |s.pcs| && s.pcs[t].Sending?
    ensures var (s', c) := (Step(s, t, ch), s.pcs[t].c);
            && c < |s.services| == |s'.services| && s'.pcs == s.pcs[t := Releasing(c, ThenIdle)]
            && forall d | 0 <= d < |s.services| ::
                 s'.services[d].messages == s.services[d].messages + (if d == c then [s.pcs[t].m] else [])
  {
    assert Named(s.pcs[t], |s.services|);
  }

  /** A worker that has a queue with messages calls the callback with the first one, and takes that out. */
  lemma CallStep(s: State, t: nat, ch: Choice)
    requires Bounded(s) && t < |s.pcs| && s.pcs[t].Grabbed?
    ensures var (s', q) := (Step(s, t, ch), s.pcs[t].q);
            && q < |s.services| == |s'.services|
            && (if s.services[q].messages == [] then s'.pcs == s.pcs[t := Releasing(q, ThenPop)]
                else s'.pcs == s.pcs[t := Got(q, s.services[q].messages[0])])
            && forall d | 0 <= d < |s.services| ::
                 s'.services[d].messages == if d == q && s.services[q].messages != [] then s.services[q].messages[1..]
                                            else s.services[d].messages
  {
    assert Named(s.pcs[t], |s.services|);
  }

  /** The messages with which the callback was called. */
  function Dispatches(taken: seq<Taken>): seq<Msg>
  {
    if taken == [] then []
    else
      var x := taken[|taken| - 1];
      Dispatches(taken[..|taken| - 1]) + (if x.Dispatched? then [x.m] else [])
  }

  lemma DispatchesMore(taken: seq<Taken>, x: Taken)
    ensures Dispatches(taken + [x]) == Dispatches(taken) + (if x.Dispatched? then [x.m] else [])
  {
    assert (taken + [x])[..|taken|] == taken;
  }

  /** How a step changes the history of service `c`. */
  predicate Recorded(s: State, s': State, t: nat, c: Id)
  {
    && t < |s.pcs| == |s'.pcs| && |s.services| <= |s'.services|
    && (c < |s.services| ==>
          && s'.services[c].pushed == s.services[c].pushed + Pending(s.pcs[t], c)
          && Dispatches(s'.services[c].taken) == Dispatches(s.services[c].taken) + Called(s.pcs[t], s'.pcs[t], c))
    && (|s.services| <= c < |s'.services| ==> s'.services[c].pushed == [] && s'.services[c].taken == [])
    && (c >= |s.services| ==> Pending(s.pcs[t], c) == [] && Called(s.pcs[t], s'.pcs[t], c) == [])
  }

  lemma StepRecorded(s: State, t: nat, ch: Choice, c: Id)
    requires Bounded(s) && t < |s.pcs|
    ensures Recorded(s, Step(s, t, ch), t, c)
  {
    match s.pcs[t]
    case Idle => IdleRecorded(s, t, ch, c);
    case Sending(_, _) => PushRecorded(s, t, ch, c);
    case Deleting(_, _) => MarkRecorded(s, t, ch, c);
    case Grabbed(_) => TakeRecorded(s, t, ch, c);
    case Draining(_, _) => TakeRecorded(s, t, ch, c);
    case _ => OtherRecorded(s, t, ch, c);
  }

  lemma IdleRecorded(s: State, t: nat, ch: Choice, c: Id)
    requires Bounded(s) && t < |s.pcs| && s.pcs[t].Idle?
    ensures Recorded(s, Step(s, t, ch), t, c)
  {
    hide Dispatches;
  }

  lemma PushRecorded(s: State, t: nat, ch: Choice, c: Id)
    requires Bounded(s) && t < |s.pcs| && s.pcs[t].Sending?
    ensures Recorded(s, Step(s, t, ch), t, c)
  {
    hide Dispatches;
    assert Named(s.pcs[t], |s.services|);
  }

  lemma MarkRecorded(s: State, t: nat, ch: Choice, c: Id)
    requires Bounded(s) && t < |s.pcs| && s.pcs[t].Deleting?
    ensures Recorded(s, Step(s, t, ch), t, c)
  {
    hide Dispatches;
    assert Named(s.pcs[t], |s.services|);
  }

  lemma TakeRecorded(s: State, t: nat, ch: Choice, c: Id)
    requires Bounded(s) && t < |s.pcs| && (s.pcs[t].Grabbed? || s.pcs[t].Draining?)
    ensures Recorded(s, Step(s, t, ch), t, c)
  {
    hide Dispatches;
    assert Named(s.pcs[t], |s.services|);
    var v := s.services[s.pcs[t].q];
    if v.messages != [] {
      DispatchesMore(v.taken, Dispatched(v.messages[0]));
      DispatchesMore(v.taken, Dropped(v.messages[0]));
    }
  }

  lemma OtherRecorded(s: State, t: nat, ch: Choice, c: Id)
    requires Bounded(s) && t < |s.pcs| && !s.pcs[t].Idle? && !s.pcs[t].Sending? && !s.pcs[t].Deleting?
    requires !s.pcs[t].Grabbed? && !s.pcs[t].Draining?
    ensures Recorded(s, Step(s, t, ch), t, c)
  {
    hide Dispatches;
    assert Named(s.pcs[t], |s.services|);
    var pc := s.pcs[t];
    if pc.Pop? || pc.Ending? || pc.Swap? || pc.Dropping? {
      ListSame(s, t, ch, c);
    } else {
      RestSame(s, t, ch, c);
    }
    hide Step;
  }

  /** A step that records nothing. */
  predicate Unrecorded(s: State, s': State, t: nat, c: Id)
  {
    && t < |s.pcs| == |s'.pcs| && |s.services| == |s'.services| && (s.pcs[t].Got? || !s'.pcs[t].Got?)
    && (c < |s.services| ==>
          s'.services[c].pushed == s.services[c].pushed && s'.services[c].taken == s.services[c].taken)
  }

  lemma ListSame(s: State, t: nat, ch: Choice, c: Id)
    requires Bounded(s) && t < |s.pcs|
    requires s.pcs[t].Pop? || s.pcs[t].Ending? || s.pcs[t].Swap? || s.pcs[t].Dropping?
    ensures Unrecorded(s, Step(s, t, ch), t, c)
  {
    assert Named(s.pcs[t], |s.services|);
  }

  lemma RestSame(s: State, t: nat, ch: Choice, c: Id)
    requires Bounded(s) && t < |s.pcs| && !s.pcs[t].Idle? && !s.pcs[t].Sending? && !s.pcs[t].Deleting?
    requires !s.pcs[t].Grabbed? && !s.pcs[t].Draining?
    requires !s.pcs[t].Pop? && !s.pcs[t].Ending? && !s.pcs[t].Swap? && !s.pcs[t].Dropping?
    ensures Unrecorded(s, Step(s, t, ch), t, c)
  {
    assert Named(s.pcs[t], |s.services|);
  }

  // ---------- Whole runs ----------

  lemma BeforeIs(n: nat, schedule: Schedule)
    requires schedule != []
    ensures Before(n, schedule) == After(n, schedule[..|schedule| - 1])
  {
  }

  lemma LastStep(n: nat, schedule: Schedule)
    requires schedule != []
    ensures var (t, ch) := schedule[|schedule| - 1];
            Bounded(Before(n, schedule)) &&
            After(n, schedule) == if t < n then Step(Before(n, schedule), t, ch) else Before(n, schedule)
  {
    RunStep(n, schedule);
  }

  lemma SendsMore(n: nat, schedule: Schedule, c: Id)
    requires schedule != []
    ensures var (t, ch) := schedule[|schedule| - 1];
            Sends(n, schedule, c) ==
            Sends(n, schedule[..|schedule| - 1], c) + (if t < n then Starts(Before(n, schedule), t, ch, c) else [])
  {
  }

  lemma PushesMore(n: nat, schedule: Schedule, c: Id)
    requires schedule != []
    ensures var t := schedule[|schedule| - 1].0;
            Pushes(n, schedule, c) == Pushes(n, schedule[..|schedule| - 1], c)
            + (if t < n then Tagged(t, Pending(Before(n, schedule).pcs[t], c)) else [])
  {
  }

  lemma CallsMore(n: nat, schedule: Schedule, c: Id)
    requires schedule != []
    ensures var t := schedule[|schedule| - 1].0;
            Calls(n, schedule, c) == Calls(n, schedule[..|schedule| - 1], c)
            + (if t < n then Called(Before(n, schedule).pcs[t], After(n, schedule).pcs[t], c) else [])
  {
  }

  lemma MsgsMore(l: seq<Sent>, t: nat, ms: seq<Msg>)
    ensures Msgs(l + Tagged(t, ms)) == Msgs(l) + ms
  {
  }

  lemma IsRecorded(s: State, s': State, t: nat, c: Id)
    requires Recorded(s, s', t, c)
    ensures |s.services| <= |s'.services|
    ensures c < |s.services| ==>
              && s'.services[c].pushed == s.services[c].pushed + Pending(s.pcs[t], c)
              && Dispatches(s'.services[c].taken) == Dispatches(s.services[c].taken) + Called(s.pcs[t], s'.pcs[t], c)
    ensures c >= |s.services| ==> Pending(s.pcs[t], c) == [] && Called(s.pcs[t], s'.pcs[t], c) == []
    ensures |s.services| <= c < |s'.services| ==>
              s'.services[c].pushed == [] && Dispatches(s'.services[c].taken) == []
  {
  }

  lemma Nothing(n: nat, schedule: Schedule)
    requires schedule == []
    ensures After(n, schedule).services == [] && forall t | 0 <= t < n :: After(n, schedule).pcs[t] == Idle
  {
    assert After(n, schedule) == Init(n);
  }

  /** The fields of a service record what the run shows. */
  lemma {:induction false} HistoryIs(n: nat, schedule: Schedule, c: Id)
    ensures var s := After(n, schedule);
            if c < |s.services| then
              && s.services[c].pushed == Msgs(Pushes(n, schedule, c))
              && Dispatches(s.services[c].taken) == Calls(n, schedule, c)
            else Pushes(n, schedule, c) == [] && Calls(n, schedule, c) == []
    decreases |schedule|
  {
    if schedule == [] {
      Nothing(n, schedule);
    } else {
      hide *;
      var (t, ch) := schedule[|schedule| - 1];
      var s := Before(n, schedule);
      BeforeIs(n, schedule);
      HistoryIs(n, schedule[..|schedule| - 1], c);
      LastStep(n, schedule);
      if t < n {
        StepRecorded(s, t, ch, c);
        IsRecorded(s, After(n, schedule), t, c);
        MsgsMore(Pushes(n, schedule[..|schedule| - 1], c), t, Pending(s.pcs[t], c));
      }
      PushesMore(n, schedule, c);
      CallsMore(n, schedule, c);
      MsgsMore([], t, []);
    }
  }

  lemma {:induction false} DispatchedFirst(taken: seq<Taken>)
    requires DroppedLast(taken)
    ensures Dispatches(taken) <= Messages(taken)
    ensures (forall k | 0 <= k < |taken| :: taken[k].Dispatched?) ==> Dispatches(taken) == Messages(taken)
  {
    if taken != [] {
      var k := |taken| - 1;
      DispatchedFirst(taken[..k]);
      assert Messages(taken) == Messages(taken[..k]) + [taken[k].m];
      if taken[k].Dispatched? {
        assert forall j | 0 <= j < k :: taken[j].Dispatched?;
      }
    }
  }

  /**
   * In every run the callback of a service has been called with the messages pushed to it, once each and in the order
   * of the pushes, up to some point; what is left, until the service is being deleted, is what its queue holds.
   */
  lemma CalledInOrder(n: nat, schedule: Schedule, c: Id)
    ensures var (s, p, d) := (After(n, schedule), Msgs(Pushes(n, schedule, c)), Calls(n, schedule, c));
            if c >= |s.services| then p == [] && d == []
            else
              var v := s.services[c];
              && d <= p && |d| + |v.messages| <= |p| && p[|p| - |v.messages|..] == v.messages
              && (!v.release ==> p == d + v.messages)
  {
    var s := After(n, schedule);
    HistoryIs(n, schedule, c);
    if c < |s.services| {
      assert ServiceOK(s.services[c]);
      DispatchedFirst(s.services[c].taken);
    }
  }

  /** Where a thread is after a step, as far as pushing to `c` goes. */
  lemma PendingStep(s: State, t: nat, ch: Choice, u: nat, c: Id)
    requires Bounded(s) && t < |s.pcs| && u < |s.pcs|
    ensures var s' := Step(s, t, ch);
            && |s'.pcs| == |s.pcs|
            && (u != t ==> s'.pcs[u] == s.pcs[u])
            && Pending(s'.pcs[t], c) == Msgs(Starts(s, t, ch, c)) && (Starts(s, t, ch, c) != [] ==> s.pcs[t].Idle?)
  {
    assert Named(s.pcs[t], |s.services|);
  }

  /** Either a message is started and the pending one pushed, or nothing happens. */
  lemma Together(a: seq<Msg>, b: seq<Msg>, p: seq<Msg>, started: seq<Msg>, pushed: seq<Msg>, p': seq<Msg>)
    requires a == b + p && ((started == p' && pushed == p) || (started == [] && pushed == [] && p' == p))
    ensures a + started == b + pushed + p'
  {
  }

  lemma ByPlus(a: seq<Sent>, t: nat)
    ensures By(a + [], t) == By(a, t)
  {
    assert a + [] == a;
  }

  /** In every run a thread has pushed what it sent to a service, but for the message it is about to push. */
  lemma {:induction false} SentIsPushed(n: nat, schedule: Schedule, u: nat, c: Id)
    requires u < n
    ensures By(Sends(n, schedule, c), u) ==
            By(Pushes(n, schedule, c), u) + Pending(After(n, schedule).pcs[u], c)
    decreases |schedule|
  {
    if schedule == [] {
      Nothing(n, schedule);
    } else {
      hide *;
      var (t, ch) := schedule[|schedule| - 1];
      var before := schedule[..|schedule| - 1];
      var s := Before(n, schedule);
      BeforeIs(n, schedule);
      SentIsPushed(n, before, u, c);
      LastStep(n, schedule);
      SendsMore(n, schedule, c);
      PushesMore(n, schedule, c);
      if t < n {
        PendingStep(s, t, ch, u, c);
        SentStep(s, t, ch, u, c, Sends(n, before, c), Pushes(n, before, c));
      } else {
        ByPlus(Sends(n, before, c), u);
        ByPlus(Pushes(n, before, c), u);
      }
    }
  }

  lemma SentStep(s: State, t: nat, ch: Choice, u: nat, c: Id, sends: seq<Sent>, pushes: seq<Sent>)
    requires Bounded(s) && t < |s.pcs| && u < |s.pcs|
    requires By(sends, u) == By(pushes, u) + Pending(s.pcs[u], c)
    ensures |Step(s, t, ch).pcs| == |s.pcs|
    ensures By(sends + Starts(s, t, ch, c), u) ==
            By(pushes + Tagged(t, Pending(s.pcs[t], c)), u) + Pending(Step(s, t, ch).pcs[u], c)
  {
    hide *;
    PendingStep(s, t, ch, u, c);
    ByMore(sends, Starts(s, t, ch, c), u);
    ByMore(pushes, Tagged(t, Pending(s.pcs[t], c)), u);
    ByOne(s, t, ch, u, c);
    Together(By(sends, u), By(pushes, u), Pending(s.pcs[u], c), By(Starts(s, t, ch, c), u),
             By(Tagged(t, Pending(s.pcs[t], c)), u), Pending(Step(s, t, ch).pcs[u], c));
  }

  lemma ByOne(s: State, t: nat, ch: Choice, u: nat, c: Id)
    requires t < |s.pcs|
    ensures By(Starts(s, t, ch, c), u) == if u == t then Msgs(Starts(s, t, ch, c)) else []
    ensures By(Tagged(t, Pending(s.pcs[t], c)), u) == if u == t then Pending(s.pcs[t], c) else []
    ensures Starts(s, t, ch, c) == [] || Pending(s.pcs[t], c) == []
  {
    if ch.StartSend? { ByTagged(t, ch.m, u); }
    if s.pcs[t].Sending? {
      ByTagged(t, s.pcs[t].m, u);
      assert Tagged(t, [s.pcs[t].m]) == [Sent(t, s.pcs[t].m)];
    }
  }
}
