/**
 * The reader/writer lock. Threads take the atomic steps of the lock one at a time: reads of `write` and `read`, the
 * test-and-set of `write`, and the additions to `read`.
 */
module RwLock {
  /** Where a thread is. */
  datatype Pc =
    | Idle
    | Await            // rlock, before it looks at `write`
    | Add              // has seen no writer, about to count itself
    | Check            // counted, about to look at `write` again
    | BackOff          // counted, has seen a writer
    | Reading          // inside the section of a reader
    | Claim            // wlock, before the test-and-set
    | Drain            // has set `write`, waits for the readers to go
    | Writing          // inside the section of a writer

  datatype State = State(pcs: seq<Pc>, write: int, read: int)

  /** What an idle thread does next. */
  datatype Choice = Stay | Read | Write

  function Init(n: nat): State
  {
    State(seq(n, _ => Idle), 0, 0)
  }

  function SetPc(s: State, t: nat, pc: Pc): State
    requires t < |s.pcs|
  {
    s.(pcs := s.pcs[t := pc])
  }

  /** One atomic step of thread `t`. */
  function Step(s: State, t: nat, ch: Choice): State
    requires t < |s.pcs|
  {
    match s.pcs[t]
    case Idle => if ch.Read? then SetPc(s, t, Await) else if ch.Write? then SetPc(s, t, Claim) else s
    case Await => if s.write != 0 then s else SetPc(s, t, Add)
    case Add => SetPc(s, t, Check).(read := s.read + 1)
    case Check => if s.write != 0 then SetPc(s, t, BackOff) else SetPc(s, t, Reading)
    case BackOff => SetPc(s, t, Await).(read := s.read - 1)
    case Reading => SetPc(s, t, Idle).(read := s.read - 1)
    case Claim => if s.write != 0 then s else SetPc(s, t, Drain).(write := 1)
    case Drain => if s.read != 0 then s else SetPc(s, t, Writing)
    case Writing => SetPc(s, t, Idle).(write := 0)
  }

  function Run(s: State, schedule: seq<(nat, Choice)>): (s': State)
    ensures |s'.pcs| == |s.pcs|
    decreases |schedule|
  {
    if schedule == [] then s
    else
      var before := Run(s, schedule[..|schedule| - 1]);
      var (t, ch) := schedule[|schedule| - 1];
      if t < |before.pcs| then Step(before, t, ch) else before
  }

  // ---------- What every run keeps ----------

  predicate Counted(pc: Pc)
  {
    pc.Check? || pc.BackOff? || pc.Reading?
  }

  predicate Owns(pc: Pc)
  {
    pc.Drain? || pc.Writing?
  }

  function Readers(pcs: seq<Pc>): set<nat>
  {
    set t | 0 <= t < |pcs| && Counted(pcs[t])
  }

  function Owners(pcs: seq<Pc>): set<nat>
  {
    set t | 0 <= t < |pcs| && Owns(pcs[t])
  }

  predicate Counts(s: State)
  {
    s.read == |Readers(s.pcs)| && s.write == |Owners(s.pcs)| <= 1
  }

  /** Threads `t` and `u` are not in sections that exclude each other. */
  predicate Apart(s: State, t: nat, u: nat)
    requires t < |s.pcs| && u < |s.pcs|
  {
    !(s.pcs[t].Writing? && s.pcs[u].Reading?)
  }

  predicate Inv(s: State)
  {
    Counts(s) && forall t, u | 0 <= t < |s.pcs| && 0 <= u < |s.pcs| :: Apart(s, t, u)
  }

  /** Moving one thread changes the number of those counted by that thread at most. */
  lemma ReadersChange(pcs: seq<Pc>, t: nat, pc: Pc)
    requires t < |pcs|
    ensures |Readers(pcs[t := pc])| + (if Counted(pcs[t]) then 1 else 0) ==
            |Readers(pcs)| + (if Counted(pc) then 1 else 0)
  {
    var others := Readers(pcs) - {t};
    assert Readers(pcs) == if Counted(pcs[t]) then others + {t} else others;
    assert Readers(pcs[t := pc]) == if Counted(pc) then others + {t} else others;
  }

  lemma OwnersChange(pcs: seq<Pc>, t: nat, pc: Pc)
    requires t < |pcs|
    ensures |Owners(pcs[t := pc])| + (if Owns(pcs[t]) then 1 else 0) == |Owners(pcs)| + (if Owns(pc) then 1 else 0)
  {
    var others := Owners(pcs) - {t};
    assert Owners(pcs) == if Owns(pcs[t]) then others + {t} else others;
    assert Owners(pcs[t := pc]) == if Owns(pc) then others + {t} else others;
  }

  lemma CountsKept(s: State, t: nat, ch: Choice)
    requires Counts(s) && t < |s.pcs|
    ensures Counts(Step(s, t, ch))
  {
    hide Readers, Owners;
    var s' := Step(s, t, ch);
    assert s'.pcs == s.pcs[t := s'.pcs[t]];
    ReadersChange(s.pcs, t, s'.pcs[t]);
    OwnersChange(s.pcs, t, s'.pcs[t]);
  }

  lemma ApartKept(s: State, t: nat, ch: Choice, a: nat, b: nat)
    requires Inv(s) && t < |s.pcs| && a < |s.pcs| && b < |s.pcs|
    ensures Apart(Step(s, t, ch), a, b)
  {
    assert Apart(s, a, b);
    if s.write == 0 { NobodyWrites(s); }
    if s.read == 0 { NobodyReads(s); }
    hide Inv;
  }

  lemma StepKeeps(s: State, t: nat, ch: Choice)
    requires Inv(s) && t < |s.pcs|
    ensures Inv(Step(s, t, ch))
  {
    hide Step, Apart, Counts;
    var s' := Step(s, t, ch);
    CountsKept(s, t, ch);
    SameThreads(s, t, ch);
    forall a, b | 0 <= a < |s.pcs| && 0 <= b < |s.pcs| ensures Apart(s', a, b) { ApartKept(s, t, ch, a, b); }
  }

  lemma SameThreads(s: State, t: nat, ch: Choice)
    requires t < |s.pcs|
    ensures |Step(s, t, ch).pcs| == |s.pcs|
  {
  }

  lemma NobodyWrites(s: State)
    requires Inv(s) && s.write == 0
    ensures forall u | 0 <= u < |s.pcs| :: !Owns(s.pcs[u])
  {
    assert Owners(s.pcs) == {};
    forall u | 0 <= u < |s.pcs| ensures !Owns(s.pcs[u]) { assert u !in Owners(s.pcs); }
  }

  lemma NobodyReads(s: State)
    requires Inv(s) && s.read == 0
    ensures forall u | 0 <= u < |s.pcs| :: !Counted(s.pcs[u])
  {
    assert Readers(s.pcs) == {};
    forall u | 0 <= u < |s.pcs| ensures !Counted(s.pcs[u]) { assert u !in Readers(s.pcs); }
  }

  lemma {:induction false} RunKeeps(s: State, schedule: seq<(nat, Choice)>)
    requires Inv(s)
    ensures Inv(Run(s, schedule))
    decreases |schedule|
  {
    if schedule != [] {
      RunKeeps(s, schedule[..|schedule| - 1]);
      var (t, ch) := schedule[|schedule| - 1];
      var before := Run(s, schedule[..|schedule| - 1]);
      if t < |before.pcs| { StepKeeps(before, t, ch); }
    }
  }

  lemma InitInv(n: nat)
    ensures Inv(Init(n))
  {
    assert Readers(Init(n).pcs) == {} && Owners(Init(n).pcs) == {};
  }

  lemma OnlyOwner(s: State, t: nat, u: nat)
    requires Inv(s) && t < |s.pcs| && u < |s.pcs| && Owns(s.pcs[t]) && Owns(s.pcs[u])
    ensures t == u
  {
    var both := {t, u};
    assert |both| == if t == u then 1 else 2;
    assert both <= Owners(s.pcs);
    Smaller(both, Owners(s.pcs));
  }

  lemma {:induction false} Smaller(a: set<nat>, b: set<nat>)
    requires a <= b
    ensures |a| <= |b|
  {
    if a != {} {
      var x :| x in a;
      Smaller(a - {x}, b - {x});
    }
  }

  /**
   * In every run of any number of threads: a writer in its section is there alone, and `read` is the number of threads
   * that read, are checking for a writer, or are backing off from one.
   */
  lemma WriterAlone(n: nat, schedule: seq<(nat, Choice)>, t: nat, u: nat)
    requires t < n && u < n && t != u
    ensures var s := Run(Init(n), schedule);
            && (s.pcs[t].Writing? ==> !s.pcs[u].Writing? && !s.pcs[u].Reading?)
            && s.read == |Readers(s.pcs)| && s.write == |Owners(s.pcs)| <= 1
  {
    InitInv(n);
    RunKeeps(Init(n), schedule);
    var s := Run(Init(n), schedule);
    assert Apart(s, t, u);
    if s.pcs[t].Writing? && s.pcs[u].Writing? { OnlyOwner(s, t, u); }
  }

  // ---------- Nobody is stuck ----------

  /** How far a thread is from leaving, while somebody holds `write` or not. */
  function Rank(pc: Pc, held: bool): nat
  {
    match pc
    case Idle => 0
    case Reading => 1
    case Check => if held then 6 else 2
    case Add => if held then 7 else 3
    case Await => 4
    case BackOff => 5
    case Claim => 3
    case Drain => 2
    case Writing => 1
  }

  function Total(pcs: seq<Pc>, held: bool): nat
  {
    if pcs == [] then 0 else Total(pcs[..|pcs| - 1], held) + Rank(pcs[|pcs| - 1], held)
  }

  function Distance(s: State): nat
  {
    Total(s.pcs, s.write != 0)
  }

  lemma {:induction false} TotalUpdate(pcs: seq<Pc>, t: nat, pc: Pc, held: bool)
    requires t < |pcs|
    ensures Total(pcs[t := pc], held) == Total(pcs, held) - Rank(pcs[t], held) + Rank(pc, held)
  {
    var n := |pcs| - 1;
    if t < n {
      TotalUpdate(pcs[..n], t, pc, held);
      assert pcs[t := pc][..n] == pcs[..n][t := pc];
    } else {
      assert pcs[t := pc][..n] == pcs[..n];
    }
  }

  lemma {:induction false} TotalHeld(pcs: seq<Pc>)
    ensures Total(pcs, false) <= Total(pcs, true)
    ensures (forall t | 0 <= t < |pcs| :: !pcs[t].Check? && !pcs[t].Add?) ==> Total(pcs, false) == Total(pcs, true)
  {
    if pcs != [] { TotalHeld(pcs[..|pcs| - 1]); }
  }

  /** A step of `t` that takes it closer to leaving, with nobody put back. */
  lemma Closer(s: State, t: nat)
    requires Inv(s) && t < |s.pcs| && !s.pcs[t].Idle?
    requires s.pcs[t].Await? || s.pcs[t].Add? ==> s.write == 0
    requires s.pcs[t].Drain? ==> s.read == 0
    requires s.pcs[t].Claim? ==> s.write == 0 && forall u | 0 <= u < |s.pcs| :: !s.pcs[u].Check? && !s.pcs[u].Add?
    ensures Distance(Step(s, t, Stay)) < Distance(s)
  {
    var s' := Step(s, t, Stay);
    var held, held' := s.write != 0, s'.write != 0;
    assert s'.pcs == s.pcs[t := s'.pcs[t]];
    TotalUpdate(s.pcs, t, s'.pcs[t], held);
    TotalHeld(s'.pcs);
    if s.pcs[t].Claim? {
      assert forall u | 0 <= u < |s'.pcs| :: !s'.pcs[u].Check? && !s'.pcs[u].Add?;
    }
  }

  /** While somebody is not idle, some thread can come closer to leaving. */
  lemma SomeCloser(s: State) returns (t: nat)
    requires Inv(s) && exists u :: 0 <= u < |s.pcs| && !s.pcs[u].Idle?
    ensures t < |s.pcs| && Distance(Step(s, t, Stay)) < Distance(s)
  {
    if u :| 0 <= u < |s.pcs| && Counted(s.pcs[u]) {
      t := u;
    } else {
      assert Readers(s.pcs) == {};
      if u :| 0 <= u < |s.pcs| && Owns(s.pcs[u]) {
        t := u;
      } else {
        assert Owners(s.pcs) == {};
        if u :| 0 <= u < |s.pcs| && (s.pcs[u].Add? || s.pcs[u].Await?) {
          t := u;
        } else {
          t :| t < |s.pcs| && !s.pcs[t].Idle?;
          assert s.pcs[t].Claim?;
        }
      }
    }
    Closer(s, t);
  }

  lemma {:induction false} RunAppend(s: State, a: seq<(nat, Choice)>, b: seq<(nat, Choice)>)
    ensures Run(s, a + b) == Run(Run(s, a), b)
    decreases |b|
  {
    if b == [] { assert a + b == a; }
    else {
      var n := |b| - 1;
      assert (a + b)[..|a + b| - 1] == a + b[..n];
      RunAppend(s, a, b[..n]);
    }
  }

  /** From every reachable state all threads can leave the lock. */
  lemma {:induction false} CanFinish(s: State) returns (schedule: seq<(nat, Choice)>)
    requires Inv(s)
    ensures var s' := Run(s, schedule);
            s'.write == 0 && s'.read == 0 && forall u | 0 <= u < |s'.pcs| :: s'.pcs[u].Idle?
    decreases Distance(s)
  {
    if exists u :: 0 <= u < |s.pcs| && !s.pcs[u].Idle? {
      var t := SomeCloser(s);
      StepKeeps(s, t, Stay);
      var rest := CanFinish(Step(s, t, Stay));
      schedule := [(t, Stay)] + rest;
      RunAppend(s, [(t, Stay)], rest);
      assert Run(s, []) == s;
      assert [(t, Stay)][..0] == [];
    } else {
      assert Readers(s.pcs) == {} && Owners(s.pcs) == {};
      schedule := [];
    }
  }

  /** No run gets stuck: whatever happened, it can go on until every thread has left the lock. */
  lemma NeverStuck(n: nat, schedule: seq<(nat, Choice)>) returns (more: seq<(nat, Choice)>)
    ensures var s := Run(Init(n), schedule + more);
            s.write == 0 && s.read == 0 && forall u | 0 <= u < n :: s.pcs[u].Idle?
  {
    InitInv(n);
    RunKeeps(Init(n), schedule);
    more := CanFinish(Run(Init(n), schedule));
    RunAppend(Init(n), schedule, more);
  }
}
