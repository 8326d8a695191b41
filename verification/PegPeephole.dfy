/** The peephole pass over finished code: it retargets jumps in place and changes no outcome. */
module PegPeephole {
  import opened PegTree
  import opened PegMachine
  import opened PegCodegen
  import opened PegLinking

  predicate HasLabel(x: Instr)
  {
    || x.ITestAny? || x.ITestChar? || x.ITestSet? || x.IChoice? || x.ICall?
    || x.ICommit? || x.IPartialCommit? || x.IBackCommit?
  }

  /** Jumps unconditionally to its own label. */
  predicate CommitLike(x: Instr)
  {
    x.ICommit? || x.IPartialCommit? || x.IBackCommit?
  }

  /** Never continues at an address of its own. */
  predicate Terminal(x: Instr)
  {
    x.IRet? || x.IFail? || x.IFailTwice? || x.IEnd?
  }

  function Relabel(x: Instr, off: int): Instr
    requires HasLabel(x) || x.IJmp?
  {
    x.(off := off)
  }

  /** The label of `q` moved to where jumps from it lead. */
  ghost function ThreadLabel(code: Code, q: int): Code
    requires 0 <= q < |code| && (HasLabel(code[q]) || code[q].IJmp?)
  {
    code[q := Relabel(code[q], FinalTarget(code, q + code[q].off) - q)]
  }

  /** The pass at one slot. */
  ghost function PeepholeAt(code: Code, q: int): (r: Code)
    requires 0 <= q < |code|
    ensures |r| == |code|
  {
    if HasLabel(code[q]) then ThreadLabel(code, q)
    else if code[q].IJmp? then
      var ft := FinalTarget(code, q);
      if 0 <= ft < |code| && Terminal(code[ft]) then
        var code1 := code[q := code[ft]];
        if q + 1 < |code| then code1[q + 1 := IAny] else code1
      else if 0 <= ft < |code| && CommitLike(code[ft]) then
        var fft := FinalTarget(code, ft + code[ft].off);
        ThreadLabel(code[q := Relabel(code[ft], fft - q)], q)
      else code[q := IJmp(ft - q)]
    else code
  }

  /** The pass from slot `q` on. */
  ghost function Peephole(code: Code, q: nat): (r: Code)
    ensures |r| == |code|
    decreases |code| - q
  {
    if q >= |code| then code
    else
      var code1 := PeepholeAt(code, q);
      Peephole(code1, q + SizeI(code1[q]))
  }

  // ---------- What the pass may do to a slot ----------

  /** `h` jumps lead from `p` to `q`. */
  predicate Jumps(code: Code, p: int, h: nat, q: int)
    decreases h
  {
    if h == 0 then p == q
    else 0 <= p < |code| && code[p].IJmp? && Jumps(code, p + code[p].off, h - 1, q)
  }

  ghost predicate JumpsTo(code: Code, p: int, q: int)
  {
    exists h: nat :: Jumps(code, p, h, q)
  }

  lemma {:induction false} JumpsCompose(code: Code, p: int, h: nat, q: int, h': nat, r: int)
    requires Jumps(code, p, h, q) && Jumps(code, q, h', r)
    ensures Jumps(code, p, h + h', r)
    decreases h
  {
    if h > 0 { JumpsCompose(code, p + code[p].off, h - 1, q, h', r); }
  }

  lemma JumpsToTrans(code: Code, p: int, q: int, r: int)
    requires JumpsTo(code, p, q) && JumpsTo(code, q, r)
    ensures JumpsTo(code, p, r)
  {
    var h: nat :| Jumps(code, p, h, q);
    var h': nat :| Jumps(code, q, h', r);
    JumpsCompose(code, p, h, q, h', r);
  }

  lemma JumpsToSelf(code: Code, p: int)
    ensures JumpsTo(code, p, p)
  {
    assert Jumps(code, p, 0, p);
  }

  lemma JumpsToOne(code: Code, p: int, q: int)
    requires 0 <= p < |code| && code[p].IJmp? && JumpsTo(code, p + code[p].off, q)
    ensures JumpsTo(code, p, q)
  {
    var c := p + code[p].off;
    var h: nat :| Jumps(code, c, h, q);
    assert Jumps(code, p, h + 1, q);
  }

  /** `x` at `q` and `x'` at `q'` do the same, up to jumps of `code`. */
  ghost predicate SameEffect(code: Code, x: Instr, q: int, x': Instr, q': int)
  {
    || (x == x' && q == q' && !x.IJmp? && !x.IPad?)
    || (x == x' && Terminal(x))
    || (HasLabel(x) && HasLabel(x') && x' == Relabel(x, x'.off) && (q == q' || CommitLike(x))
        && JumpsTo(code, q + x.off, q' + x'.off))
  }

  /** What slot `q` of optimised code may hold, given the code before. */
  ghost predicate Threads(code: Code, x': Instr, q: int)
    requires 0 <= q < |code|
  {
    || SameEffect(code, code[q], q, x', q)
    || (code[q].IJmp? && x'.IJmp? && JumpsTo(code, q + code[q].off, q + x'.off))
    || (code[q].IJmp? && exists f: int :: CopyOf(code, x', q, f))
    || (code[q].IPad? && (x'.IPad? || x'.IAny?))
  }

  /** Slot `q`, a jump leading to `f`, now does itself what `f` does. */
  ghost predicate CopyOf(code: Code, x': Instr, q: int, f: int)
  {
    0 <= f < |code| && JumpsTo(code, q, f) && SameEffect(code, code[f], f, x', q)
  }

  ghost predicate Threaded(code: Code, code': Code)
  {
    |code'| == |code| && forall q | 0 <= q < |code| :: Threads(code, code'[q], q)
  }

  lemma JumpOfThreaded(code: Code, code': Code, q: int)
    requires Threaded(code, code') && 0 <= q < |code| && code'[q].IJmp?
    ensures code[q].IJmp? && JumpsTo(code, q + code[q].off, q + code'[q].off)
  {
    assert Threads(code, code'[q], q);
  }

  /** A chain of jumps of the optimised code is a chain of jumps of the code before. */
  lemma {:induction false} ChainJumps(code: Code, code': Code, q: int, h: nat, f: int)
    requires Threaded(code, code') && Chain(code', q, h, f)
    ensures JumpsTo(code, q, f)
    decreases h
  {
    if h == 0 { JumpsToSelf(code, q); }
    else {
      JumpOfThreaded(code, code', q);
      ChainJumps(code, code', q + code'[q].off, h - 1, f);
      JumpsToTrans(code, q + code[q].off, q + code'[q].off, f);
      JumpsToOne(code, q, f);
    }
  }

  lemma {:induction false} ChainSkip(code: Code, p: int, h: nat, f: int, j: nat, q: int)
    requires Chain(code, p, h, f) && Jumps(code, p, j, q)
    ensures j <= h && Chain(code, q, h - j, f)
    decreases j
  {
    if j > 0 { ChainSkip(code, p + code[p].off, h - 1, f, j - 1, q); }
  }

  /** Chains still end. */
  lemma {:induction false} ChainStillEnds(code: Code, code': Code, q: int, h: nat, f: int)
    requires Threaded(code, code') && Chain(code, q, h, f)
    ensures ChainEnds(code', q)
    decreases h
  {
    if 0 <= q < |code| && code'[q].IJmp? {
      JumpOfThreaded(code, code', q);
      var c, c' := q + code[q].off, q + code'[q].off;
      var j: nat :| Jumps(code, c, j, c');
      ChainSkip(code, c, h - 1, f, j, c');
      ChainStillEnds(code, code', c', h - 1 - j, f);
      var h': nat, f' :| Chain(code', c', h', f');
      assert Chain(code', q, h' + 1, f');
    } else {
      assert Chain(code', q, 0, q);
    }
  }

  /** Where jumps of the optimised code end is where jumps of the code before lead. */
  lemma TargetJumps(code: Code, code': Code, q: int)
    requires Threaded(code, code') && ChainEnds(code, q)
    ensures JumpsTo(code, q, FinalTarget(code', q))
    ensures var f := FinalTarget(code', q); !(0 <= f < |code| && code'[f].IJmp?)
  {
    var h: nat, f: int :| Chain(code, q, h, f);
    ChainStillEnds(code, code', q, h, f);
    var f' := FinalTarget(code', q);
    var h': nat :| Chain(code', q, h', f');
    ChainJumps(code, code', q, h', f');
    ChainLast(code', q, h', f');
  }

  lemma {:induction false} ChainLast(code: Code, q: int, h: nat, f: int)
    requires Chain(code, q, h, f)
    ensures !(0 <= f < |code| && code[f].IJmp?)
    decreases h
  {
    if h > 0 { ChainLast(code, q + code[q].off, h - 1, f); }
  }

  /** Every chain of jumps of the code ends. */
  ghost predicate ChainsEnd(code: Code)
  {
    forall q: int :: ChainEnds(code, q)
  }

  lemma SameEffectRelabel(code: Code, x: Instr, p: int, x': Instr, q: int, f: int)
    requires SameEffect(code, x, p, x', q) && HasLabel(x') && JumpsTo(code, q + x'.off, f)
    ensures SameEffect(code, x, p, Relabel(x', f - q), q)
  {
    if x == x' && p == q { assert q + x'.off == p + x.off; }
    else { JumpsToTrans(code, p + x.off, q + x'.off, f); }
    assert q + (f - q) == f;
  }

  lemma ThreadLabelKeeps(code: Code, code1: Code, q: int)
    requires Threaded(code, code1) && ChainsEnd(code) && 0 <= q < |code| && HasLabel(code1[q])
    ensures Threaded(code, ThreadLabel(code1, q))
  {
    var x := code1[q];
    var f := FinalTarget(code1, q + x.off);
    TargetJumps(code, code1, q + x.off);
    assert Threads(code, x, q);
    if SameEffect(code, code[q], q, x, q) {
      SameEffectRelabel(code, code[q], q, x, q, f);
    } else {
      var g: int :| CopyOf(code, x, q, g);
      SameEffectRelabel(code, code[g], g, x, q, f);
      assert CopyOf(code, Relabel(x, f - q), q, g);
    }
  }

  /** A jump may become what it leads to. */
  lemma CopyKeeps(code: Code, code1: Code, q: int, ft: int, x: Instr)
    requires Threaded(code, code1) && ChainsEnd(code) && 0 <= q < |code| && code[q].IJmp? && 0 <= ft < |code|
    requires JumpsTo(code, q, ft) && !code1[ft].IJmp? && !code1[ft].IPad? && !code1[ft].IAny?
    requires if CommitLike(code1[ft])
             then HasLabel(x) && x == Relabel(code1[ft], x.off) && JumpsTo(code, ft + code1[ft].off, q + x.off)
             else Terminal(x) && x == code1[ft]
    ensures Threads(code, x, q)
  {
    var y := code1[ft];
    assert Threads(code, y, ft);
    var g: int :| (g == ft || JumpsTo(code, ft, g)) && 0 <= g < |code| && SameEffect(code, code[g], g, y, ft);
    if g != ft { JumpsToTrans(code, q, ft, g); }
    if CommitLike(y) { CopyMoves(code, code[g], g, y, ft, x, q); } else { CopyStays(code, code[g], g, y, ft, q); }
    assert CopyOf(code, x, q, g);
  }

  lemma CopyStays(code: Code, x: Instr, p: int, y: Instr, m: int, q: int)
    requires SameEffect(code, x, p, y, m) && Terminal(y)
    ensures SameEffect(code, x, p, y, q)
  {
  }

  lemma CopyMoves(code: Code, x: Instr, p: int, y: Instr, m: int, z: Instr, q: int)
    requires SameEffect(code, x, p, y, m) && CommitLike(y) && HasLabel(z) && z == Relabel(y, z.off)
    requires JumpsTo(code, m + y.off, q + z.off)
    ensures SameEffect(code, x, p, z, q)
  {
    if x == y && p == m { assert m + y.off == p + x.off; }
    else { JumpsToTrans(code, p + x.off, m + y.off, q + z.off); }
  }

  lemma ThreadedUpdate(code: Code, code1: Code, q: int, x: Instr)
    requires Threaded(code, code1) && 0 <= q < |code| && Threads(code, x, q)
    ensures Threaded(code, code1[q := x])
  {
  }

  lemma PeepholeAtKeeps(code: Code, code1: Code, q: int)
    requires Threaded(code, code1) && ChainsEnd(code) && WellSized(code) && 0 <= q < |code|
    requires code1[q] == code[q] || code[q].IPad?
    ensures Threaded(code, PeepholeAt(code1, q))
  {
    if HasLabel(code1[q]) { ThreadLabelKeeps(code, code1, q); }
    else if code1[q].IJmp? { JumpKeeps(code, code1, q); }
  }

  lemma JumpKeeps(code: Code, code1: Code, q: int)
    requires Threaded(code, code1) && ChainsEnd(code) && WellSized(code) && 0 <= q < |code|
    requires code1[q] == code[q] && code[q].IJmp?
    ensures Threaded(code, PeepholeAt(code1, q))
  {
    hide Threaded, Threads, WellSized, ChainEnds;
    var ft := FinalTarget(code1, q);
    JumpLands(code, code1, q);
    if 0 <= ft < |code| && Terminal(code1[ft]) {
      CopyKeeps(code, code1, q, ft, code1[ft]);
      ThreadedUpdate(code, code1, q, code1[ft]);
      if q + 1 < |code| {
        PadAfterJump(code, q);
        ThreadedUpdate(code, code1[q := code1[ft]], q + 1, IAny);
      }
    } else if 0 <= ft < |code| && CommitLike(code1[ft]) {
      CommitCopyKeeps(code, code1, q);
      ThreadLabelKeeps(code, code1[q := Relabel(code1[ft], FinalTarget(code1, ft + code1[ft].off) - q)], q);
    } else {
      JumpShortens(code, q, ft);
      ThreadedUpdate(code, code1, q, IJmp(ft - q));
    }
  }

  /** A jump to a commit may become that commit. */
  lemma CommitCopyKeeps(code: Code, code1: Code, q: int)
    requires Threaded(code, code1) && ChainsEnd(code) && 0 <= q < |code| && code[q].IJmp? && code1[q].IJmp?
    requires var ft := FinalTarget(code1, q); 0 <= ft < |code| && CommitLike(code1[ft])
    ensures var ft := FinalTarget(code1, q);
            Threaded(code, code1[q := Relabel(code1[ft], FinalTarget(code1, ft + code1[ft].off) - q)])
  {
    hide Threaded, Threads, ChainEnds;
    JumpLands(code, code1, q);
    var ft := FinalTarget(code1, q);
    var c := ft + code1[ft].off;
    TargetJumps(code, code1, c);
    var fft := FinalTarget(code1, c);
    var x := Relabel(code1[ft], fft - q);
    assert q + x.off == fft;
    CopyKeeps(code, code1, q, ft, x);
    ThreadedUpdate(code, code1, q, x);
  }

  lemma JumpLands(code: Code, code1: Code, q: int)
    requires Threaded(code, code1) && ChainsEnd(code) && 0 <= q < |code| && code1[q].IJmp?
    ensures |code1| == |code|
    ensures var ft := FinalTarget(code1, q); JumpsTo(code, q, ft) && q != ft && (0 <= ft < |code| ==> !code1[ft].IJmp?)
  {
    TargetJumps(code, code1, q);
  }

  lemma PadAfterJump(code: Code, q: int)
    requires WellSized(code) && 0 <= q && q + 1 < |code| && code[q].IJmp?
    ensures Threads(code, IAny, q + 1)
  {
  }

  lemma JumpShortens(code: Code, q: int, ft: int)
    requires 0 <= q < |code| && code[q].IJmp? && JumpsTo(code, q, ft) && q != ft
    ensures Threads(code, IJmp(ft - q), q)
  {
    AfterFirst(code, q, ft);
    assert q + (ft - q) == ft;
  }

  /** A jump that leads somewhere else leads there from its target. */
  lemma AfterFirst(code: Code, q: int, f: int)
    requires 0 <= q < |code| && code[q].IJmp? && JumpsTo(code, q, f) && q != f
    ensures JumpsTo(code, q + code[q].off, f)
  {
    var h: nat :| Jumps(code, q, h, f);
    var c := q + code[q].off;
    assert Jumps(code, c, h - 1, f);
  }

  /** The pass only does what Threads allows. */
  lemma {:induction false} PeepholeThreads(code: Code, code1: Code, q: nat)
    requires Threaded(code, code1) && ChainsEnd(code) && WellSized(code)
    requires forall x | q <= x < |code| :: code1[x] == code[x] || code[x].IPad?
    ensures Threaded(code, Peephole(code1, q))
    decreases |code| - q
  {
    if q < |code| {
      var code2 := PeepholeAt(code1, q);
      PeepholeAtKeeps(code, code1, q);
      PeepholeThreads(code, code2, q + SizeI(code2[q]));
    }
  }

  // ---------- Simulation ----------

  ghost predicate SameEntry(code: Code, e: Entry, e': Entry)
  {
    JumpsTo(code, e.p, e'.p) && e.Back? == e'.Back? && (e.Back? ==> e.i == e'.i)
  }

  /** Stacks that differ only by jumps still to be followed. */
  ghost predicate SameStack(code: Code, k: Stack, k': Stack)
  {
    match (k, k')
    case (Empty, Empty) => true
    case (Frame(e, r), Frame(e', r')) => SameEntry(code, e, e') && SameStack(code, r, r')
    case _ => false
  }

  /** Configurations that differ only by jumps still to be followed. */
  ghost predicate SameConfig(code: Code, c: Config, c': Config)
  {
    if c.Run? && c'.Run? then JumpsTo(code, c.p, c'.p) && c.i == c'.i && SameStack(code, c.k, c'.k) else c == c'
  }

  lemma {:induction false} SameStackSelf(code: Code, k: Stack)
    ensures SameStack(code, k, k)
  {
    if k.Frame? {
      JumpsToSelf(code, k.top.p);
      SameStackSelf(code, k.rest);
    }
  }

  lemma {:induction false} FailToSame(code: Code, k: Stack, k': Stack)
    requires SameStack(code, k, k')
    ensures SameConfig(code, FailTo(k), FailTo(k'))
  {
    if k.Frame? && k.top.Ret? { FailToSame(code, k.rest, k'.rest); }
  }

  /** Instructions of the same effect take same configurations to same configurations. */
  lemma EffectSame(code: Code, s: Subject, x: Instr, q: int, x': Instr, q': int, i: nat, k: Stack, k': Stack)
    requires SameEffect(code, x, q, x', q') && SameStack(code, k, k')
    ensures SameConfig(code, Effect(x, q, s, i, k), Effect(x', q', s, i, k'))
  {
    if Terminal(x) { TerminalSame(code, s, x, q, q', i, k, k'); }
    else if HasLabel(x) { LabelSame(code, s, x, q, x', q', i, k, k'); }
    else { PlainSame(code, s, x, q, i, k, k'); }
  }

  lemma TerminalSame(code: Code, s: Subject, x: Instr, q: int, q': int, i: nat, k: Stack, k': Stack)
    requires Terminal(x) && SameStack(code, k, k')
    ensures SameConfig(code, Effect(x, q, s, i, k), Effect(x, q', s, i, k'))
  {
    FailToSame(code, k, k');
    if k.Frame? { FailToSame(code, k.rest, k'.rest); }
  }

  lemma PlainSame(code: Code, s: Subject, x: Instr, q: int, i: nat, k: Stack, k': Stack)
    requires !Terminal(x) && !HasLabel(x) && !x.IJmp? && SameStack(code, k, k')
    ensures SameConfig(code, Effect(x, q, s, i, k), Effect(x, q, s, i, k'))
  {
    FailToSame(code, k, k');
    JumpsToSelf(code, q + SizeI(x));
  }

  lemma LabelSame(code: Code, s: Subject, x: Instr, q: int, x': Instr, q': int, i: nat, k: Stack, k': Stack)
    requires HasLabel(x) && SameEffect(code, x, q, x', q') && SameStack(code, k, k')
    ensures SameConfig(code, Effect(x, q, s, i, k), Effect(x', q', s, i, k'))
  {
    var y := LabelsLead(code, x, q, x', q');
    hide SameEffect, JumpsTo;
    if CommitLike(x) { CommitSame(code, s, x, q, x', q', i, k, k'); }
    else { BranchSame(code, s, x, q, x', i, k, k'); }
  }

  /** The labels of two instructions of the same effect. */
  lemma LabelsLead(code: Code, x: Instr, q: int, x': Instr, q': int) returns (off: int)
    requires HasLabel(x) && SameEffect(code, x, q, x', q')
    ensures HasLabel(x') && off == x'.off && x' == Relabel(x, off) && (q == q' || CommitLike(x))
    ensures JumpsTo(code, q + x.off, q' + off)
  {
    off := x'.off;
    JumpsToSelf(code, q + x.off);
  }

  lemma CommitSame(code: Code, s: Subject, x: Instr, q: int, x': Instr, q': int, i: nat, k: Stack, k': Stack)
    requires CommitLike(x) && HasLabel(x') && x' == Relabel(x, x'.off) && JumpsTo(code, q + x.off, q' + x'.off)
    requires SameStack(code, k, k')
    ensures SameConfig(code, Effect(x, q, s, i, k), Effect(x', q', s, i, k'))
  {
    hide JumpsTo;
    if k.Frame? { assert SameEntry(code, k.top, k'.top); }
  }

  lemma BranchSame(code: Code, s: Subject, x: Instr, q: int, x': Instr, i: nat, k: Stack, k': Stack)
    requires HasLabel(x) && !CommitLike(x) && HasLabel(x') && x' == Relabel(x, x'.off)
    requires JumpsTo(code, q + x.off, q + x'.off) && SameStack(code, k, k')
    ensures SameConfig(code, Effect(x, q, s, i, k), Effect(x', q, s, i, k'))
  {
    JumpsToSelf(code, q + SizeI(x));
    hide JumpsTo;
  }

  /**
   * One step of the optimised code is matched, at a position where no jump is pending, by jumps and at most one step.
   */
  lemma StepMatched(code: Code, code': Code, s: Subject, c: Config, c': Config) returns (m: nat)
    requires Threaded(code, code') && c.Run? && c'.Run? && SameConfig(code, c, c') && c.p == c'.p
    requires !(0 <= c.p < |code| && code[c.p].IPad?)
    ensures m > 0 && SameConfig(code, Steps(code, s, c, m), Step(code', s, c'))
  {
    var Run(p, i, k) := c;
    if p == GIVEUP || p < 0 || p >= |code| {
      m := 1;
      assert Steps(code, s, c, 1) == Step(code, s, c);
    } else {
      assert Threads(code, code'[p], p);
      if SameEffect(code, code[p], p, code'[p], p) {
        m := 1;
        assert Steps(code, s, c, 1) == Step(code, s, c);
        EffectSame(code, s, code[p], p, code'[p], p, i, k, c'.k);
      } else if code'[p].IJmp? && JumpsTo(code, p + code[p].off, p + code'[p].off) {
        m := 1;
        assert Steps(code, s, c, 1) == Step(code, s, c);
      } else {
        var f: int :| CopyOf(code, code'[p], p, f);
        var h: nat :| Jumps(code, p, h, f);
        m := h + 1;
        JumpSteps(code, s, p, h, f, i, k, 1);
        assert Steps(code, s, Run(f, i, k), 1) == Step(code, s, Run(f, i, k));
        EffectSame(code, s, code[f], f, code'[p], p, i, k, c'.k);
      }
    }
  }

  /** Jumps take one step each. */
  lemma {:induction false} JumpSteps(code: Code, s: Subject, p: int, h: nat, q: int, i: nat, k: Stack, m: nat)
    requires Jumps(code, p, h, q)
    ensures Steps(code, s, Run(p, i, k), h + m) == Steps(code, s, Run(q, i, k), m)
    decreases h
  {
    if h > 0 { JumpSteps(code, s, p + code[p].off, h - 1, q, i, k, m); }
  }

  lemma {:induction false} StepsCompose(code: Code, s: Subject, c: Config, m: nat, n: nat)
    ensures Steps(code, s, c, m + n) == Steps(code, s, Steps(code, s, c, m), n)
    decreases m
  {
    if m > 0 && c.Run? { StepsCompose(code, s, Step(code, s, c), m - 1, n); }
  }

  /** If the code before stops within `n` steps, short of an assertion, the optimised code stops the same way. */
  lemma {:induction false} Forward(code: Code, code': Code, s: Subject, c: Config, c': Config, n: nat)
    requires Threaded(code, code') && SameConfig(code, c, c')
    requires Steps(code, s, c, n).Done?
    ensures Out(code', s, c') == Steps(code, s, c, n)
    decreases n
  {
    if !c.Run? { OutDone(code', s, c'); }
    else {
      var h: nat :| Jumps(code, c.p, h, c'.p);
      if h > 0 {
        var c1 := Step(code, s, c);
        assert Jumps(code, c1.p, h - 1, c'.p);
        Forward(code, code', s, c1, c', n - 1);
      } else {
        assert !(0 <= c.p < |code| && code[c.p].IPad?);
        var m := StepMatched(code, code', s, c, c');
        var c2, c2' := Steps(code, s, c, m), Step(code', s, c');
        if m <= n {
          StepsCompose(code, s, c, m, n - m);
          Forward(code, code', s, c2, c2', n - m);
        } else {
          StepsUnique(code, s, c, n, m);
          OutDone(code', s, c2');
        }
        Exec(code', s, c'.p, c'.i, c'.k);
      }
    }
  }

  /** If the optimised code stops, the code before stops too. */
  lemma {:induction false} Backward(code: Code, code': Code, s: Subject, c: Config, c': Config, n: nat)
    requires Threaded(code, code') && SameConfig(code, c, c')
    requires !Steps(code', s, c', n).Run?
    ensures Halts(code, s, c)
    decreases n
  {
    if !c.Run? { assert Steps(code, s, c, 0) == c; }
    else {
      var h: nat :| Jumps(code, c.p, h, c'.p);
      var d := Run(c'.p, c.i, c.k);
      if 0 <= d.p < |code| && code[d.p].IPad? {
        assert Steps(code, s, d, 1) == Step(code, s, d) == Stuck;
        JumpSteps(code, s, c.p, h, d.p, c.i, c.k, 1);
      } else {
        JumpsToSelf(code, d.p);
        var m := StepMatched(code, code', s, d, c');
        var e := Steps(code, s, d, m);
        Backward(code, code', s, e, Step(code', s, c'), n - 1);
        var l: nat :| !Steps(code, s, e, l).Run?;
        StepsCompose(code, s, d, m, l);
        JumpSteps(code, s, c.p, h, d.p, c.i, c.k, m + l);
      }
    }
  }

  /**
   * The pass changes no outcome, of stopping with a result or of running forever, on any subject from any
   * position, provided the code before runs into none of the machine's assertions.
   */
  lemma PeepholeSound(code: Code, s: Subject, i: nat)
    requires WellSized(code) && ChainsEnd(code)
    requires Out(code, s, Start(i)) != Stuck
    ensures Out(Peephole(code, 0), s, Start(i)) == Out(code, s, Start(i))
  {
    var code' := Peephole(code, 0);
    SelfThreaded(code);
    PeepholeThreads(code, code, 0);
    var c := Start(i);
    SameStackSelf(code, c.k);
    JumpsToSelf(code, 0);
    if n: nat :| !Steps(code, s, c, n).Run? {
      OutIs(code, s, c, n);
      Forward(code, code', s, c, c, n);
    } else {
      forall n: nat ensures Steps(code', s, c, n).Run? {
        if !Steps(code', s, c, n).Run? { Backward(code, code', s, c, c, n); }
      }
    }
  }

  lemma SelfThreaded(code: Code)
    ensures Threaded(code, code)
  {
    forall q | 0 <= q < |code| ensures Threads(code, code[q], q) {
      if code[q].IJmp? { JumpsToSelf(code, q + code[q].off); }
    }
  }
}
