/** Where the code of a pattern ends up once the calls of its grammars have their targets. */
module PegLinking {
  import opened PegTree
  import opened PegAnalysis
  import opened PegMachine
  import opened PegCodegen

  /** The jumps from `q` lead to a return. */
  ghost predicate LeadsToReturn(code: Code, q: int)
  {
    exists h: nat, f: int :: Chain(code, q, h, f) && 0 <= f < |code| && code[f].IRet?
  }

  /** Slot `q` of the final code holds `x`, with open calls resolved for rules at `pos`. */
  ghost predicate Linked(code: Code, q: int, x: Instr, pos: seq<int>)
  {
    0 <= q < |code| &&
    match x
    case IOpenCall(r) =>
      && r < |pos|
      && (|| code[q] == ICall(pos[r] - q)
          || (code[q] == IJmp(pos[r] - q) && LeadsToReturn(code, q + 2)))
    case _ => code[q] == x
  }

  /** The final code holds `blk` from slot `a` on. */
  ghost predicate CodeAt(code: Code, a: int, blk: Code, pos: seq<int>)
  {
    0 <= a && a + |blk| <= |code| && forall q | 0 <= q < |blk| :: Linked(code, a + q, blk[q], pos)
  }

  lemma CodeAtSplit(code: Code, a: int, x: Code, y: Code, pos: seq<int>)
    requires CodeAt(code, a, x + y, pos)
    ensures CodeAt(code, a, x, pos) && CodeAt(code, a + |x|, y, pos)
  {
    forall q | 0 <= q < |x| ensures Linked(code, a + q, x[q], pos) { assert (x + y)[q] == x[q]; }
    forall q | 0 <= q < |y| ensures Linked(code, a + |x| + q, y[q], pos) {
      assert (x + y)[|x| + q] == y[q];
      assert a + (|x| + q) == a + |x| + q;
    }
  }

  lemma CodeAtSplit4(code: Code, a: int, x: Code, y: Code, z: Code, u: Code, pos: seq<int>)
    requires CodeAt(code, a, x + y + z + u, pos)
    ensures CodeAt(code, a, x, pos) && CodeAt(code, a + |x|, y, pos) && CodeAt(code, a + |x| + |y|, z, pos)
    ensures CodeAt(code, a + |x| + |y| + |z|, u, pos)
  {
    CodeAtSplit(code, a, x + y + z, u, pos);
    CodeAtSplit(code, a, x + y, z, pos);
    CodeAtSplit(code, a, x, y, pos);
  }

  lemma CodeAtSplit5(code: Code, a: int, x: Code, y: Code, z: Code, u: Code, v: Code, pos: seq<int>)
    requires CodeAt(code, a, x + y + z + u + v, pos)
    ensures CodeAt(code, a, x, pos) && CodeAt(code, a + |x|, y, pos) && CodeAt(code, a + |x| + |y|, z, pos)
    ensures CodeAt(code, a + |x| + |y| + |z|, u, pos) && CodeAt(code, a + |x| + |y| + |z| + |u|, v, pos)
  {
    CodeAtSplit(code, a, x + y + z + u, v, pos);
    CodeAtSplit4(code, a, x, y, z, u, pos);
  }

  /** Slot `a` holds the first instruction of its block. */
  lemma CodeAtHead(code: Code, a: int, x: Instr, pos: seq<int>)
    requires !x.IPad? && !x.IOpenCall? && CodeAt(code, a, Emit(x), pos)
    ensures 0 <= a < |code| && code[a] == x
  {
    assert Linked(code, a + 0, Emit(x)[0], pos);
  }

  lemma CodeAtOne(code: Code, a: int, x: Instr, pos: seq<int>)
    requires !x.IOpenCall? && CodeAt(code, a, [x], pos)
    ensures 0 <= a < |code| && code[a] == x
  {
    assert Linked(code, a + 0, [x][0], pos);
  }

  // ---------- Slots of generated code ----------

  /** Instructions fit, and are followed by their filler slots. */
  predicate WellSized(code: Code)
  {
    forall q | 0 <= q < |code| && !code[q].IPad? ::
      q + SizeI(code[q]) <= |code| && forall x | q < x < q + SizeI(code[q]) :: code[x].IPad?
  }

  lemma WellSizedConcat(x: Code, y: Code)
    requires WellSized(x) && WellSized(y)
    ensures WellSized(x + y)
  {
    var z := x + y;
    forall q | 0 <= q < |z| && !z[q].IPad?
      ensures q + SizeI(z[q]) <= |z| && forall u | q < u < q + SizeI(z[q]) :: z[u].IPad?
    {
      if q < |x| {
        assert z[q] == x[q];
        forall u | q < u < q + SizeI(z[q]) ensures z[u].IPad? { assert z[u] == x[u]; }
      } else {
        assert z[q] == y[q - |x|];
        forall u | q < u < q + SizeI(z[q]) ensures z[u].IPad? { assert z[u] == y[u - |x|]; }
      }
    }
  }

  /** Open calls name one of `n` rules. */
  predicate OpenBelow(code: Code, n: nat)
  {
    forall q | 0 <= q < |code| && code[q].IOpenCall? :: code[q].rule < n
  }

  /** Both facts that linking needs about a block. */
  predicate Tidy(code: Code, n: nat)
  {
    WellSized(code) && OpenBelow(code, n)
  }

  lemma TidyConcat(x: Code, y: Code, n: nat)
    requires Tidy(x, n) && Tidy(y, n)
    ensures Tidy(x + y, n)
  {
    WellSizedConcat(x, y);
  }

  lemma TidyConcat4(x: Code, y: Code, z: Code, u: Code, n: nat)
    requires Tidy(x, n) && Tidy(y, n) && Tidy(z, n) && Tidy(u, n)
    ensures Tidy(x + y + z + u, n)
  {
    TidyConcat(x, y, n);
    TidyConcat(x + y, z, n);
    TidyConcat(x + y + z, u, n);
  }

  lemma TidyEmit(x: Instr, n: nat)
    requires !x.IPad? && (x.IOpenCall? ==> x.rule < n)
    ensures Tidy(Emit(x), n)
  {
  }

  lemma TidyTest(cs: Charset, e: bool, off: int, n: nat)
    ensures Tidy(TestCode(cs, e, off), n)
  {
    if !e { TidyEmit(TestInstr(cs, off), n); }
  }

  lemma TidyChoiceByTest(cs1: Charset, c1: Code, c2: Code, emptyp2: bool, n: nat)
    requires Tidy(c1, n) && Tidy(c2, n)
    ensures Tidy(ChoiceByTest(cs1, c1, c2, emptyp2), n)
  {
    var jmp := if emptyp2 then [] else Emit(IJmp(2 + |c2|));
    var off := TestLen(cs1, false) + |c1| + |jmp|;
    TidyTest(cs1, false, off, n);
    if !emptyp2 { TidyEmit(IJmp(2 + |c2|), n); }
    TidyConcat4(TestCode(cs1, false, off), c1, jmp, c2, n);
  }

  lemma TidyChoiceByStack(cs1: Charset, e1: bool, c1: Code, c2: Code, n: nat)
    requires Tidy(c1, n) && Tidy(c2, n)
    ensures Tidy(ChoiceByStack(cs1, e1, c1, c2), n)
  {
    hide Tidy;
    var test := TestCode(cs1, e1, TestLen(cs1, e1) + 2 + |c1| + 2);
    var choice, commit := Emit(IChoice(2 + |c1| + 2)), Emit(ICommit(2 + |c2|));
    TidyTest(cs1, e1, TestLen(cs1, e1) + 2 + |c1| + 2, n);
    TidyEmit(IChoice(2 + |c1| + 2), n);
    TidyEmit(ICommit(2 + |c2|), n);
    TidyConcat4(test, choice, c1, commit, n);
    TidyConcat(test + choice + c1 + commit, c2, n);
  }

  lemma TidyRepByTest(cs: Charset, c: Code, n: nat)
    requires Tidy(c, n)
    ensures Tidy(RepByTest(cs, c), n)
  {
    var tl := TestLen(cs, false);
    TidyTest(cs, false, tl + |c| + 2, n);
    TidyEmit(IJmp(-(tl + |c|)), n);
    TidyConcat(TestCode(cs, false, tl + |c| + 2), c, n);
    TidyConcat(TestCode(cs, false, tl + |c| + 2) + c, Emit(IJmp(-(tl + |c|))), n);
  }

  lemma TidyRepByStack(cs: Charset, e: bool, opt: bool, c: Code, n: nat)
    requires Tidy(c, n)
    ensures Tidy(RepByStack(cs, e, opt, c), n)
  {
    var off := TestLen(cs, e) + 2 + |c| + 2;
    TidyTest(cs, e, off, n);
    TidyEmit(IPartialCommit(2), n);
    TidyEmit(IChoice(2 + |c| + 2), n);
    TidyEmit(IPartialCommit(-|c|), n);
    TidyConcat4(TestCode(cs, e, off), if opt then Emit(IPartialCommit(2)) else Emit(IChoice(2 + |c| + 2)),
                c, Emit(IPartialCommit(-|c|)), n);
  }

  lemma TidyNotByStack(cs: Charset, e: bool, c: Code, n: nat)
    requires Tidy(c, n)
    ensures Tidy(NotByStack(cs, e, c), n)
  {
    hide Tidy;
    var off := TestLen(cs, e) + 2 + |c| + 1;
    TidyTest(cs, e, off, n);
    TidyEmit(IChoice(2 + |c| + 1), n);
    TidyOne(IFailTwice, n);
    TidyConcat4(TestCode(cs, e, off), Emit(IChoice(2 + |c| + 1)), c, [IFailTwice], n);
  }

  lemma TidyAndByStack(c: Code, n: nat)
    requires Tidy(c, n)
    ensures Tidy(AndByStack(c), n)
  {
    TidyEmit(IChoice(2 + |c| + 2), n);
    TidyEmit(IBackCommit(3), n);
    TidyConcat4(Emit(IChoice(2 + |c| + 2)), c, Emit(IBackCommit(3)), [IFail], n);
  }

  /** Generated code is tidy. */
  lemma {:induction false} GenTidy(g: seq<Tree>, d: nat, t: Tree, opt: bool, tt: Guard, fl: Charset, n: nat)
    requires Linkable(n, t)
    ensures Tidy(Gen(g, d, t, opt, tt, fl), n)
    decreases t, 1
  {
    hide Tidy, Gen, Linkable;
    match t
    case TSeq(_, _) => SeqTidy(g, d, t, opt, tt, fl, n);
    case TChoice(_, _) => ChoiceTidy(g, d, t, opt, tt, fl, n);
    case TRep(_) => RepTidy(g, d, t, opt, tt, fl, n);
    case TNot(_) => NotTidy(g, d, t, opt, tt, fl, n);
    case TAnd(_) => AndTidy(g, d, t, opt, tt, fl, n);
    case TBehind(_, _) => BehindTidy(g, d, t, opt, tt, fl, n);
    case TGrammar(_) => GrammarCodeTidy(g, d, t, opt, tt, fl, n);
    case TCall(_) => CallTidy(g, d, t, opt, tt, fl, n);
    case _ => LeafTidy(g, d, t, opt, tt, fl, n);
  }

  lemma {:induction false} SeqTidy(g: seq<Tree>, d: nat, t: Tree, opt: bool, tt: Guard, fl: Charset, n: nat)
    requires t.TSeq? && Linkable(n, t)
    ensures Tidy(Gen(g, d, t, opt, tt, fl), n)
    decreases t, 0
  {
    hide Tidy, First, FixedLen;
    var TSeq(p1, p2) := t;
    var fl1 := if NeedFollow(p1) then First(g, d, p2, fl).0 else FULL;
    var tt2 := if FixedLen(g, d, p1) != 0 then NoGuard else tt;
    GenTidy(g, d, p1, false, tt, fl1, n);
    GenTidy(g, d, p2, opt, tt2, fl, n);
    TidyConcat(Gen(g, d, p1, false, tt, fl1), Gen(g, d, p2, opt, tt2, fl), n);
  }

  lemma {:induction false} NotTidy(g: seq<Tree>, d: nat, t: Tree, opt: bool, tt: Guard, fl: Charset, n: nat)
    requires t.TNot? && Linkable(n, t)
    ensures Tidy(Gen(g, d, t, opt, tt, fl), n)
    decreases t, 0
  {
    hide Tidy, First, HeadFail;
    var p := t.p;
    var (cs, e) := First(g, d, p, FULL);
    GenTidy(g, d, p, false, NoGuard, FULL, n);
    TidyNotByStack(cs, e, Gen(g, d, p, false, NoGuard, FULL), n);
    TidyNotByTest(cs, e, n);
  }

  lemma TidyNotByTest(cs: Charset, e: bool, n: nat)
    ensures Tidy(TestCode(cs, e, TestLen(cs, e) + 1) + [IFail], n)
  {
    TidyTest(cs, e, TestLen(cs, e) + 1, n);
    TidyOne(IFail, n);
    TidyConcat(TestCode(cs, e, TestLen(cs, e) + 1), [IFail], n);
  }

  lemma {:induction false} AndTidy(g: seq<Tree>, d: nat, t: Tree, opt: bool, tt: Guard, fl: Charset, n: nat)
    requires t.TAnd? && Linkable(n, t)
    ensures Tidy(Gen(g, d, t, opt, tt, fl), n)
    decreases t, 0
  {
    hide Tidy, FixedLen;
    var p := t.p;
    var c := Gen(g, d, p, false, tt, FULL);
    var len := FixedLen(g, d, p);
    GenTidy(g, d, p, false, tt, FULL, n);
    TidyAndByStack(c, n);
    if len >= 0 { TidyBehind(len, n); TidyConcat(c, BehindCode(len), n); }
  }

  lemma {:induction false} BehindTidy(g: seq<Tree>, d: nat, t: Tree, opt: bool, tt: Guard, fl: Charset, n: nat)
    requires t.TBehind? && Linkable(n, t)
    ensures Tidy(Gen(g, d, t, opt, tt, fl), n)
    decreases t, 0
  {
    hide Tidy;
    GenTidy(g, d, t.p, false, NoGuard, FULL, n);
    TidyBehind(t.n, n);
    TidyConcat(BehindCode(t.n), Gen(g, d, t.p, false, NoGuard, FULL), n);
  }

  lemma CallTidy(g: seq<Tree>, d: nat, t: Tree, opt: bool, tt: Guard, fl: Charset, n: nat)
    requires t.TCall? && Linkable(n, t)
    ensures Tidy(Gen(g, d, t, opt, tt, fl), n)
  {
    TidyEmit(IOpenCall(t.rule), n);
  }

  lemma {:induction false} GrammarCodeTidy(g: seq<Tree>, d: nat, t: Tree, opt: bool, tt: Guard, fl: Charset, n: nat)
    requires t.TGrammar? && Linkable(n, t)
    ensures Tidy(Gen(g, d, t, opt, tt, fl), n)
    decreases t, 0
  {
    var rs := t.rules;
    var body := RulesCode(rs, d, 0);
    var pos := RulePositions(rs, d, 0, 0);
    var fixed := CorrectCalls(body, pos, 0);
    RulesTidy(rs, d, 0);
    assert Gen(g, d, t, opt, tt, fl) == Emit(ICall(4)) + Emit(IJmp(2 + |body|)) + fixed;
    hide *;
    CorrectCallsTidy(body, pos);
    TidyMore(fixed, n);
    TidyEmit(ICall(4), n);
    TidyEmit(IJmp(2 + |body|), n);
    TidyConcat(Emit(ICall(4)), Emit(IJmp(2 + |body|)), n);
    TidyConcat(Emit(ICall(4)) + Emit(IJmp(2 + |body|)), fixed, n);
  }

  lemma LeafTidy(g: seq<Tree>, d: nat, t: Tree, opt: bool, tt: Guard, fl: Charset, n: nat)
    requires t.TChar? || t.TSet? || t.TAny? || t.TTrue? || t.TFalse?
    ensures Tidy(Gen(g, d, t, opt, tt, fl), n)
  {
  }

  lemma TidyOne(x: Instr, n: nat)
    requires SizeI(x) == 1 && !x.IOpenCall?
    ensures Tidy([x], n)
  {
  }

  lemma TidyBehind(m: nat, n: nat)
    ensures Tidy(BehindCode(m), n)
  {
  }

  /** Code without open calls is tidy for any number of rules. */
  lemma TidyMore(code: Code, n: nat)
    requires Tidy(code, 0)
    ensures Tidy(code, n)
  {
  }

  lemma LinkableParts(n: nat, t: Tree)
    requires Linkable(n, t)
    ensures t.TSeq? || t.TChoice? ==> Linkable(n, t.p1) && Linkable(n, t.p2)
  {
  }

  /** The three ways to code a choice. */
  lemma ChoiceWays(g: seq<Tree>, d: nat, t: Tree, opt: bool, tt: Guard, fl: Charset)
    requires t.TChoice?
    ensures var (cs1, e1) := First(g, d, t.p1, FULL);
            var c2 := Gen(g, d, t.p2, opt, NoGuard, fl);
            var c := Gen(g, d, t, opt, tt, fl);
            || c == ChoiceByTest(cs1, Gen(g, d, t.p1, false, GuardOf(cs1), fl), c2, t.p2.TTrue?)
            || c == Emit(IPartialCommit(2)) + Gen(g, d, t.p1, true, NoGuard, FULL)
            || c == ChoiceByStack(cs1, e1, Gen(g, d, t.p1, t.p2.TTrue?, if e1 then NoGuard else GuardOf(cs1), FULL), c2)
  {
  }

  lemma {:induction false} ChoiceTidy(g: seq<Tree>, d: nat, t: Tree, opt: bool, tt: Guard, fl: Charset, n: nat)
    requires t.TChoice? && Linkable(n, t)
    ensures Tidy(Gen(g, d, t, opt, tt, fl), n)
    decreases t, 0
  {
    hide *;
    LinkableParts(n, t);
    ChoiceWays(g, d, t, opt, tt, fl);
    var TChoice(p1, p2) := t;
    var (cs1, e1) := First(g, d, p1, FULL);
    var c2 := Gen(g, d, p2, opt, NoGuard, fl);
    GenTidy(g, d, p2, opt, NoGuard, fl, n);
    GenTidy(g, d, p1, false, GuardOf(cs1), fl, n);
    TidyChoiceByTest(cs1, Gen(g, d, p1, false, GuardOf(cs1), fl), c2, p2.TTrue?, n);
    GenTidy(g, d, p1, true, NoGuard, FULL, n);
    TidyEmit(IPartialCommit(2), n);
    TidyConcat(Emit(IPartialCommit(2)), Gen(g, d, p1, true, NoGuard, FULL), n);
    var tt1 := if e1 then NoGuard else GuardOf(cs1);
    GenTidy(g, d, p1, p2.TTrue?, tt1, FULL, n);
    TidyChoiceByStack(cs1, e1, Gen(g, d, p1, p2.TTrue?, tt1, FULL), c2, n);
  }

  lemma {:induction false} RepTidy(g: seq<Tree>, d: nat, t: Tree, opt: bool, tt: Guard, fl: Charset, n: nat)
    requires t.TRep? && Linkable(n, t)
    ensures Tidy(Gen(g, d, t, opt, tt, fl), n)
    decreases t, 0
  {
    hide Tidy;
    var p := t.p;
    var (cs, e) := First(g, d, p, FULL);
    TidyEmit(ISpan(ToCharset(p).1), n);
    GenTidy(g, d, p, false, GuardOf(cs), FULL, n);
    TidyRepByTest(cs, Gen(g, d, p, false, GuardOf(cs), FULL), n);
    GenTidy(g, d, p, false, NoGuard, FULL, n);
    TidyRepByStack(cs, e, opt, Gen(g, d, p, false, NoGuard, FULL), n);
  }

  lemma {:induction false} RulesTidy(rs: seq<Tree>, d: nat, r: nat)
    requires r <= |rs| && forall k | 0 <= k < |rs| :: Linkable(|rs|, rs[k])
    ensures Tidy(RulesCode(rs, d, r), |rs|)
    decreases rs, 2, |rs| - r
  {
    if r < |rs| {
      hide Tidy;
      var c := Gen(rs, d, rs[r], false, NoGuard, FULL);
      GenTidy(rs, d, rs[r], false, NoGuard, FULL, |rs|);
      RulesTidy(rs, d, r + 1);
      TidyOne(IRet, |rs|);
      TidyConcat(c, [IRet], |rs|);
      TidyConcat(RuleCode(rs, d, r), RulesCode(rs, d, r + 1), |rs|);
    }
  }

  // ---------- Linking the rules of a grammar ----------

  /** `code'` is `code` with the open calls from slot `q` on resolved. */
  ghost predicate Corrected(code: Code, code': Code, pos: seq<int>, q: int)
  {
    && |code'| == |code|
    && (forall x | 0 <= x < |code| :: !code[x].IOpenCall? || x < q ==> code'[x] == code[x])
    && (forall x | 0 <= q <= x < |code| && code[x].IOpenCall? && code[x].rule < |pos| ::
          || code'[x] == ICall(pos[code[x].rule] - x)
          || (code'[x] == IJmp(pos[code[x].rule] - x) && LeadsToReturn(code', x + 2)))
  }

  /** Resolving an open call leaves every chain of jumps to a return as it is. */
  lemma {:induction false} ChainKept(code: Code, code': Code, q: int, h: nat, f: int)
    requires |code'| == |code| && forall x | 0 <= x < |code| :: !code[x].IOpenCall? ==> code'[x] == code[x]
    requires Chain(code, q, h, f) && 0 <= f < |code| && code[f].IRet?
    ensures Chain(code', q, h, f) && code'[f].IRet?
    decreases h
  {
    if h > 0 { ChainKept(code, code', q + code[q].off, h - 1, f); }
  }

  lemma LeadsKept(code: Code, code': Code, q: int)
    requires |code'| == |code| && forall x | 0 <= x < |code| :: !code[x].IOpenCall? ==> code'[x] == code[x]
    requires LeadsToReturn(code, q)
    ensures LeadsToReturn(code', q)
  {
    var h: nat, f: int :| Chain(code, q, h, f) && 0 <= f < |code| && code[f].IRet?;
    ChainKept(code, code', q, h, f);
  }

  /** A chain of jumps ends in one place. */
  lemma {:induction false} ChainUnique(code: Code, q: int, h: nat, f: int, h': nat, f': int)
    requires Chain(code, q, h, f) && Chain(code, q, h', f')
    ensures h == h' && f == f'
    decreases h
  {
    if h > 0 { ChainUnique(code, q + code[q].off, h - 1, f, h' - 1, f'); }
  }

  lemma TailLeads(code: Code, q: int)
    requires TailPosition(code, q)
    ensures LeadsToReturn(code, q + 2)
  {
    var c := q + 2;
    var f := FinalTarget(code, c);
    if f == c { assert Chain(code, c, 0, f); }
    else { assert exists h: nat :: Chain(code, c, h, f); }
  }

  lemma WellSizedUpdate(code: Code, q: int, x: Instr)
    requires WellSized(code) && 0 <= q < |code| && !code[q].IPad? && !x.IPad? && SizeI(x) == SizeI(code[q])
    ensures WellSized(code[q := x])
  {
  }

  lemma ResolvedSized(code: Code, q: int, pos: seq<int>)
    requires WellSized(code) && 0 <= q < |code|
    ensures var x := Resolve(code, q, pos);
            && WellSized(code[q := x])
            && q + SizeI(x) <= |code| && forall u | q < u < q + SizeI(x) :: code[u].IPad?
  {
    var x := Resolve(code, q, pos);
    if code[q].IPad? { assert code[q := x] == code; } else { WellSizedUpdate(code, q, x); }
  }

  lemma {:induction false} CorrectCallsCorrect(code: Code, pos: seq<int>, q: nat)
    requires WellSized(code) && q <= |code|
    ensures Corrected(code, CorrectCalls(code, pos, q), pos, q)
    ensures WellSized(CorrectCalls(code, pos, q))
    decreases |code| - q
  {
    if q < |code| {
      var x := Resolve(code, q, pos);
      var mid := code[q := x];
      var next := q + SizeI(x);
      ResolvedSized(code, q, pos);
      assert CorrectCalls(code, pos, q) == CorrectCalls(mid, pos, next);
      hide *;
      CorrectCallsCorrect(mid, pos, next);
      CorrectedStep(code, pos, q, CorrectCalls(mid, pos, next));
    }
  }

  lemma CorrectedStep(code: Code, pos: seq<int>, q: nat, code': Code)
    requires q < |code| && forall u | q < u < q + SizeI(Resolve(code, q, pos)) && u < |code| :: code[u].IPad?
    requires Corrected(code[q := Resolve(code, q, pos)], code', pos, q + SizeI(Resolve(code, q, pos)))
    ensures Corrected(code, code', pos, q)
  {
    var x := Resolve(code, q, pos);
    var mid := code[q := x];
    if code[q].IOpenCall? && code[q].rule < |pos| && TailPosition(code, q) {
      TailLeads(code, q);
      LeadsKept(code, mid, q + 2);
      LeadsKept(mid, code', q + 2);
    }
    forall u | q <= u < |code| && code[u].IOpenCall? && code[u].rule < |pos|
      ensures || code'[u] == ICall(pos[code[u].rule] - u)
              || (code'[u] == IJmp(pos[code[u].rule] - u) && LeadsToReturn(code', u + 2))
    {
      if u > q { assert mid[u] == code[u]; }
    }
  }

  lemma CorrectCallsTidy(code: Code, pos: seq<int>)
    requires Tidy(code, |pos|)
    ensures Tidy(CorrectCalls(code, pos, 0), 0)
  {
    CorrectCallsCorrect(code, pos, 0);
  }

  predicate Holds(code: Code, p: int, blk: Code)
  {
    0 <= p && p + |blk| <= |code| && code[p..p + |blk|] == blk
  }

  /** Rule `r` starts at its position in the code of the rules. */
  lemma {:induction false} RuleAt(rs: seq<Tree>, d: nat, from: nat, at: nat, r: nat)
    requires from <= r < |rs|
    ensures Holds(RulesCode(rs, d, from), RulePositions(rs, d, from, at)[r - from] - at, RuleCode(rs, d, r))
    decreases r - from
  {
    hide RuleCode, Holds;
    var c := RuleCode(rs, d, from);
    var rest := RulesCode(rs, d, from + 1);
    if r == from {
      HoldsHere(c, rest);
    } else {
      var pos' := RulePositions(rs, d, from + 1, at + |c|);
      RuleAt(rs, d, from + 1, at + |c|, r);
      HoldsLater(c, rest, pos'[r - from - 1] - (at + |c|), RuleCode(rs, d, r));
      assert RulePositions(rs, d, from, at)[r - from] == pos'[r - from - 1];
    }
  }

  lemma HoldsHere(x: Code, y: Code)
    ensures Holds(x + y, 0, x)
  {
  }

  lemma HoldsLater(x: Code, y: Code, p: int, blk: Code)
    requires Holds(y, p, blk)
    ensures Holds(x + y, |x| + p, blk)
  {
    SliceShift(x, y, p, p + |blk|);
  }

  lemma SliceShift(x: Code, y: Code, lo: int, hi: int)
    requires 0 <= lo <= hi <= |y|
    ensures (x + y)[|x| + lo..|x| + hi] == y[lo..hi]
  {
  }

  /** A chain of jumps inside a block that ends in a return there is a chain of the final code. */
  lemma {:induction false} ChainEmbeds(blk: Code, code: Code, a: int, q: int, h: nat, f: int)
    requires 0 <= a && a + |blk| <= |code| && forall x | 0 <= x < |blk| :: code[a + x] == blk[x]
    requires Chain(blk, q, h, f) && 0 <= f < |blk| && blk[f].IRet?
    ensures Chain(code, a + q, h, a + f) && code[a + f].IRet?
    decreases h
  {
    if h > 0 { ChainEmbeds(blk, code, a, q + blk[q].off, h - 1, f); }
  }

  lemma LeadsEmbeds(blk: Code, code: Code, a: int, q: int)
    requires 0 <= a && a + |blk| <= |code| && forall x | 0 <= x < |blk| :: code[a + x] == blk[x]
    requires LeadsToReturn(blk, q)
    ensures LeadsToReturn(code, a + q)
  {
    var h: nat, f: int :| Chain(blk, q, h, f) && 0 <= f < |blk| && blk[f].IRet?;
    ChainEmbeds(blk, code, a, q, h, f);
  }

  /** A part of a corrected block is linked, wherever the block is. */
  lemma CorrectedPart(code: Code, a: int, body: Code, fixed: Code, p: seq<int>, pos': seq<int>, lo: nat, blk: Code)
    requires Corrected(body, fixed, p, 0) && OpenBelow(body, |p|)
    requires 0 <= a && a + |body| <= |code| && forall x | 0 <= x < |fixed| :: code[a + x] == fixed[x]
    requires |pos'| == |p| && forall k | 0 <= k < |p| :: pos'[k] == a + p[k]
    requires lo + |blk| <= |body| && body[lo..lo + |blk|] == blk
    ensures CodeAt(code, a + lo, blk, pos')
  {
    forall x | 0 <= x < |blk| ensures Linked(code, a + lo + x, blk[x], pos') {
      var q := lo + x;
      assert body[lo..lo + |blk|][x] == body[q];
      assert code[a + q] == fixed[q];
      if blk[x].IOpenCall? && fixed[q].IJmp? {
        LeadsEmbeds(fixed, code, a, q + 2);
        assert a + (q + 2) == a + lo + x + 2;
      }
    }
  }

  /** Positions of the rules of a grammar whose rules start at slot `a`. */
  ghost function Positions(rs: seq<Tree>, d: nat, a: int): (pos: seq<int>)
    ensures |pos| == |rs|
  {
    seq(|rs|, k requires 0 <= k < |rs| => a + RulePositions(rs, d, 0, 0)[k])
  }

  /** The rules of a grammar are linked to each other inside the code of the grammar. */
  lemma GrammarLinks(code: Code, pos: seq<int>, a: int, rs: seq<Tree>, d: nat, r: nat)
    requires Linkable(0, TGrammar(rs)) && r < |rs|
    requires CodeAt(code, a, CorrectCalls(RulesCode(rs, d, 0), RulePositions(rs, d, 0, 0), 0), pos)
    ensures CodeAt(code, Positions(rs, d, a)[r], RuleCode(rs, d, r), Positions(rs, d, a))
  {
    hide *;
    var body := RulesCode(rs, d, 0);
    var p := RulePositions(rs, d, 0, 0);
    var fixed := CorrectCalls(body, p, 0);
    var blk := RuleCode(rs, d, r);
    var pos' := Positions(rs, d, a);
    PositionsAre(rs, d, a);
    RuleSlots(rs, d, r);
    GrammarTidy(rs, d);
    CorrectCallsCorrect(body, p, 0);
    CorrectCallsTidy(body, p);
    ClosedSlots(code, a, fixed, pos);
    TidyOpen(body, |rs|);
    CorrectedPart(code, a, body, fixed, p, pos', p[r], blk);
  }

  lemma PositionsAre(rs: seq<Tree>, d: nat, a: int)
    ensures forall k | 0 <= k < |rs| :: Positions(rs, d, a)[k] == a + RulePositions(rs, d, 0, 0)[k]
  {
  }

  lemma GrammarTidy(rs: seq<Tree>, d: nat)
    requires Linkable(0, TGrammar(rs))
    ensures Tidy(RulesCode(rs, d, 0), |rs|) && WellSized(RulesCode(rs, d, 0))
  {
    RulesTidy(rs, d, 0);
  }

  lemma TidyOpen(code: Code, n: nat)
    requires Tidy(code, n)
    ensures OpenBelow(code, n)
  {
  }

  lemma RuleSlots(rs: seq<Tree>, d: nat, r: nat)
    requires r < |rs|
    ensures var body, p, blk := RulesCode(rs, d, 0), RulePositions(rs, d, 0, 0)[r], RuleCode(rs, d, r);
            0 <= p && p + |blk| <= |body| && body[p..p + |blk|] == blk
  {
    hide RuleCode, RulesCode, RulePositions;
    RuleAt(rs, d, 0, 0, r);
  }

  /** A block without open calls is in the final code as it is. */
  lemma ClosedSlots(code: Code, a: int, blk: Code, pos: seq<int>)
    requires Tidy(blk, 0) && CodeAt(code, a, blk, pos)
    ensures 0 <= a && a + |blk| <= |code| && forall x | 0 <= x < |blk| :: code[a + x] == blk[x]
  {
    forall x | 0 <= x < |blk| ensures code[a + x] == blk[x] {
      assert Linked(code, a + x, blk[x], pos);
    }
  }
}
