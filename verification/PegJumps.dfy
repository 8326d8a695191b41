/** Every label of compiled code points to a slot of the code, so the loops that follow jumps never leave it. */
module PegJumps {
  import opened PegTree
  import opened PegAnalysis
  import opened PegMachine
  import opened PegCodegen
  import opened PegLinking
  import opened PegCompileSound
  import opened PegPeephole

  predicate Labelled(x: Instr)
  {
    HasLabel(x) || x.IJmp?
  }

  /** Counted from the start of the block, its labels lead to slots `lo` to `hi`. */
  predicate LabelsIn(code: Code, lo: int, hi: int)
  {
    forall x | 0 <= x < |code| && Labelled(code[x]) :: lo <= x + code[x].off <= hi
  }

  /** Labels of a block stay in the block or lead to its end. */
  predicate LabelsStay(code: Code)
  {
    LabelsIn(code, 0, |code|)
  }

  lemma LabelsWider(code: Code, lo: int, hi: int, lo': int, hi': int)
    requires LabelsIn(code, lo, hi) && lo' <= lo && hi <= hi'
    ensures LabelsIn(code, lo', hi')
  {
  }

  lemma LabelsConcat(x: Code, y: Code, lo: int, hi: int)
    requires LabelsIn(x, lo, hi) && LabelsIn(y, lo - |x|, hi - |x|)
    ensures LabelsIn(x + y, lo, hi)
  {
    forall q | 0 <= q < |x + y| && Labelled((x + y)[q]) ensures lo <= q + (x + y)[q].off <= hi {
      if q >= |x| { assert y[q - |x|] == (x + y)[q]; }
    }
  }

  lemma LabelsConcat4(x: Code, y: Code, z: Code, u: Code, hi: int)
    requires LabelsIn(x, 0, hi) && LabelsIn(y, -|x|, hi - |x|) && LabelsIn(z, -|x| - |y|, hi - |x| - |y|)
    requires LabelsIn(u, -|x| - |y| - |z|, hi - |x| - |y| - |z|)
    ensures LabelsIn(x + y + z + u, 0, hi)
  {
    hide LabelsIn;
    LabelsConcat(x, y, 0, hi);
    LabelsConcat(x + y, z, 0, hi);
    LabelsConcat(x + y + z, u, 0, hi);
  }

  lemma LabelsEmit(x: Instr, lo: int, hi: int)
    requires !x.IPad? && (Labelled(x) ==> lo <= x.off <= hi)
    ensures LabelsIn(Emit(x), lo, hi)
  {
  }

  lemma LabelsOne(x: Instr, lo: int, hi: int)
    requires !Labelled(x)
    ensures LabelsIn([x], lo, hi)
  {
  }

  lemma LabelsTest(cs: Charset, e: bool, off: int, lo: int, hi: int)
    requires lo <= off <= hi
    ensures LabelsIn(TestCode(cs, e, off), lo, hi)
  {
    if !e { LabelsEmit(TestInstr(cs, off), lo, hi); }
  }

  lemma LabelsBehind(n: nat, lo: int, hi: int)
    ensures LabelsIn(BehindCode(n), lo, hi)
  {
  }

  /** A block whose labels stay, inside a longer one. */
  lemma LabelsPart(code: Code, lo: int, hi: int)
    requires LabelsStay(code) && lo <= 0 && |code| <= hi
    ensures LabelsIn(code, lo, hi)
  {
  }

  lemma JoinStays(x: Code, y: Code)
    requires LabelsStay(x) && LabelsStay(y)
    ensures LabelsStay(x + y)
  {
    LabelsConcat(x, y, 0, |x + y|);
  }

  lemma ChoiceByTestStays(cs1: Charset, c1: Code, c2: Code, emptyp2: bool)
    requires LabelsStay(c1) && LabelsStay(c2)
    ensures LabelsStay(ChoiceByTest(cs1, c1, c2, emptyp2))
  {
    hide LabelsIn;
    var hi := |ChoiceByTest(cs1, c1, c2, emptyp2)|;
    var jmp := if emptyp2 then [] else Emit(IJmp(2 + |c2|));
    var tl := TestLen(cs1, false);
    var off := tl + |c1| + |jmp|;
    LabelsTest(cs1, false, off, 0, hi);
    LabelsPart(c1, -tl, hi - tl);
    if emptyp2 { NoLabels(-tl - |c1|, hi - tl - |c1|); }
    else { LabelsEmit(IJmp(2 + |c2|), -tl - |c1|, hi - tl - |c1|); }
    LabelsPart(c2, -off, hi - off);
    LabelsConcat4(TestCode(cs1, false, off), c1, jmp, c2, hi);
  }

  lemma NoLabels(lo: int, hi: int)
    ensures LabelsIn([], lo, hi)
  {
  }

  lemma ChoiceByStackStays(cs1: Charset, e1: bool, c1: Code, c2: Code)
    requires LabelsStay(c1) && LabelsStay(c2)
    ensures LabelsStay(ChoiceByStack(cs1, e1, c1, c2))
  {
    hide LabelsIn;
    var hi := |ChoiceByStack(cs1, e1, c1, c2)|;
    var tl := TestLen(cs1, e1);
    var off := tl + 2 + |c1| + 2;
    var test := TestCode(cs1, e1, off);
    var choice, commit := Emit(IChoice(2 + |c1| + 2)), Emit(ICommit(2 + |c2|));
    LabelsTest(cs1, e1, off, 0, hi);
    LabelsEmit(IChoice(2 + |c1| + 2), -tl, hi - tl);
    LabelsPart(c1, -tl - 2, hi - tl - 2);
    LabelsEmit(ICommit(2 + |c2|), -tl - 2 - |c1|, hi - tl - 2 - |c1|);
    LabelsConcat4(test, choice, c1, commit, hi);
    LabelsPart(c2, -off, hi - off);
    LabelsConcat(test + choice + c1 + commit, c2, 0, hi);
  }

  lemma RepByTestStays(cs: Charset, c: Code)
    requires LabelsStay(c)
    ensures LabelsStay(RepByTest(cs, c))
  {
    hide LabelsIn;
    var tl := TestLen(cs, false);
    var hi := tl + |c| + 2;
    var test, jmp := TestCode(cs, false, hi), Emit(IJmp(-(tl + |c|)));
    LabelsTest(cs, false, hi, 0, hi);
    LabelsPart(c, -tl, hi - tl);
    LabelsConcat(test, c, 0, hi);
    LabelsEmit(IJmp(-(tl + |c|)), -tl - |c|, hi - tl - |c|);
    LabelsConcat(test + c, jmp, 0, hi);
  }

  lemma RepByStackStays(cs: Charset, e: bool, opt: bool, c: Code)
    requires LabelsStay(c)
    ensures LabelsStay(RepByStack(cs, e, opt, c))
  {
    hide LabelsIn;
    var tl := TestLen(cs, e);
    var hi := tl + 2 + |c| + 2;
    var first := if opt then IPartialCommit(2) else IChoice(2 + |c| + 2);
    LabelsTest(cs, e, hi, 0, hi);
    LabelsEmit(first, -tl, hi - tl);
    LabelsPart(c, -tl - 2, hi - tl - 2);
    LabelsEmit(IPartialCommit(-|c|), -tl - 2 - |c|, hi - tl - 2 - |c|);
    LabelsConcat4(TestCode(cs, e, hi), Emit(first), c, Emit(IPartialCommit(-|c|)), hi);
  }

  lemma NotByStackStays(cs: Charset, e: bool, c: Code)
    requires LabelsStay(c)
    ensures LabelsStay(NotByStack(cs, e, c))
  {
    hide LabelsIn;
    var tl := TestLen(cs, e);
    var hi := tl + 2 + |c| + 1;
    LabelsTest(cs, e, hi, 0, hi);
    LabelsEmit(IChoice(2 + |c| + 1), -tl, hi - tl);
    LabelsPart(c, -tl - 2, hi - tl - 2);
    LabelsOne(IFailTwice, -tl - 2 - |c|, hi - tl - 2 - |c|);
    LabelsConcat4(TestCode(cs, e, hi), Emit(IChoice(2 + |c| + 1)), c, [IFailTwice], hi);
  }

  lemma NotByTestStays(cs: Charset, e: bool)
    ensures LabelsStay(TestCode(cs, e, TestLen(cs, e) + 1) + [IFail])
  {
    hide LabelsIn;
    var tl: int := TestLen(cs, e);
    LabelsTest(cs, e, tl + 1, 0, tl + 1);
    LabelsOne(IFail, -tl, 1);
    LabelsConcat(TestCode(cs, e, tl + 1), [IFail], 0, tl + 1);
  }

  lemma AndByStackStays(c: Code)
    requires LabelsStay(c)
    ensures LabelsStay(AndByStack(c))
  {
    hide LabelsIn;
    var hi := 2 + |c| + 3;
    LabelsEmit(IChoice(2 + |c| + 2), 0, hi);
    LabelsPart(c, -2, hi - 2);
    LabelsEmit(IBackCommit(3), -2 - |c|, hi - 2 - |c|);
    LabelsOne(IFail, -4 - |c|, hi - 4 - |c|);
    LabelsConcat4(Emit(IChoice(2 + |c| + 2)), c, Emit(IBackCommit(3)), [IFail], hi);
  }

  /** Labels of generated code stay inside it. */
  lemma {:induction false} GenLabelsStay(g: seq<Tree>, d: nat, t: Tree, opt: bool, tt: Guard, fl: Charset)
    requires Linkable(|g|, t)
    ensures LabelsStay(Gen(g, d, t, opt, tt, fl))
    decreases t, 1
  {
    match t
    case TSeq(p1, p2) =>
      hide LabelsStay;
      var fl1 := if NeedFollow(p1) then First(g, d, p2, fl).0 else FULL;
      var tt2 := if FixedLen(g, d, p1) != 0 then NoGuard else tt;
      GenLabelsStay(g, d, p1, false, tt, fl1);
      GenLabelsStay(g, d, p2, opt, tt2, fl);
      JoinStays(Gen(g, d, p1, false, tt, fl1), Gen(g, d, p2, opt, tt2, fl));
    case TChoice(p1, p2) => ChoiceLabelsStay(g, d, t, opt, tt, fl);
    case TRep(p) => RepLabelsStay(g, d, t, opt, tt, fl);
    case TNot(p) =>
      hide LabelsStay;
      var (cs, e) := First(g, d, p, FULL);
      GenLabelsStay(g, d, p, false, NoGuard, FULL);
      NotByStackStays(cs, e, Gen(g, d, p, false, NoGuard, FULL));
      NotByTestStays(cs, e);
    case TAnd(p) =>
      hide LabelsStay;
      var c := Gen(g, d, p, false, tt, FULL);
      var n := FixedLen(g, d, p);
      GenLabelsStay(g, d, p, false, tt, FULL);
      AndByStackStays(c);
      if n >= 0 { BehindStays(n); JoinStays(c, BehindCode(n)); }
    case TBehind(p, n) =>
      hide LabelsStay;
      GenLabelsStay(g, d, p, false, NoGuard, FULL);
      BehindStays(n);
      JoinStays(BehindCode(n), Gen(g, d, p, false, NoGuard, FULL));
    case TGrammar(rs) => GrammarLabelsStay(g, d, t, opt, tt, fl);
    case _ => LeafLabelsStay(g, d, t, opt, tt, fl);
  }

  lemma BehindStays(n: nat)
    ensures LabelsStay(BehindCode(n))
  {
    LabelsBehind(n, 0, |BehindCode(n)|);
  }

  lemma LeafLabelsStay(g: seq<Tree>, d: nat, t: Tree, opt: bool, tt: Guard, fl: Charset)
    requires t.TChar? || t.TSet? || t.TAny? || t.TTrue? || t.TFalse? || t.TCall?
    ensures LabelsStay(Gen(g, d, t, opt, tt, fl))
  {
  }

  lemma {:induction false} ChoiceLabelsStay(g: seq<Tree>, d: nat, t: Tree, opt: bool, tt: Guard, fl: Charset)
    requires t.TChoice? && Linkable(|g|, t)
    ensures LabelsStay(Gen(g, d, t, opt, tt, fl))
    decreases t, 0
  {
    hide LabelsStay;
    var TChoice(p1, p2) := t;
    var (cs1, e1) := First(g, d, p1, FULL);
    var c2 := Gen(g, d, p2, opt, NoGuard, fl);
    GenLabelsStay(g, d, p2, opt, NoGuard, fl);
    GenLabelsStay(g, d, p1, false, GuardOf(cs1), fl);
    ChoiceByTestStays(cs1, Gen(g, d, p1, false, GuardOf(cs1), fl), c2, p2.TTrue?);
    GenLabelsStay(g, d, p1, true, NoGuard, FULL);
    FirstCommitStays();
    JoinStays(Emit(IPartialCommit(2)), Gen(g, d, p1, true, NoGuard, FULL));
    var tt1 := if e1 then NoGuard else GuardOf(cs1);
    GenLabelsStay(g, d, p1, p2.TTrue?, tt1, FULL);
    ChoiceByStackStays(cs1, e1, Gen(g, d, p1, p2.TTrue?, tt1, FULL), c2);
  }

  lemma FirstCommitStays()
    ensures LabelsStay(Emit(IPartialCommit(2)))
  {
    LabelsEmit(IPartialCommit(2), 0, 2);
  }

  lemma {:induction false} RepLabelsStay(g: seq<Tree>, d: nat, t: Tree, opt: bool, tt: Guard, fl: Charset)
    requires t.TRep? && Linkable(|g|, t)
    ensures LabelsStay(Gen(g, d, t, opt, tt, fl))
    decreases t, 0
  {
    var p := t.p;
    if ToCharset(p).0 {
      LabelsEmit(ISpan(ToCharset(p).1), 0, CHARSETINSTSIZE);
    } else {
      hide LabelsStay, Gen;
      GenRepTest(g, d, t, opt, tt, fl);
      var (cs, e) := First(g, d, p, FULL);
      GenLabelsStay(g, d, p, false, GuardOf(cs), FULL);
      RepByTestStays(cs, Gen(g, d, p, false, GuardOf(cs), FULL));
      GenLabelsStay(g, d, p, false, NoGuard, FULL);
      RepByStackStays(cs, e, opt, Gen(g, d, p, false, NoGuard, FULL));
    }
  }

  /** Each rule keeps its labels to itself: its last slot is a return. */
  lemma {:induction false} RulesLabelsStay(rs: seq<Tree>, d: nat, r: nat)
    requires r <= |rs| && forall k | 0 <= k < |rs| :: Linkable(|rs|, rs[k])
    ensures LabelsStay(RulesCode(rs, d, r))
    ensures r < |rs| ==> LabelsIn(RulesCode(rs, d, r), 0, |RulesCode(rs, d, r)| - 1)
    decreases rs, 2, |rs| - r
  {
    if r < |rs| {
      hide LabelsIn;
      var c := Gen(rs, d, rs[r], false, NoGuard, FULL);
      var rest := RulesCode(rs, d, r + 1);
      var top: int := |c| + |rest|;
      assert RulesCode(rs, d, r) == RuleCode(rs, d, r) + rest;
      GenLabelsStay(rs, d, rs[r], false, NoGuard, FULL);
      RulesLabelsStay(rs, d, r + 1);
      LabelsPart(c, 0, top);
      LabelsOne(IRet, -|c|, top - |c|);
      LabelsConcat(c, [IRet], 0, top);
      if r + 1 == |rs| { NoLabels(-|c| - 1, top - |c| - 1); }
      else { LabelsWider(rest, 0, |rest| - 1, -|c| - 1, top - |c| - 1); }
      LabelsConcat(RuleCode(rs, d, r), rest, 0, top);
      LabelsWider(RulesCode(rs, d, r), 0, top, 0, top + 1);
    } else { NoLabels(0, 0); }
  }

  lemma RuleInside(rs: seq<Tree>, d: nat, r: nat)
    requires r < |rs|
    ensures 0 <= RulePositions(rs, d, 0, 0)[r] < |RulesCode(rs, d, 0)|
  {
    hide RulesCode, RulePositions, Gen;
    RuleAt(rs, d, 0, 0, r);
    assert |RuleCode(rs, d, r)| > 0;
  }

  /** Linking a call sets a label inside the rules. */
  lemma {:induction false} LinkedLabelsIn(rs: seq<Tree>, d: nat)
    requires |rs| > 0 && forall k | 0 <= k < |rs| :: Linkable(|rs|, rs[k])
    ensures var body := RulesCode(rs, d, 0);
            LabelsIn(CorrectCalls(body, RulePositions(rs, d, 0, 0), 0), 0, |body| - 1)
    decreases rs, 3
  {
    hide RuleCode, RulesCode, RulePositions, CorrectCalls, Linkable, Holds, Gen;
    var body, pos := RulesCode(rs, d, 0), RulePositions(rs, d, 0, 0);
    var fixed := CorrectCalls(body, pos, 0);
    RulesLabelsStay(rs, d, 0);
    RulesTidy(rs, d, 0);
    CorrectCallsCorrect(body, pos, 0);
    forall x | 0 <= x < |fixed| && Labelled(fixed[x]) ensures 0 <= x + fixed[x].off <= |body| - 1 {
      if body[x].IOpenCall? { RuleInside(rs, d, body[x].rule); } else { assert fixed[x] == body[x]; }
    }
  }

  lemma {:induction false} GrammarLabelsStay(g: seq<Tree>, d: nat, t: Tree, opt: bool, tt: Guard, fl: Charset)
    requires t.TGrammar? && Linkable(|g|, t)
    ensures LabelsStay(Gen(g, d, t, opt, tt, fl))
    decreases t, 0
  {
    hide LabelsIn;
    var rs := t.rules;
    var body := RulesCode(rs, d, 0);
    var fixed := CorrectCalls(body, RulePositions(rs, d, 0, 0), 0);
    LinkedLabelsIn(rs, d);
    LabelsEmit(ICall(4), 0, 4 + |body|);
    LabelsEmit(IJmp(2 + |body|), -2, 2 + |body|);
    LabelsConcat(Emit(ICall(4)), Emit(IJmp(2 + |body|)), 0, 4 + |body|);
    LabelsWider(fixed, 0, |body| - 1, -4, |body|);
    LabelsConcat(Emit(ICall(4)) + Emit(IJmp(2 + |body|)), fixed, 0, 4 + |body|);
  }

  /** Every label points to a slot of the code. */
  predicate InCode(code: Code)
  {
    LabelsIn(code, 0, |code| - 1)
  }

  /** Whole programs: the end of the pattern's code is the end instruction. */
  lemma PatternInCode(d: nat, t: Tree)
    requires Linkable(0, t)
    ensures InCode(PatternCode(d, t))
  {
    var c := Gen([], d, t, false, NoGuard, FULL);
    GenLabelsStay([], d, t, false, NoGuard, FULL);
    LabelsOne(IEnd, -|c|, 0);
    LabelsConcat(c, [IEnd], 0, |c|);
  }

  // ---------- Optimised code ----------

  lemma {:induction false} JumpsIn(code: Code, p: int, h: nat, q: int)
    requires InCode(code) && Jumps(code, p, h, q) && 0 <= p < |code|
    ensures 0 <= q < |code|
    decreases h
  {
    if h > 0 { JumpsIn(code, p + code[p].off, h - 1, q); }
  }

  lemma JumpsToIn(code: Code, p: int, q: int)
    requires InCode(code) && JumpsTo(code, p, q) && 0 <= p < |code|
    ensures 0 <= q < |code|
  {
    var h: nat :| Jumps(code, p, h, q);
    JumpsIn(code, p, h, q);
  }

  /** Optimised code keeps its labels inside. */
  lemma ThreadedInCode(code: Code, code': Code)
    requires InCode(code) && Threaded(code, code')
    ensures InCode(code')
  {
    forall q | 0 <= q < |code'| && Labelled(code'[q]) ensures 0 <= q + code'[q].off <= |code'| - 1 {
      ThreadedLabel(code, code'[q], q);
    }
  }

  lemma ThreadedLabel(code: Code, x': Instr, q: int)
    requires InCode(code) && 0 <= q < |code| && Threads(code, x', q) && Labelled(x')
    ensures 0 <= q + x'.off < |code|
  {
    if SameEffect(code, code[q], q, x', q) {
      SameEffectLabel(code, code[q], q, x', q);
    } else if x'.IJmp? {
      JumpsToIn(code, q + code[q].off, q + x'.off);
    } else {
      var f: int :| CopyOf(code, x', q, f);
      SameEffectLabel(code, code[f], f, x', q);
    }
  }

  lemma SameEffectLabel(code: Code, x: Instr, p: int, x': Instr, q: int)
    requires InCode(code) && 0 <= p < |code| && code[p] == x && SameEffect(code, x, p, x', q) && Labelled(x')
    ensures 0 <= q + x'.off < |code|
  {
    if x != x' || p != q { JumpsToIn(code, p + x.off, q + x'.off); }
  }
}
