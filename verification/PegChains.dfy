/** Jumps of compiled patterns never go round in circles, so following them always ends. */
module PegChains {
  import opened PegTree
  import opened PegAnalysis
  import opened PegMachine
  import opened PegCodegen
  import opened PegLinking
  import opened PegCompileSound
  import opened PegPeephole
  import opened PegVerify

  lemma EndsHere(code: Code, q: int)
    requires !(0 <= q < |code| && code[q].IJmp?)
    ensures ChainEnds(code, q)
  {
    assert Chain(code, q, 0, q);
  }

  lemma EndsVia(code: Code, q: int, q': int)
    requires 0 <= q < |code| && code[q].IJmp? && q' == q + code[q].off && ChainEnds(code, q')
    ensures ChainEnds(code, q)
  {
    var h: nat, f: int :| Chain(code, q', h, f);
    assert Chain(code, q, h + 1, f);
  }

  /** Chains end from each of `n` slots. */
  ghost predicate AllEnd(code: Code, a: int, n: nat)
  {
    forall q | a <= q < a + n :: ChainEnds(code, q)
  }

  /** A single instruction and its filler slots. */
  lemma EmitEnds(code: Code, a: int, x: Instr, pos: seq<int>)
    requires !x.IPad? && !x.IOpenCall? && CodeAt(code, a, Emit(x), pos)
    requires x.IJmp? ==> ChainEnds(code, a + x.off)
    ensures AllEnd(code, a, SizeI(x))
  {
    CodeAtHead(code, a, x, pos);
    if x.IJmp? { EndsVia(code, a, a + x.off); } else { EndsHere(code, a); }
    forall q | a < q < a + SizeI(x) ensures ChainEnds(code, q) {
      assert Linked(code, a + (q - a), Emit(x)[q - a], pos);
      EndsHere(code, q);
    }
  }

  /** The instructions with an offset that never jump by themselves. */
  predicate TwoSlots(x: Instr)
  {
    x.IChoice? || x.ICommit? || x.IPartialCommit? || x.IBackCommit? || x.ICall?
  }

  lemma TwoEnd(code: Code, a: int, x: Instr, pos: seq<int>)
    requires TwoSlots(x) && CodeAt(code, a, Emit(x), pos)
    ensures AllEnd(code, a, 2) && ChainEnds(code, a)
  {
    EmitEnds(code, a, x, pos);
  }

  lemma JumpEnds(code: Code, a: int, off: int, pos: seq<int>)
    requires CodeAt(code, a, Emit(IJmp(off)), pos) && ChainEnds(code, a + off)
    ensures AllEnd(code, a, 2) && ChainEnds(code, a)
  {
    EmitEnds(code, a, IJmp(off), pos);
  }

  lemma OneEnds(code: Code, a: int, x: Instr, pos: seq<int>)
    requires !x.IJmp? && !x.IOpenCall? && CodeAt(code, a, [x], pos)
    ensures AllEnd(code, a, 1)
  {
    CodeAtOne(code, a, x, pos);
    EndsHere(code, a);
  }

  lemma TestNotEmpty(code: Code, a: int, cs: Charset)
    requires AllEnd(code, a, TestLen(cs, false))
    ensures ChainEnds(code, a)
  {
    assert a <= a < a + TestLen(cs, false);
  }

  lemma TestEnds(code: Code, a: int, cs: Charset, e: bool, off: int, pos: seq<int>)
    requires CodeAt(code, a, TestCode(cs, e, off), pos) && ChainEnds(code, a + off)
    ensures AllEnd(code, a, TestLen(cs, e))
  {
    if !e { EmitEnds(code, a, TestInstr(cs, off), pos); }
  }

  lemma BehindEnds(code: Code, a: int, n: nat, pos: seq<int>)
    requires CodeAt(code, a, BehindCode(n), pos)
    ensures AllEnd(code, a, |BehindCode(n)|)
  {
    if n > 0 { OneEnds(code, a, IBehind(n), pos); }
  }

  /** The code of every live rule is at its position, and rules cannot call on the left for ever. */
  ghost predicate RulesLaid(W: World, rank: seq<nat>)
  {
    && |W.pos| == |W.g| == |rank|
    && forall r | 0 <= r < |W.g| && Live(W.g, r) ::
         && CodeAt(W.code, W.pos[r], RuleCode(W.g, W.d, r), W.pos)
         && LeftBounded(W.g, MAXRULES, W.w, W.g[r]) && Ranked(rank, rank[r], W.g[r]) && CallsLive(W.g, W.g[r])
  }

  lemma {:induction false} CallFreeBounded(g: seq<Tree>, b: nat, w: nat, t: Tree)
    requires Calls(t) == {}
    ensures LeftBounded(g, b, w, t)
  {
    match t
    case TRep(p) => CallFreeBounded(g, b, w, p);
    case TNot(p) => CallFreeBounded(g, b, w, p);
    case TAnd(p) => CallFreeBounded(g, b, w, p);
    case TSeq(p1, p2) => CallFreeBounded(g, b, w, p1); CallFreeBounded(g, b, w, p2);
    case TChoice(p1, p2) => CallFreeBounded(g, b, w, p1); CallFreeBounded(g, b, w, p2);
    case _ =>
  }

  lemma {:induction false} CallFreeRanks(rank: seq<nat>, k: nat, t: Tree)
    requires Calls(t) == {}
    ensures Ranked(rank, k, t)
  {
    match t
    case TRep(p) => CallFreeRanks(rank, k, p);
    case TNot(p) => CallFreeRanks(rank, k, p);
    case TAnd(p) => CallFreeRanks(rank, k, p);
    case TSeq(p1, p2) => CallFreeRanks(rank, k, p1); CallFreeRanks(rank, k, p2);
    case TChoice(p1, p2) => CallFreeRanks(rank, k, p1); CallFreeRanks(rank, k, p2);
    case _ =>
  }

  /**
   * The chain from the start of the code of `t` ends, if that from its end does in case `t` is nullable:
   * jumps lead through nullable parts only, and through calls only on the left.
   */
  lemma {:induction false} StartEnds(W: World, rank: seq<nat>, k: nat, b: nat, t: Tree, opt: bool, tt: Guard,
          fl: Charset, a: int)
    requires RulesLaid(W, rank) && At(W, t, opt, tt, fl, a) && CallsLive(W.g, t)
    requires LeftBounded(W.g, b, W.w, t) && Ranked(rank, k, t)
    requires LeftNullable(W.g, b, W.w, t) ==> ChainEnds(W.code, a + Len(W, t, opt, tt, fl))
    ensures ChainEnds(W.code, a)
    decreases k, b, t, 1
  {
    match t
    case TSeq(_, _) => SeqStartEnds(W, rank, k, b, t, opt, tt, fl, a);
    case TChoice(_, _) => ChoiceStartEnds(W, rank, k, b, t, opt, tt, fl, a);
    case TRep(p) =>
      if ToCharset(p).0 { SpanStartEnds(W, t, opt, tt, fl, a); } else { RepStartEnds(W, t, opt, tt, fl, a); }
    case TNot(_) => NotStartEnds(W, t, opt, tt, fl, a);
    case TAnd(_) => AndStartEnds(W, rank, k, b, t, opt, tt, fl, a);
    case TBehind(_, _) => BehindStartEnds(W, rank, k, b, t, opt, tt, fl, a);
    case TCall(_) => CallStartEnds(W, rank, k, b, t, opt, tt, fl, a);
    case TGrammar(_) => GrammarHead(W, t, opt, tt, fl, a); EmitEnds(W.code, a, ICall(4), W.pos);
    case TTrue =>
    case _ => LeafStartEnds(W, t, opt, tt, fl, a);
  }

  /** What the premises say about the parts of `t`. */
  lemma StartParts(W: World, rank: seq<nat>, k: nat, b: nat, t: Tree)
    requires LeftBounded(W.g, b, W.w, t) && Ranked(rank, k, t) && CallsLive(W.g, t)
    ensures t.TSeq? || t.TChoice? ==> LeftBounded(W.g, b, W.w, t.p1) && Ranked(rank, k, t.p1) && CallsLive(W.g, t.p1)
    ensures t.TSeq? || t.TChoice? ==> Ranked(rank, k, t.p2) && CallsLive(W.g, t.p2)
    ensures t.TSeq? && LeftNullable(W.g, b, W.w, t.p1) ==> LeftBounded(W.g, b, W.w, t.p2)
    ensures t.TSeq? ==> (LeftNullable(W.g, b, W.w, t) <==>
            LeftNullable(W.g, b, W.w, t.p1) && LeftNullable(W.g, b, W.w, t.p2))
    ensures t.TChoice? ==> LeftBounded(W.g, b, W.w, t.p2)
    ensures t.TChoice? ==> (LeftNullable(W.g, b, W.w, t) <==>
            LeftNullable(W.g, b, W.w, t.p1) || LeftNullable(W.g, b, W.w, t.p2))
    ensures t.TAnd? ==> LeftBounded(W.g, b, W.w, t.p) && Ranked(rank, k, t.p) && CallsLive(W.g, t.p)
    ensures t.TAnd? || t.TBehind? || t.TRep? || t.TNot? || t.TTrue? ==> LeftNullable(W.g, b, W.w, t)
  {
  }

  lemma BoundedLater(W: World, rank: seq<nat>, t: Tree)
    requires RulesLaid(W, rank) && CallsLive(W.g, t)
    ensures LeftBounded(W.g, MAXRULES + 1, W.w, t)
  {
    BoundedAnywhere(W.g, W.w, t);
  }

  lemma {:induction false} SeqStartEnds(W: World, rank: seq<nat>, k: nat, b: nat, t: Tree, opt: bool, tt: Guard,
          fl: Charset, a: int)
    requires t.TSeq?
    requires RulesLaid(W, rank) && At(W, t, opt, tt, fl, a) && CallsLive(W.g, t)
    requires LeftBounded(W.g, b, W.w, t) && Ranked(rank, k, t)
    requires LeftNullable(W.g, b, W.w, t) ==> ChainEnds(W.code, a + Len(W, t, opt, tt, fl))
    ensures ChainEnds(W.code, a)
    decreases k, b, t, 0
  {
    hide *;
    StartParts(W, rank, k, b, t);
    var TSeq(p1, p2) := t;
    var fl1 := if NeedFollow(p1) then First(W.g, W.d, p2, fl).0 else FULL;
    var tt2 := if FixedLen(W.g, W.d, p1) != 0 then NoGuard else tt;
    SeqParts(W, t, opt, tt, fl, a, fl1, tt2);
    if LeftNullable(W.g, b, W.w, p1) { StartEnds(W, rank, k, b, p2, opt, tt2, fl, a + Len(W, p1, false, tt, fl1)); }
    StartEnds(W, rank, k, b, p1, false, tt, fl1, a);
  }

  lemma {:induction false} AndStartEnds(W: World, rank: seq<nat>, k: nat, b: nat, t: Tree, opt: bool, tt: Guard,
          fl: Charset, a: int)
    requires t.TAnd?
    requires RulesLaid(W, rank) && At(W, t, opt, tt, fl, a) && CallsLive(W.g, t)
    requires LeftBounded(W.g, b, W.w, t) && Ranked(rank, k, t)
    requires LeftNullable(W.g, b, W.w, t) ==> ChainEnds(W.code, a + Len(W, t, opt, tt, fl))
    ensures ChainEnds(W.code, a)
    decreases k, b, t, 0
  {
    hide *;
    StartParts(W, rank, k, b, t);
    var p := t.p;
    var n := FixedLen(W.g, W.d, p);
    if 0 <= n <= MAXBEHIND {
      AndFixedShape(W, t, opt, tt, fl, a, n);
      var m := a + Len(W, p, false, tt, FULL);
      BehindEnds(W.code, m, n, W.pos);
      StartOf(W.code, m, |BehindCode(n)|);
      StartEnds(W, rank, k, b, p, false, tt, FULL, a);
    } else {
      AndStackShape(W, t, opt, tt, fl, a, Len(W, p, false, tt, FULL));
      EndsHere(W.code, a);
    }
  }

  lemma {:induction false} BehindStartEnds(W: World, rank: seq<nat>, k: nat, b: nat, t: Tree, opt: bool, tt: Guard,
          fl: Charset, a: int)
    requires t.TBehind?
    requires RulesLaid(W, rank) && At(W, t, opt, tt, fl, a) && CallsLive(W.g, t)
    requires LeftBounded(W.g, b, W.w, t) && Ranked(rank, k, t)
    requires LeftNullable(W.g, b, W.w, t) ==> ChainEnds(W.code, a + Len(W, t, opt, tt, fl))
    ensures ChainEnds(W.code, a)
    decreases k, b, t, 0
  {
    hide RulesLaid, At, Len, CodeAt;
    BehindShape(W, t, opt, tt, fl, a);
    if t.n > 0 { CodeAtOne(W.code, a, IBehind(t.n), W.pos); EndsHere(W.code, a); }
    else {
      if Calls(t.p) == {} {
        CallFreeBounded(W.g, b, W.w, t.p);
        CallFreeRanks(rank, k, t.p);
        StartEnds(W, rank, k, b, t.p, false, NoGuard, FULL, a);
      } else {
        BoundedLater(W, rank, t.p);
        StartEnds(W, rank, k - 1, MAXRULES + 1, t.p, false, NoGuard, FULL, a);
      }
    }
  }

  lemma {:induction false} CallStartEnds(W: World, rank: seq<nat>, k: nat, b: nat, t: Tree, opt: bool, tt: Guard,
          fl: Charset, a: int)
    requires t.TCall?
    requires RulesLaid(W, rank) && At(W, t, opt, tt, fl, a) && CallsLive(W.g, t)
    requires LeftBounded(W.g, b, W.w, t) && Ranked(rank, k, t)
    requires LeftNullable(W.g, b, W.w, t) ==> ChainEnds(W.code, a + Len(W, t, opt, tt, fl))
    ensures ChainEnds(W.code, a)
    decreases k, b, t, 0
  {
    hide *;
    var r := t.rule;
    CallParts(W, rank, k, b, t, opt, tt, fl, a);
    if W.code[a].IJmp? {
      RuleIsThere(W, r);
      var q := W.pos[r];
      RankedMore(rank, rank[r], k, W.g[r]);
      ReturnEnds(W, r);
      StartEnds(W, rank, k, b - 1, W.g[r], false, NoGuard, FULL, q);
      EndsVia(W.code, a, q);
    } else { EndsHere(W.code, a); }
  }

  lemma CallParts(W: World, rank: seq<nat>, k: nat, b: nat, t: Tree, opt: bool, tt: Guard, fl: Charset, a: int)
    requires t.TCall? && RulesLaid(W, rank) && At(W, t, opt, tt, fl, a) && CallsLive(W.g, t)
    requires LeftBounded(W.g, b, W.w, t) && Ranked(rank, k, t)
    ensures var r := t.rule;
            && r < |W.g| == |W.pos| == |rank| && rank[r] <= k && 0 <= a < |W.code|
            && b > 0 && LeftBounded(W.g, b - 1, W.w, W.g[r]) && Ranked(rank, rank[r], W.g[r]) && CallsLive(W.g, W.g[r])
            && CodeAt(W.code, W.pos[r], RuleCode(W.g, W.d, r), W.pos)
            && (W.code[a].IJmp? ==> W.pos[r] == a + W.code[a].off)
  {
    hide RuleCode;
    var r := t.rule;
    assert Linked(W.code, a + 0, Emit(IOpenCall(r))[0], W.pos);
    assert Live(W.g, r);
    hide LeftBounded, LeftNullable, Live;
    LeftCall(W.g, b, W.w, r);
  }

  lemma LeftCall(g: seq<Tree>, b: nat, w: nat, r: nat)
    requires LeftBounded(g, b, w, TCall(r))
    ensures b > 0 && r < |g| && LeftBounded(g, b - 1, w, g[r])
  {
  }

  lemma ReturnEnds(W: World, r: nat)
    requires r < |W.g| && r < |W.pos| && RuleThere(W, r)
    ensures At(W, W.g[r], false, NoGuard, FULL, W.pos[r])
    ensures ChainEnds(W.code, W.pos[r] + Len(W, W.g[r], false, NoGuard, FULL))
  {
    hide Gen;
    EndsHere(W.code, W.pos[r] + Len(W, W.g[r], false, NoGuard, FULL));
  }

  lemma LeafStartEnds(W: World, t: Tree, opt: bool, tt: Guard, fl: Charset, a: int)
    requires t.TChar? || t.TSet? || t.TAny? || t.TFalse?
    requires At(W, t, opt, tt, fl, a)
    ensures AllEnd(W.code, a, Len(W, t, opt, tt, fl)) && ChainEnds(W.code, a)
  {
    match t
    case TSet(cs) =>
      if CharsetType(cs).OtherSet? && tt != GuardSet(cs) { EmitEnds(W.code, a, ISet(cs), W.pos); }
      else { OneEnds(W.code, a, SetCode(cs, tt)[0], W.pos); }
    case TChar(c) => OneEnds(W.code, a, CharCode(c, tt)[0], W.pos);
    case TAny => OneEnds(W.code, a, IAny, W.pos);
    case TFalse => OneEnds(W.code, a, IFail, W.pos);
  }

  /** The two instructions in front of the rules of a grammar. */
  lemma GrammarHead(W: World, t: Tree, opt: bool, tt: Guard, fl: Charset, a: int)
    requires t.TGrammar? && At(W, t, opt, tt, fl, a)
    ensures CodeAt(W.code, a, Emit(ICall(4)), W.pos)
    ensures CodeAt(W.code, a + 2, Emit(IJmp(Len(W, t, opt, tt, fl) - 2)), W.pos)
    ensures CodeAt(W.code, a + 4, CorrectCalls(RulesCode(t.rules, W.d, 0), RulePositions(t.rules, W.d, 0, 0), 0), W.pos)
    ensures Len(W, t, opt, tt, fl) == 4 + |RulesCode(t.rules, W.d, 0)|
  {
    var body := RulesCode(t.rules, W.d, 0);
    var fixed := CorrectCalls(body, RulePositions(t.rules, W.d, 0, 0), 0);
    var head := Emit(ICall(4)) + Emit(IJmp(2 + |body|));
    assert Gen(W.g, W.d, t, opt, tt, fl) == head + fixed;
    CodeAtSplit(W.code, a, head, fixed, W.pos);
    CodeAtSplit(W.code, a, Emit(ICall(4)), Emit(IJmp(2 + |body|)), W.pos);
  }

  lemma {:induction false} ChoiceStartEnds(W: World, rank: seq<nat>, k: nat, b: nat, t: Tree, opt: bool, tt: Guard,
          fl: Charset, a: int)
    requires t.TChoice? && RulesLaid(W, rank) && At(W, t, opt, tt, fl, a) && CallsLive(W.g, t)
    requires LeftBounded(W.g, b, W.w, t) && Ranked(rank, k, t)
    requires LeftNullable(W.g, b, W.w, t) ==> ChainEnds(W.code, a + Len(W, t, opt, tt, fl))
    ensures ChainEnds(W.code, a)
    decreases k, b, t, 0
  {
    hide *;
    StartParts(W, rank, k, b, t);
    var TChoice(p1, p2) := t;
    var (cs1, e1) := First(W.g, W.d, p1, FULL);
    if TestDecides(W, p1, p2, fl) {
      var c1, c2 := Sub(W, p1, false, GuardOf(cs1), fl), Sub(W, p2, opt, NoGuard, fl);
      ChoiceTestShape(W, t, opt, tt, fl, a, cs1, c1, c2);
      var l1 := a + TestLen(cs1, false) + |c1| + (if p2.TTrue? then 0 else 2);
      StartEnds(W, rank, k, b, p2, opt, NoGuard, fl, l1);
      ChoiceByTestFirst(W, a, cs1, c1, c2, p2.TTrue?);
      TestEnds(W.code, a, cs1, false, l1 - a, W.pos);
      TestNotEmpty(W.code, a, cs1);
    } else if opt && p2.TTrue? {
      ChoiceOptShape(W, t, opt, tt, fl, a);
      EndsHere(W.code, a);
    } else {
      var tt1 := if e1 then NoGuard else GuardOf(cs1);
      var c1, c2 := Sub(W, p1, p2.TTrue?, tt1, FULL), Sub(W, p2, opt, NoGuard, fl);
      ChoiceStackShape(W, t, opt, tt, fl, a, cs1, e1, tt1, c1, c2);
      ChoiceByStackParts(W, a, cs1, e1, c1, c2);
      var m := a + TestLen(cs1, e1);
      EndsHere(W.code, m);
      StartEnds(W, rank, k, b, p2, opt, NoGuard, fl, m + 2 + |c1| + 2);
      TestEnds(W.code, a, cs1, e1, m + 2 + |c1| + 2 - a, W.pos);
      StartOf(W.code, a, TestLen(cs1, e1));
    }
  }

  lemma ChoiceByTestFirst(W: World, a: int, cs1: Charset, c1: Code, c2: Code, emptyp2: bool)
    requires CodeAt(W.code, a, ChoiceByTest(cs1, c1, c2, emptyp2), W.pos)
    ensures var l1 := a + TestLen(cs1, false) + |c1| + (if emptyp2 then 0 else 2);
            && CodeAt(W.code, a, TestCode(cs1, false, l1 - a), W.pos)
            && (!emptyp2 ==> CodeAt(W.code, l1 - 2, Emit(IJmp(2 + |c2|)), W.pos))
  {
    hide CodeAt;
    var jmp := if emptyp2 then [] else Emit(IJmp(2 + |c2|));
    CodeAtSplit4(W.code, a, TestCode(cs1, false, TestLen(cs1, false) + |c1| + |jmp|), c1, jmp, c2, W.pos);
  }

  lemma SpanStartEnds(W: World, t: Tree, opt: bool, tt: Guard, fl: Charset, a: int)
    requires t.TRep? && ToCharset(t.p).0 && At(W, t, opt, tt, fl, a)
    ensures AllEnd(W.code, a, Len(W, t, opt, tt, fl)) && ChainEnds(W.code, a)
  {
    EmitEnds(W.code, a, ISpan(ToCharset(t.p).1), W.pos);
  }

  lemma RepStartEnds(W: World, t: Tree, opt: bool, tt: Guard, fl: Charset, a: int)
    requires t.TRep? && !ToCharset(t.p).0 && At(W, t, opt, tt, fl, a) && ChainEnds(W.code, a + Len(W, t, opt, tt, fl))
    ensures ChainEnds(W.code, a)
  {
    hide *;
    var p := t.p;
    var (cs, e) := First(W.g, W.d, p, FULL);
    if RepTestDecides(W, p, fl) {
      var c := Sub(W, p, false, GuardOf(cs), FULL);
      RepTestShape(W, t, opt, tt, fl, a, cs, c);
      RepByTestParts(W, a, cs, c);
      TestEnds(W.code, a, cs, false, TestLen(cs, false) + |c| + 2, W.pos);
      TestNotEmpty(W.code, a, cs);
    } else {
      var n := Len(W, p, false, NoGuard, FULL);
      RepStackShape(W, t, opt, tt, fl, a, cs, e, n);
      EndsHere(W.code, a + TestLen(cs, e));
      TestEnds(W.code, a, cs, e, TestLen(cs, e) + 2 + n + 2, W.pos);
      StartOf(W.code, a, TestLen(cs, e));
    }
  }

  lemma NotStartEnds(W: World, t: Tree, opt: bool, tt: Guard, fl: Charset, a: int)
    requires t.TNot? && At(W, t, opt, tt, fl, a) && ChainEnds(W.code, a + Len(W, t, opt, tt, fl))
    ensures ChainEnds(W.code, a)
  {
    hide *;
    var (cs, e) := First(W.g, W.d, t.p, FULL);
    if HeadFail(W.g, W.d, t.p) {
      NotTestShape(W, t, opt, tt, fl, a, cs, e);
      EndsHere(W.code, a + TestLen(cs, e));
      TestEnds(W.code, a, cs, e, TestLen(cs, e) + 1, W.pos);
      StartOf(W.code, a, TestLen(cs, e));
    } else {
      var n := Len(W, t.p, false, NoGuard, FULL);
      NotStackShape(W, t, opt, tt, fl, a, cs, e, n);
      EndsHere(W.code, a + TestLen(cs, e));
      TestEnds(W.code, a, cs, e, TestLen(cs, e) + 2 + n + 1, W.pos);
      StartOf(W.code, a, TestLen(cs, e));
    }
  }

  // ---------- Every slot ----------

  /** What every case needs: calls that lead somewhere, and an end from which the chain ends. */
  ghost predicate EndsReady(W: World, t: Tree, opt: bool, tt: Guard, fl: Charset, a: int)
  {
    && RulesEnd(W) && At(W, t, opt, tt, fl, a) && CallsLive(W.g, t) && GrammarsBounded(W.w, t)
    && ChainEnds(W.code, a + Len(W, t, opt, tt, fl))
  }

  ghost predicate RulesEnd(W: World)
  {
    |W.pos| == |W.g| && forall r | 0 <= r < |W.g| && Live(W.g, r) :: ChainEnds(W.code, W.pos[r])
  }

  lemma AllEndConcat(code: Code, a: int, n: nat, m: nat)
    requires AllEnd(code, a, n) && AllEnd(code, a + n, m)
    ensures AllEnd(code, a, n + m)
  {
    forall q | a <= q < a + (n + m) ensures ChainEnds(code, q) {
      if q < a + n {} else { assert a + n <= q < a + n + m; }
    }
  }

  lemma StartOf(code: Code, a: int, n: nat)
    requires AllEnd(code, a, n) && ChainEnds(code, a + n)
    ensures ChainEnds(code, a)
  {
    if n > 0 { assert a <= a < a + n; }
  }

  lemma EndsParts(W: World, t: Tree, opt: bool, tt: Guard, fl: Charset, a: int)
    requires EndsReady(W, t, opt, tt, fl, a)
    ensures RulesEnd(W) && At(W, t, opt, tt, fl, a) && ChainEnds(W.code, a + Len(W, t, opt, tt, fl))
    ensures t.TSeq? || t.TChoice? ==>
              && CallsLive(W.g, t.p1) && GrammarsBounded(W.w, t.p1)
              && CallsLive(W.g, t.p2) && GrammarsBounded(W.w, t.p2)
    ensures t.TRep? || t.TNot? || t.TAnd? || t.TBehind? ==> CallsLive(W.g, t.p) && GrammarsBounded(W.w, t.p)
  {
  }

  /** From every slot of generated code the chain of jumps ends. */
  lemma {:induction false} GenEnds(W: World, t: Tree, opt: bool, tt: Guard, fl: Charset, a: int)
    requires EndsReady(W, t, opt, tt, fl, a)
    ensures AllEnd(W.code, a, Len(W, t, opt, tt, fl))
    decreases t, 1
  {
    match t
    case TSeq(_, _) => SeqEnds(W, t, opt, tt, fl, a);
    case TChoice(p1, p2) =>
      if TestDecides(W, p1, p2, fl) { ChoiceTestEnds(W, t, opt, tt, fl, a); }
      else if opt && p2.TTrue? { ChoiceOptEnds(W, t, opt, tt, fl, a); }
      else { ChoiceStackEnds(W, t, opt, tt, fl, a); }
    case TRep(p) =>
      if ToCharset(p).0 { SpanStartEnds(W, t, opt, tt, fl, a); }
      else if RepTestDecides(W, p, fl) { RepTestAllEnds(W, t, opt, tt, fl, a); }
      else { RepStackEnds(W, t, opt, tt, fl, a); }
    case TNot(p) =>
      if HeadFail(W.g, W.d, p) { NotTestEnds(W, t, opt, tt, fl, a); } else { NotStackEnds(W, t, opt, tt, fl, a); }
    case TAnd(_) => AndEnds(W, t, opt, tt, fl, a);
    case TBehind(_, _) => BehindAllEnds(W, t, opt, tt, fl, a);
    case TCall(_) => CallEnds(W, t, opt, tt, fl, a);
    case TGrammar(_) => GrammarEnds(W, t, opt, tt, fl, a);
    case TTrue =>
    case _ => LeafStartEnds(W, t, opt, tt, fl, a);
  }

  lemma {:induction false} SeqEnds(W: World, t: Tree, opt: bool, tt: Guard, fl: Charset, a: int)
    requires t.TSeq? && EndsReady(W, t, opt, tt, fl, a)
    ensures AllEnd(W.code, a, Len(W, t, opt, tt, fl))
    decreases t, 0
  {
    hide *;
    var TSeq(p1, p2) := t;
    var fl1 := if NeedFollow(p1) then First(W.g, W.d, p2, fl).0 else FULL;
    var tt2 := if FixedLen(W.g, W.d, p1) != 0 then NoGuard else tt;
    EndsParts(W, t, opt, tt, fl, a);
    SeqParts(W, t, opt, tt, fl, a, fl1, tt2);
    var n1, n2 := Len(W, p1, false, tt, fl1), Len(W, p2, opt, tt2, fl);
    GenEndsPart(W, p2, opt, tt2, fl, a + n1);
    GenEndsPart(W, p1, false, tt, fl1, a);
    AllEndConcat(W.code, a, n1, n2);
  }

  /** The induction step for a part: also its start. */
  lemma {:induction false} GenEndsPart(W: World, t: Tree, opt: bool, tt: Guard, fl: Charset, a: int)
    requires RulesEnd(W) && At(W, t, opt, tt, fl, a) && CallsLive(W.g, t) && GrammarsBounded(W.w, t)
    requires ChainEnds(W.code, a + Len(W, t, opt, tt, fl))
    ensures AllEnd(W.code, a, Len(W, t, opt, tt, fl)) && ChainEnds(W.code, a)
    decreases t, 2
  {
    GenEnds(W, t, opt, tt, fl, a);
    StartOf(W.code, a, Len(W, t, opt, tt, fl));
  }

  lemma {:induction false} ChoiceTestEnds(W: World, t: Tree, opt: bool, tt: Guard, fl: Charset, a: int)
    requires t.TChoice? && TestDecides(W, t.p1, t.p2, fl) && EndsReady(W, t, opt, tt, fl, a)
    ensures AllEnd(W.code, a, Len(W, t, opt, tt, fl))
    decreases t, 0
  {
    hide *;
    var TChoice(p1, p2) := t;
    var cs1 := First(W.g, W.d, p1, FULL).0;
    var c1, c2 := Sub(W, p1, false, GuardOf(cs1), fl), Sub(W, p2, opt, NoGuard, fl);
    EndsParts(W, t, opt, tt, fl, a);
    ChoiceTestShape(W, t, opt, tt, fl, a, cs1, c1, c2);
    ChoiceByTestFirst(W, a, cs1, c1, c2, p2.TTrue?);
    var tl, jl := TestLen(cs1, false), if p2.TTrue? then 0 else 2;
    var l1 := a + tl + |c1| + jl;
    GenEndsPart(W, p2, opt, NoGuard, fl, l1);
    if !p2.TTrue? { JumpEnds(W.code, l1 - 2, 2 + |c2|, W.pos); StartOf(W.code, l1 - 2, 2); }
    else { NothingEnds(W.code, l1); }
    GenEndsPart(W, p1, false, GuardOf(cs1), fl, a + tl);
    TestEnds(W.code, a, cs1, false, l1 - a, W.pos);
    AllEndConcat(W.code, a, tl, |c1|);
    AllEndConcat(W.code, a, tl + |c1|, jl);
    AllEndConcat(W.code, a, tl + |c1| + jl, |c2|);
  }

  lemma NothingEnds(code: Code, a: int)
    ensures AllEnd(code, a, 0)
  {
  }

  lemma {:induction false} ChoiceOptEnds(W: World, t: Tree, opt: bool, tt: Guard, fl: Charset, a: int)
    requires t.TChoice? && !TestDecides(W, t.p1, t.p2, fl) && opt && t.p2.TTrue? && EndsReady(W, t, opt, tt, fl, a)
    ensures AllEnd(W.code, a, Len(W, t, opt, tt, fl))
    decreases t, 0
  {
    hide EndsReady, RulesEnd, At, Len, Sub, CodeAt, AllEnd, CallsLive, ChainEnds;
    EndsParts(W, t, opt, tt, fl, a);
    ChoiceOptShape(W, t, opt, tt, fl, a);
    ChoiceOptHead(W, t, opt, tt, fl, a);
    GenEndsPart(W, t.p1, true, NoGuard, FULL, a + 2);
    EmitEnds(W.code, a, IPartialCommit(2), W.pos);
    AllEndConcat(W.code, a, 2, Len(W, t.p1, true, NoGuard, FULL));
  }

  lemma ChoiceOptHead(W: World, t: Tree, opt: bool, tt: Guard, fl: Charset, a: int)
    requires t.TChoice? && At(W, t, opt, tt, fl, a) && !TestDecides(W, t.p1, t.p2, fl) && opt && t.p2.TTrue?
    ensures CodeAt(W.code, a, Emit(IPartialCommit(2)), W.pos)
  {
    CodeAtSplit(W.code, a, Emit(IPartialCommit(2)), Gen(W.g, W.d, t.p1, true, NoGuard, FULL), W.pos);
  }

  lemma ChoiceByStackHeads(W: World, a: int, cs1: Charset, e1: bool, c1: Code, c2: Code)
    requires CodeAt(W.code, a, ChoiceByStack(cs1, e1, c1, c2), W.pos)
    ensures var m := a + TestLen(cs1, e1);
            && CodeAt(W.code, m, Emit(IChoice(2 + |c1| + 2)), W.pos)
            && CodeAt(W.code, m + 2 + |c1|, Emit(ICommit(2 + |c2|)), W.pos)
  {
    hide CodeAt;
    var off := TestLen(cs1, e1) + 2 + |c1| + 2;
    CodeAtSplit5(W.code, a, TestCode(cs1, e1, off), Emit(IChoice(2 + |c1| + 2)), c1, Emit(ICommit(2 + |c2|)), c2,
        W.pos);
  }

  lemma {:induction false} ChoiceStackEnds(W: World, t: Tree, opt: bool, tt: Guard, fl: Charset, a: int)
    requires t.TChoice? && !TestDecides(W, t.p1, t.p2, fl) && !(opt && t.p2.TTrue?) && EndsReady(W, t, opt, tt, fl, a)
    ensures AllEnd(W.code, a, Len(W, t, opt, tt, fl))
    decreases t, 0
  {
    hide *;
    var TChoice(p1, p2) := t;
    var (cs1, e1) := First(W.g, W.d, p1, FULL);
    var tt1 := if e1 then NoGuard else GuardOf(cs1);
    var c1, c2 := Sub(W, p1, p2.TTrue?, tt1, FULL), Sub(W, p2, opt, NoGuard, fl);
    EndsParts(W, t, opt, tt, fl, a);
    ChoiceStackShape(W, t, opt, tt, fl, a, cs1, e1, tt1, c1, c2);
    ChoiceByStackParts(W, a, cs1, e1, c1, c2);
    ChoiceByStackHeads(W, a, cs1, e1, c1, c2);
    var tl := TestLen(cs1, e1);
    var m := a + tl;
    var l1 := m + 2 + |c1| + 2;
    GenEndsPart(W, p2, opt, NoGuard, fl, l1);
    TwoEnd(W.code, l1 - 2, ICommit(2 + |c2|), W.pos);
    StartOf(W.code, l1 - 2, 2);
    GenEndsPart(W, p1, p2.TTrue?, tt1, FULL, m + 2);
    TwoEnd(W.code, m, IChoice(2 + |c1| + 2), W.pos);
    TestEnds(W.code, a, cs1, e1, l1 - a, W.pos);
    AllEndConcat(W.code, a, tl, 2);
    AllEndConcat(W.code, a, tl + 2, |c1|);
    AllEndConcat(W.code, a, tl + 2 + |c1|, 2);
    AllEndConcat(W.code, a, tl + 2 + |c1| + 2, |c2|);
  }

  lemma {:induction false} RepTestAllEnds(W: World, t: Tree, opt: bool, tt: Guard, fl: Charset, a: int)
    requires t.TRep? && !ToCharset(t.p).0 && RepTestDecides(W, t.p, fl) && EndsReady(W, t, opt, tt, fl, a)
    ensures AllEnd(W.code, a, Len(W, t, opt, tt, fl))
    decreases t, 0
  {
    hide *;
    var p := t.p;
    var cs := First(W.g, W.d, p, FULL).0;
    var c := Sub(W, p, false, GuardOf(cs), FULL);
    EndsParts(W, t, opt, tt, fl, a);
    RepStartEnds(W, t, opt, tt, fl, a);
    RepTestShape(W, t, opt, tt, fl, a, cs, c);
    RepByTestParts(W, a, cs, c);
    RepByTestTail(W, a, cs, c);
    var tl := TestLen(cs, false);
    JumpEnds(W.code, a + tl + |c|, -(tl + |c|), W.pos);
    StartOf(W.code, a + tl + |c|, 2);
    GenEndsPart(W, p, false, GuardOf(cs), FULL, a + tl);
    TestEnds(W.code, a, cs, false, tl + |c| + 2, W.pos);
    AllEndConcat(W.code, a, tl, |c|);
    AllEndConcat(W.code, a, tl + |c|, 2);
  }

  lemma RepByTestTail(W: World, a: int, cs: Charset, c: Code)
    requires CodeAt(W.code, a, RepByTest(cs, c), W.pos)
    ensures var tl := TestLen(cs, false); CodeAt(W.code, a + tl + |c|, Emit(IJmp(-(tl + |c|))), W.pos)
  {
    hide CodeAt;
    var tl := TestLen(cs, false);
    CodeAtSplit(W.code, a, TestCode(cs, false, tl + |c| + 2) + c, Emit(IJmp(-(tl + |c|))), W.pos);
  }

  lemma RepByStackHeads(W: World, t: Tree, opt: bool, tt: Guard, fl: Charset, a: int, cs: Charset, e: bool, n: nat)
    requires t.TRep? && !ToCharset(t.p).0 && At(W, t, opt, tt, fl, a) && !RepTestDecides(W, t.p, fl)
    requires (cs, e) == First(W.g, W.d, t.p, FULL) && n == Len(W, t.p, false, NoGuard, FULL)
    ensures var m := a + TestLen(cs, e);
            && CodeAt(W.code, m, Emit(if opt then IPartialCommit(2) else IChoice(2 + n + 2)), W.pos)
            && CodeAt(W.code, m + 2 + n, Emit(IPartialCommit(0 - n)), W.pos)
  {
    hide Gen, CodeAt, First, RepByStack, TestCode, TestLen, Emit, HeadFail;
    GenRepTest(W.g, W.d, t, opt, tt, fl);
    var c := Gen(W.g, W.d, t.p, false, NoGuard, FULL);
    var first := if opt then IPartialCommit(2) else IChoice(2 + |c| + 2);
    RepByStackIs(cs, e, opt, c);
    EmitTwo(first);
    CodeAtSplit4(W.code, a, TestCode(cs, e, TestLen(cs, e) + 2 + |c| + 2), Emit(first), c, Emit(IPartialCommit(-|c|)),
                 W.pos);
  }

  lemma RepTailEnds(W: World, a: int, n: int)
    requires CodeAt(W.code, a, Emit(IPartialCommit(0 - n)), W.pos)
    ensures AllEnd(W.code, a, 2)
  {
    EmitEnds(W.code, a, IPartialCommit(0 - n), W.pos);
  }

  lemma {:induction false} RepStackEnds(W: World, t: Tree, opt: bool, tt: Guard, fl: Charset, a: int)
    requires t.TRep? && !ToCharset(t.p).0 && !RepTestDecides(W, t.p, fl) && EndsReady(W, t, opt, tt, fl, a)
    ensures AllEnd(W.code, a, Len(W, t, opt, tt, fl))
    decreases t, 0
  {
    hide *;
    var (cs, e) := First(W.g, W.d, t.p, FULL);
    var n := Len(W, t.p, false, NoGuard, FULL);
    EndsParts(W, t, opt, tt, fl, a);
    RepStackShape(W, t, opt, tt, fl, a, cs, e, n);
    RepByStackHeads(W, t, opt, tt, fl, a, cs, e, n);
    var tl := TestLen(cs, e);
    var m := a + tl;
    RepTailEnds(W, m + 2 + n, n);
    StartOf(W.code, m + 2 + n, 2);
    GenEndsPart(W, t.p, false, NoGuard, FULL, m + 2);
    TwoEnd(W.code, m, if opt then IPartialCommit(2) else IChoice(2 + n + 2), W.pos);
    TestEnds(W.code, a, cs, e, tl + 2 + n + 2, W.pos);
    AllEndConcat(W.code, a, tl, 2);
    AllEndConcat(W.code, a, tl + 2, n);
    AllEndConcat(W.code, a, tl + 2 + n, 2);
  }

  lemma NotHeads(W: World, t: Tree, opt: bool, tt: Guard, fl: Charset, a: int, cs: Charset, e: bool, n: nat)
    requires t.TNot? && At(W, t, opt, tt, fl, a) && (cs, e) == First(W.g, W.d, t.p, FULL)
    requires n == Len(W, t.p, false, NoGuard, FULL)
    ensures var m := a + TestLen(cs, e);
            if HeadFail(W.g, W.d, t.p) then CodeAt(W.code, m, [IFail], W.pos)
            else CodeAt(W.code, m, Emit(IChoice(2 + n + 1)), W.pos) && CodeAt(W.code, m + 2 + n, [IFailTwice], W.pos)
  {
    hide Gen, CodeAt, First;
    GenNot(W.g, W.d, t, opt, tt, fl);
    if HeadFail(W.g, W.d, t.p) {
      CodeAtSplit(W.code, a, TestCode(cs, e, TestLen(cs, e) + 1), [IFail], W.pos);
    } else {
      var c := Gen(W.g, W.d, t.p, false, NoGuard, FULL);
      CodeAtSplit4(W.code, a, TestCode(cs, e, TestLen(cs, e) + 2 + n + 1), Emit(IChoice(2 + n + 1)), c,
          [IFailTwice], W.pos);
    }
  }

  lemma {:induction false} NotTestEnds(W: World, t: Tree, opt: bool, tt: Guard, fl: Charset, a: int)
    requires t.TNot? && HeadFail(W.g, W.d, t.p) && EndsReady(W, t, opt, tt, fl, a)
    ensures AllEnd(W.code, a, Len(W, t, opt, tt, fl))
    decreases t, 0
  {
    hide *;
    var (cs, e) := First(W.g, W.d, t.p, FULL);
    EndsParts(W, t, opt, tt, fl, a);
    NotTestShape(W, t, opt, tt, fl, a, cs, e);
    NotHeads(W, t, opt, tt, fl, a, cs, e, Len(W, t.p, false, NoGuard, FULL));
    OneEnds(W.code, a + TestLen(cs, e), IFail, W.pos);
    TestEnds(W.code, a, cs, e, TestLen(cs, e) + 1, W.pos);
    AllEndConcat(W.code, a, TestLen(cs, e), 1);
  }

  lemma {:induction false} NotStackEnds(W: World, t: Tree, opt: bool, tt: Guard, fl: Charset, a: int)
    requires t.TNot? && !HeadFail(W.g, W.d, t.p) && EndsReady(W, t, opt, tt, fl, a)
    ensures AllEnd(W.code, a, Len(W, t, opt, tt, fl))
    decreases t, 0
  {
    hide *;
    var (cs, e) := First(W.g, W.d, t.p, FULL);
    var n := Len(W, t.p, false, NoGuard, FULL);
    EndsParts(W, t, opt, tt, fl, a);
    NotStackShape(W, t, opt, tt, fl, a, cs, e, n);
    NotHeads(W, t, opt, tt, fl, a, cs, e, n);
    var tl := TestLen(cs, e);
    var m := a + tl;
    OneEnds(W.code, m + 2 + n, IFailTwice, W.pos);
    StartOf(W.code, m + 2 + n, 1);
    GenEndsPart(W, t.p, false, NoGuard, FULL, m + 2);
    TwoEnd(W.code, m, IChoice(2 + n + 1), W.pos);
    TestEnds(W.code, a, cs, e, tl + 2 + n + 1, W.pos);
    AllEndConcat(W.code, a, tl, 2);
    AllEndConcat(W.code, a, tl + 2, n);
    AllEndConcat(W.code, a, tl + 2 + n, 1);
  }

  lemma AndStackHeads(W: World, t: Tree, opt: bool, tt: Guard, fl: Charset, a: int, n: nat)
    requires t.TAnd? && At(W, t, opt, tt, fl, a) && !(0 <= FixedLen(W.g, W.d, t.p) <= MAXBEHIND)
    requires n == Len(W, t.p, false, tt, FULL)
    ensures CodeAt(W.code, a, Emit(IChoice(2 + n + 2)), W.pos)
    ensures CodeAt(W.code, a + 2 + n, Emit(IBackCommit(3)), W.pos) && CodeAt(W.code, a + 2 + n + 2, [IFail], W.pos)
  {
    hide Gen, CodeAt;
    GenAnd(W.g, W.d, t, opt, tt, fl);
    var c := Gen(W.g, W.d, t.p, false, tt, FULL);
    CodeAtSplit4(W.code, a, Emit(IChoice(2 + |c| + 2)), c, Emit(IBackCommit(3)), [IFail], W.pos);
  }

  lemma {:induction false} AndEnds(W: World, t: Tree, opt: bool, tt: Guard, fl: Charset, a: int)
    requires t.TAnd? && EndsReady(W, t, opt, tt, fl, a)
    ensures AllEnd(W.code, a, Len(W, t, opt, tt, fl))
    decreases t, 0
  {
    hide *;
    var n := FixedLen(W.g, W.d, t.p);
    var len := Len(W, t.p, false, tt, FULL);
    EndsParts(W, t, opt, tt, fl, a);
    if 0 <= n <= MAXBEHIND {
      AndFixedShape(W, t, opt, tt, fl, a, n);
      BehindEnds(W.code, a + len, n, W.pos);
      StartOf(W.code, a + len, |BehindCode(n)|);
      GenEndsPart(W, t.p, false, tt, FULL, a);
      AllEndConcat(W.code, a, len, |BehindCode(n)|);
    } else {
      AndStackShape(W, t, opt, tt, fl, a, len);
      AndStackHeads(W, t, opt, tt, fl, a, len);
      TwoEnd(W.code, a + 2 + len, IBackCommit(3), W.pos);
      OneEnds(W.code, a + 2 + len + 2, IFail, W.pos);
      AllEndConcat(W.code, a + 2 + len, 2, 1);
      StartOf(W.code, a + 2 + len, 3);
      GenEndsPart(W, t.p, false, tt, FULL, a + 2);
      TwoEnd(W.code, a, IChoice(2 + len + 2), W.pos);
      AllEndConcat(W.code, a, 2, len);
      AllEndConcat(W.code, a, 2 + len, 3);
    }
  }

  lemma {:induction false} BehindAllEnds(W: World, t: Tree, opt: bool, tt: Guard, fl: Charset, a: int)
    requires t.TBehind? && EndsReady(W, t, opt, tt, fl, a)
    ensures AllEnd(W.code, a, Len(W, t, opt, tt, fl))
    decreases t, 0
  {
    hide *;
    EndsParts(W, t, opt, tt, fl, a);
    BehindShape(W, t, opt, tt, fl, a);
    BehindEnds(W.code, a, t.n, W.pos);
    GenEndsPart(W, t.p, false, NoGuard, FULL, a + |BehindCode(t.n)|);
    AllEndConcat(W.code, a, |BehindCode(t.n)|, Len(W, t.p, false, NoGuard, FULL));
  }

  lemma {:induction false} CallEnds(W: World, t: Tree, opt: bool, tt: Guard, fl: Charset, a: int)
    requires t.TCall? && EndsReady(W, t, opt, tt, fl, a)
    ensures AllEnd(W.code, a, Len(W, t, opt, tt, fl))
    decreases t, 0
  {
    var r := t.rule;
    assert Linked(W.code, a + 0, Emit(IOpenCall(r))[0], W.pos);
    assert Linked(W.code, a + 1, Emit(IOpenCall(r))[1], W.pos);
    assert Live(W.g, r);
    if W.code[a].IJmp? { EndsVia(W.code, a, W.pos[r]); } else { EndsHere(W.code, a); }
    EndsHere(W.code, a + 1);
  }

  lemma {:induction false} LinkableCalls(n: nat, t: Tree)
    requires Linkable(n, t)
    ensures forall r | r in Calls(t) :: r < n
  {
    match t
    case TRep(p) => LinkableCalls(n, p);
    case TNot(p) => LinkableCalls(n, p);
    case TAnd(p) => LinkableCalls(n, p);
    case TBehind(p, _) => LinkableCalls(n, p);
    case TSeq(p1, p2) => LinkableCalls(n, p1); LinkableCalls(n, p2);
    case TChoice(p1, p2) => LinkableCalls(n, p1); LinkableCalls(n, p2);
    case _ =>
  }

  lemma RuleCallsLive(rs: seq<Tree>, r: nat)
    requires r < |rs| && Linkable(|rs|, rs[r])
    ensures CallsLive(rs, rs[r])
  {
    LinkableCalls(|rs|, rs[r]);
  }

  /** Inside a grammar every rule is at its position. */
  ghost predicate AllRulesThere(W: World)
  {
    |W.pos| == |W.g| && forall r | 0 <= r < |W.g| :: CodeAt(W.code, W.pos[r], RuleCode(W.g, W.d, r), W.pos)
  }

  lemma GrammarRulesThere(W: World, t: Tree, opt: bool, tt: Guard, fl: Charset, a: int)
    requires t.TGrammar? && At(W, t, opt, tt, fl, a) && Linkable(0, t)
    ensures AllRulesThere(Within(W, t.rules, a))
  {
    hide RuleCode, CodeAt, Positions, RulesCode, CorrectCalls, RulePositions, At, Len;
    GrammarHead(W, t, opt, tt, fl, a);
    forall r | 0 <= r < |t.rules| {
      GrammarLinks(W.code, W.pos, a + 4, t.rules, W.d, r);
    }
  }

  /** From the start of every live rule the chain ends. */
  lemma RuleStartsEnd(W: World)
    requires AllRulesThere(W) && Linkable(0, TGrammar(W.g)) && GrammarsBounded(W.w, TGrammar(W.g))
    ensures RulesEnd(W)
  {
    var rank: seq<nat> :| RulesRanked(rank, W.g);
    forall r | 0 <= r < |W.g| && Live(W.g, r) ensures CallsLive(W.g, W.g[r]) { RuleCallsLive(W.g, r); }
    forall r | 0 <= r < |W.g| && Live(W.g, r) ensures ChainEnds(W.code, W.pos[r]) {
      RuleIsThere(W, r);
      EndsHere(W.code, W.pos[r] + Len(W, W.g[r], false, NoGuard, FULL));
      StartEnds(W, rank, rank[r], MAXRULES, W.g[r], false, NoGuard, FULL, W.pos[r]);
    }
  }

  /** Where rule `r` and the rules behind it are. */
  lemma OneRule(W: World, r: nat, at: nat)
    requires r < |W.g|
    ensures var n := Len(W, W.g[r], false, NoGuard, FULL);
            && |RulesCode(W.g, W.d, r)| == n + 1 + |RulesCode(W.g, W.d, r + 1)|
            && RulePositions(W.g, W.d, r, at) == [at] + RulePositions(W.g, W.d, r + 1, at + n + 1)
  {
    hide Gen;
    assert |RuleCode(W.g, W.d, r)| == Len(W, W.g[r], false, NoGuard, FULL) + 1;
  }

  /** From every slot of the rules from number `r` on, when rule `r` is at `at`. */
  lemma {:induction false} RulesAllEnd(W: World, r: nat, at: nat, base: int)
    requires AllRulesThere(W) && RulesEnd(W) && r <= |W.g| && GrammarsBounded(W.w, TGrammar(W.g))
    requires forall k | r <= k < |W.g| :: W.pos[k] == base + RulePositions(W.g, W.d, r, at)[k - r]
    ensures AllEnd(W.code, base + at, |RulesCode(W.g, W.d, r)|)
    decreases W.g, 2, |W.g| - r
  {
    if r < |W.g| {
      hide *;
      var n := Len(W, W.g[r], false, NoGuard, FULL);
      OneRule(W, r, at);
      RuleEnds(W, r);
      assert W.pos[r] == base + at;
      var here, rest := RulePositions(W.g, W.d, r, at), RulePositions(W.g, W.d, r + 1, at + n + 1);
      forall k | r + 1 <= k < |W.g| ensures W.pos[k] == base + rest[k - (r + 1)] {
        assert here[k - r] == rest[k - (r + 1)];
      }
      RulesAllEnd(W, r + 1, at + n + 1, base);
      AllEndConcat(W.code, base + at, n + 1, |RulesCode(W.g, W.d, r + 1)|);
    } else { NothingEnds(W.code, base + at); }
  }

  lemma {:induction false} RuleEnds(W: World, r: nat)
    requires AllRulesThere(W) && RulesEnd(W) && r < |W.g| && GrammarsBounded(W.w, TGrammar(W.g))
    ensures AllEnd(W.code, W.pos[r], Len(W, W.g[r], false, NoGuard, FULL) + 1)
    decreases W.g, 1
  {
    var n := Len(W, W.g[r], false, NoGuard, FULL);
    RuleCallsLive(W.g, r);
    RuleIsThere(W, r);
    EndsHere(W.code, W.pos[r] + n);
    GenEndsPart(W, W.g[r], false, NoGuard, FULL, W.pos[r]);
    AllEndConcat(W.code, W.pos[r], n, 1);
  }

  lemma {:induction false} GrammarEnds(W: World, t: Tree, opt: bool, tt: Guard, fl: Charset, a: int)
    requires t.TGrammar? && EndsReady(W, t, opt, tt, fl, a)
    ensures AllEnd(W.code, a, Len(W, t, opt, tt, fl))
    decreases t, 0
  {
    hide RuleCode, RulesCode, CodeAt, At, Len, AllRulesThere, RulesEnd, CorrectCalls, RulePositions, ChainEnds, AllEnd;
    var W' := Within(W, t.rules, a);
    EndsParts(W, t, opt, tt, fl, a);
    GrammarHead(W, t, opt, tt, fl, a);
    GrammarRulesThere(W, t, opt, tt, fl, a);
    RuleStartsEnd(W');
    RulesAllEnd(W', 0, 0, a + 4);
    EmitEnds(W.code, a, ICall(4), W.pos);
    EmitEnds(W.code, a + 2, IJmp(Len(W, t, opt, tt, fl) - 2), W.pos);
    AllEndConcat(W.code, a, 2, 2);
    AllEndConcat(W.code, a, 4, |RulesCode(t.rules, W.d, 0)|);
  }

  // ---------- The whole compiler ----------

  /** Chains of jumps end everywhere in a compiled pattern, so the loops that follow them stop. */
  lemma PatternChainsEnd(w: nat, d: nat, t: Tree)
    requires Linkable(0, t) && GrammarsBounded(w, t)
    ensures ChainsEnd(PatternCode(d, t)) && WellSized(PatternCode(d, t))
  {
    var code := PatternCode(d, t);
    var W := World(code, [], [], w, d, []);
    var n := Len(W, t, false, NoGuard, FULL);
    WholeAt(W, t);
    LinkableCalls(0, t);
    EndsHere(code, n);
    GenEnds(W, t, false, NoGuard, FULL, 0);
    forall q: int ensures ChainEnds(code, q) {
      if 0 <= q < n { assert 0 <= q < 0 + n; } else { EndsHere(code, q); }
    }
  }

  /**
   * The compiler is correct: on every subject and from every position, the optimised code of a well-formed pattern
   * whose grammars do not call on the left for ever stops, exactly as the pattern means.
   */
  lemma CompilerCorrect(w: nat, d: nat, t: Tree, s: Subject, i: nat) returns (r: Result)
    requires WellFormed([], w, t) && GrammarsBounded(w, t) && i <= |s|
    ensures Means([], t, s, i, r)
    ensures Out(Peephole(PatternCode(d, t), 0), s, Start(i)) == Done(r)
  {
    r := PatternStops(w, t, s, i);
    WellFormedLinkable([], w, t);
    PatternChainsEnd(w, d, t);
    CompileSound(w, d, t, s, i, r);
    PeepholeSound(PatternCode(d, t), s, i);
  }

  /** A grammar that passes the checks compiles to code that always stops, with the meaning of the grammar. */
  lemma VerifiedGrammarRuns(rs: seq<Tree>, d: nat, d': nat, s: Subject, i: nat) returns (r: Result)
    requires VerifyGrammar(rs, d) && Constructed(rs, d) && i <= |s|
    ensures Means([], TGrammar(rs), s, i, r)
    ensures Out(Peephole(PatternCode(d', TGrammar(rs)), 0), s, Start(i)) == Done(r)
  {
    VerifiedSafe(rs, d);
    r := CompilerCorrect(d, d', TGrammar(rs), s, i);
  }
}
