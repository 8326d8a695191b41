/** The compiler of lpcode.c: it appends instructions to the code of a pattern and patches their labels in place. */
module PegCompiler {
  import opened PegTree
  import opened PegAnalysis
  import opened PegMachine
  import opened PegCodegen
  import opened PegLinking
  import opened PegCompileSound
  import opened PegPeephole
  import opened PegJumps
  import opened PegVerify
  import opened PegChains
  import PegMatch

  const NOINST: int := -1

  /** What the test at slot `tt`, if there is one, has established about the next character. */
  function GuardAt(code: Code, tt: int): Guard
    requires tt < |code|
  {
    if tt < 0 then NoGuard else
    match code[tt]
    case ITestChar(c, _) => GuardChar(c)
    case ITestSet(cs, _) => GuardSet(cs)
    case _ => NoGuard
  }

  /** There is no instruction, or one with a label. */
  predicate Patchable(code: Code, instruction: int)
  {
    instruction < |code| && (instruction >= 0 ==> Labelled(code[instruction]))
  }

  /** `code` with the label of `instruction`, if there is one, set to slot `target`. */
  function Patched(code: Code, instruction: int, target: int): (r: Code)
    ensures |r| == |code|
  {
    if 0 <= instruction < |code| && Labelled(code[instruction])
    then code[instruction := Relabel(code[instruction], target - instruction)]
    else code
  }

  lemma GuardGrows(code: Code, more: Code, tt: int)
    requires tt < |code|
    ensures GuardAt(code + more, tt) == GuardAt(code, tt)
  {
  }

  lemma TestGuards(code: Code, cs: Charset)
    ensures var after := code + TestCode(cs, false, 0); |code| < |after| && GuardAt(after, |code|) == GuardOf(cs)
    ensures TestSlot(code, false) == |code|
  {
    var after := code + TestCode(cs, false, 0);
    assert after[|code|] == TestInstr(cs, 0);
  }

  // ---------- What the patches of each construction come to ----------

  /** The code so far and the parts of a construction after it. */
  function Parts(pre: Code, a: Code, b: Code, c: Code, d: Code, e: Code): (r: Code)
    ensures |r| == |pre| + |a| + |b| + |c| + |d| + |e|
  {
    pre + a + b + c + d + e
  }

  lemma PatchEmit(pre: Code, x: Instr, post: Code, target: int)
    requires Labelled(x)
    ensures Patchable(pre + Emit(x) + post, |pre|)
    ensures Patched(pre + Emit(x) + post, |pre|, target) == pre + Emit(Relabel(x, target - |pre|)) + post
  {
    assert SizeI(Relabel(x, target - |pre|)) == SizeI(x);
    assert (pre + Emit(x) + post)[|pre|] == Emit(x)[0];
  }

  /** Slot of a test, if there is one. */
  function TestSlot(pre: Code, e: bool): int
  {
    if e then NOINST else |pre|
  }

  lemma PatchTest(pre: Code, cs: Charset, empty: bool, b: Code, c: Code, d: Code, e: Code, target: int)
    ensures Patchable(Parts(pre, TestCode(cs, empty, 0), b, c, d, e), TestSlot(pre, empty))
    ensures Patched(Parts(pre, TestCode(cs, empty, 0), b, c, d, e), TestSlot(pre, empty), target)
         == Parts(pre, TestCode(cs, empty, target - |pre|), b, c, d, e)
  {
    if !empty { PatchA(pre, TestInstr(cs, 0), b, c, d, e, target); }
  }

  lemma PatchA(pre: Code, x: Instr, b: Code, c: Code, d: Code, e: Code, target: int)
    requires Labelled(x)
    ensures Patchable(Parts(pre, Emit(x), b, c, d, e), |pre|)
    ensures Patched(Parts(pre, Emit(x), b, c, d, e), |pre|, target)
         == Parts(pre, Emit(Relabel(x, target - |pre|)), b, c, d, e)
  {
    var x' := Relabel(x, target - |pre|);
    PatchEmit(pre, x, b + c + d + e, target);
    Grouped(pre, Emit(x), b, c, d, e);
    Grouped(pre, Emit(x'), b, c, d, e);
  }

  lemma PatchB(pre: Code, a: Code, x: Instr, c: Code, d: Code, e: Code, target: int)
    requires Labelled(x)
    ensures Patchable(Parts(pre, a, Emit(x), c, d, e), |pre + a|)
    ensures Patched(Parts(pre, a, Emit(x), c, d, e), |pre + a|, target)
         == Parts(pre, a, Emit(Relabel(x, target - |pre + a|)), c, d, e)
  {
    var x' := Relabel(x, target - |pre + a|);
    PatchEmit(pre + a, x, c + d + e, target);
    Grouped2(pre, a, Emit(x), c, d, e);
    Grouped2(pre, a, Emit(x'), c, d, e);
  }

  lemma PatchC(pre: Code, a: Code, b: Code, x: Instr, d: Code, e: Code, target: int)
    requires Labelled(x)
    ensures Patchable(Parts(pre, a, b, Emit(x), d, e), |pre + a + b|)
    ensures Patched(Parts(pre, a, b, Emit(x), d, e), |pre + a + b|, target)
         == Parts(pre, a, b, Emit(Relabel(x, target - |pre + a + b|)), d, e)
  {
    var x' := Relabel(x, target - |pre + a + b|);
    PatchEmit(pre + a + b, x, d + e, target);
    assert Parts(pre, a, b, Emit(x), d, e) == pre + a + b + Emit(x) + (d + e);
    assert Parts(pre, a, b, Emit(x'), d, e) == pre + a + b + Emit(x') + (d + e);
  }

  lemma PatchD(pre: Code, a: Code, b: Code, c: Code, x: Instr, e: Code, target: int)
    requires Labelled(x)
    ensures Patchable(Parts(pre, a, b, c, Emit(x), e), |pre + a + b + c|)
    ensures Patched(Parts(pre, a, b, c, Emit(x), e), |pre + a + b + c|, target)
         == Parts(pre, a, b, c, Emit(Relabel(x, target - |pre + a + b + c|)), e)
  {
    PatchEmit(pre + a + b + c, x, e, target);
  }

  lemma Grouped(pre: Code, a: Code, b: Code, c: Code, d: Code, e: Code)
    ensures Parts(pre, a, b, c, d, e) == pre + a + (b + c + d + e)
  {
  }

  lemma Grouped2(pre: Code, a: Code, b: Code, c: Code, d: Code, e: Code)
    ensures Parts(pre, a, b, c, d, e) == pre + a + b + (c + d + e)
  {
  }

  lemma Together(pre: Code, a: Code, b: Code, c: Code, d: Code, e: Code)
    ensures Parts(pre, a, b, c, d, e) == pre + (a + b + c + d + e)
  {
  }

  /** Appending what was still missing. */
  lemma Filled(pre: Code, a: Code, b: Code, c: Code, d: Code, e: Code)
    ensures Parts(pre, a, b, c, d, []) + e == Parts(pre, a, b, c, d, e)
    ensures Parts(pre, a, b, c, [], []) + d == Parts(pre, a, b, c, d, [])
    ensures pre + a + b + c + d == Parts(pre, a, b, c, d, [])
    ensures pre + a + b + c == Parts(pre, a, b, c, [], [])
    ensures pre + a + b == Parts(pre, a, b, [], [], [])
  {
  }

  // ---------- Shapes of the generated code ----------

  /** No grammar in `t` calls on the left for ever. */
  ghost predicate Bounded(t: Tree)
  {
    exists w: nat :: GrammarsBounded(w, t)
  }

  /** What is asked of a tree: calls have rules, and no grammar calls on the left for ever. */
  ghost predicate Codable(g: seq<Tree>, t: Tree)
  {
    Linkable(|g|, t) && Bounded(t)
  }

  lemma GenChoiceByTest(g: seq<Tree>, d: nat, p1: Tree, p2: Tree, opt: bool, fl: Charset, cs1: Charset, e1: bool)
    requires (cs1, e1) == First(g, d, p1, FULL) && (HeadFail(g, d, p1) || (!e1 && cs1 !! First(g, d, p2, fl).0))
    ensures Gen(g, d, TChoice(p1, p2), opt, NoGuard, fl)
         == ChoiceByTest(cs1, Gen(g, d, p1, false, GuardOf(cs1), fl), Gen(g, d, p2, opt, NoGuard, fl), p2.TTrue?)
  {
  }

  lemma GenChoiceByStack(g: seq<Tree>, d: nat, p1: Tree, p2: Tree, opt: bool, fl: Charset, cs1: Charset, e1: bool)
    requires (cs1, e1) == First(g, d, p1, FULL) && !HeadFail(g, d, p1) && (e1 || !(cs1 !! First(g, d, p2, fl).0))
    requires !(opt && p2.TTrue?)
    ensures Gen(g, d, TChoice(p1, p2), opt, NoGuard, fl)
         == ChoiceByStack(cs1, e1, Gen(g, d, p1, p2.TTrue?, if e1 then NoGuard else GuardOf(cs1), FULL),
                          Gen(g, d, p2, opt, NoGuard, fl))
  {
  }

  lemma ChoiceByTestTogether(pre: Code, cs1: Charset, c1: Code, jmp: Code, c2: Code, emptyp2: bool)
    requires jmp == if emptyp2 then [] else Emit(IJmp(2 + |c2|))
    ensures Parts(pre, TestCode(cs1, false, TestLen(cs1, false) + |c1| + |jmp|), c1, jmp, c2, [])
         == pre + ChoiceByTest(cs1, c1, c2, emptyp2)
  {
    Together(pre, TestCode(cs1, false, TestLen(cs1, false) + |c1| + |jmp|), c1, jmp, c2, []);
  }

  lemma ChoiceByStackTogether(pre: Code, cs1: Charset, e1: bool, c1: Code, c2: Code)
    ensures var n := 2 + |c1| + 2;
            Parts(pre, TestCode(cs1, e1, TestLen(cs1, e1) + n), Emit(IChoice(n)), c1, Emit(ICommit(2 + |c2|)), c2)
            == pre + ChoiceByStack(cs1, e1, c1, c2)
  {
    hide Parts, Emit, TestCode, TestLen, Pads;
    var n := 2 + |c1| + 2;
    Together(pre, TestCode(cs1, e1, TestLen(cs1, e1) + n), Emit(IChoice(n)), c1, Emit(ICommit(2 + |c2|)), c2);
  }

  /** The test of a choice, once p1 and the jump behind it are there. */
  lemma TestPatched(pre: Code, cs1: Charset, c1: Code, jmp: Code)
    ensures var code := pre + TestCode(cs1, false, 0) + c1 + jmp;
            && Patchable(code, |pre|)
            && Patched(code, |pre|, |code|) == pre + TestCode(cs1, false, TestLen(cs1, false) + |c1| + |jmp|) + c1 + jmp
  {
    hide Parts, Patched, Patchable, TestCode, TestLen, Emit, Pads;
    var t0, t1 := TestCode(cs1, false, 0), TestCode(cs1, false, TestLen(cs1, false) + |c1| + |jmp|);
    Filled(pre, t0, c1, jmp, [], []);
    PatchTest(pre, cs1, false, c1, jmp, [], [], |pre| + |t0| + |c1| + |jmp|);
    Filled(pre, t1, c1, jmp, [], []);
  }

  /** The jump over p2, once p2 is there. */
  lemma JumpPatched(pre: Code, cs1: Charset, c1: Code, c2: Code, emptyp2: bool)
    ensures var j := if emptyp2 then [] else Emit(IJmp(0));
            var head := pre + TestCode(cs1, false, TestLen(cs1, false) + |c1| + |j|) + c1;
            var code := head + j + c2;
            var jmp := if emptyp2 then NOINST else |head|;
            && Patchable(code, jmp)
            && Patched(code, jmp, |code|) == pre + ChoiceByTest(cs1, c1, c2, emptyp2)
  {
    hide Parts, Patched, Patchable, TestCode, TestLen, Emit, Pads, ChoiceByTest;
    var j := if emptyp2 then [] else Emit(IJmp(0));
    var t1 := TestCode(cs1, false, TestLen(cs1, false) + |c1| + |j|);
    var code := pre + t1 + c1 + j + c2;
    Filled(pre, t1, c1, j, c2, []);
    NothingPatched(code, |code|);
    PatchC(pre, t1, c1, IJmp(0), c2, [], |code|);
    ChoiceByTestTogether(pre, cs1, c1, if emptyp2 then [] else Emit(IJmp(2 + |c2|)), c2, emptyp2);
  }

  /** The choice and the test of a choice, once p1 and the commit are there. */
  lemma ChoicePatched(pre: Code, cs1: Charset, e1: bool, c1: Code)
    ensures var t0 := TestCode(cs1, e1, 0);
            var code := pre + t0 + Emit(IChoice(0)) + c1 + Emit(ICommit(0));
            && Patchable(code, |pre + t0|)
            && Patchable(Patched(code, |pre + t0|, |code|), TestSlot(pre, e1))
            && Patched(Patched(code, |pre + t0|, |code|), TestSlot(pre, e1), |code|)
            == pre + TestCode(cs1, e1, TestLen(cs1, e1) + 2 + |c1| + 2) + Emit(IChoice(2 + |c1| + 2)) + c1
               + Emit(ICommit(0))
  {
    hide Parts, Patched, Patchable, TestCode, TestLen, Emit, Pads;
    var n := 2 + |c1| + 2;
    var t0, t1 := TestCode(cs1, e1, 0), TestCode(cs1, e1, TestLen(cs1, e1) + n);
    var total := |pre| + |t0| + 2 + |c1| + 2;
    Filled(pre, t0, Emit(IChoice(0)), c1, Emit(ICommit(0)), []);
    PatchB(pre, t0, IChoice(0), c1, Emit(ICommit(0)), [], total);
    PatchTest(pre, cs1, e1, Emit(IChoice(n)), c1, Emit(ICommit(0)), [], total);
    Filled(pre, t1, Emit(IChoice(n)), c1, Emit(ICommit(0)), []);
  }

  /** The commit of a choice, once p2 is there. */
  lemma CommitPatched(pre: Code, cs1: Charset, e1: bool, c1: Code, c2: Code)
    ensures var head := pre + TestCode(cs1, e1, TestLen(cs1, e1) + 2 + |c1| + 2) + Emit(IChoice(2 + |c1| + 2)) + c1;
            var code := head + Emit(ICommit(0)) + c2;
            && Patchable(code, |head|)
            && Patched(code, |head|, |code|) == pre + ChoiceByStack(cs1, e1, c1, c2)
  {
    hide Parts, Patched, Patchable, TestCode, TestLen, Emit, Pads, ChoiceByStack;
    var n := 2 + |c1| + 2;
    var t1 := TestCode(cs1, e1, TestLen(cs1, e1) + n);
    Filled(pre, t1, Emit(IChoice(n)), c1, Emit(ICommit(0)), c2);
    PatchD(pre, t1, Emit(IChoice(n)), c1, ICommit(0), c2, |pre| + |t1| + 2 + |c1| + 2 + |c2|);
    ChoiceByStackTogether(pre, cs1, e1, c1, c2);
  }

  /** The test and the closing jump of a repetition. */
  lemma LoopPatched(pre: Code, cs: Charset, c: Code)
    ensures var head := pre + TestCode(cs, false, 0) + c;
            var code := head + Emit(IJmp(0));
            && Patchable(code, |pre|)
            && Patchable(Patched(code, |pre|, |code|), |head|)
            && Patched(Patched(code, |pre|, |code|), |head|, |pre|) == pre + RepByTest(cs, c)
  {
    hide Parts, Patched, Patchable, TestCode, TestLen, Emit, Pads;
    var t0, t1 := TestCode(cs, false, 0), TestCode(cs, false, TestLen(cs, false) + |c| + 2);
    Filled(pre, t0, c, Emit(IJmp(0)), [], []);
    PatchTest(pre, cs, false, c, Emit(IJmp(0)), [], [], |pre| + |t0| + |c| + 2);
    PatchC(pre, t1, c, IJmp(0), [], [], |pre|);
    var jmp := Emit(IJmp(-(TestLen(cs, false) + |c|)));
    Together(pre, t1, c, jmp, [], []);
    assert t1 + c + jmp + [] + [] == t1 + c + jmp;
  }

  /** First instruction of a repetition that cannot be decided by a test, before patches. */
  function RepHead(opt: bool): Instr
  {
    if opt then IPartialCommit(2) else IChoice(0)
  }

  /** The partial commit, the choice and the test of a repetition. */
  lemma RepPatched(pre: Code, cs: Charset, e: bool, opt: bool, c: Code)
    ensures var t0 := TestCode(cs, e, 0);
            var pchoice := if opt then NOINST else |pre + t0|;
            var head := pre + t0 + Emit(RepHead(opt)) + c;
            var code := head + Emit(IPartialCommit(0));
            && Patchable(code, |head|)
            && var code1 := Patched(code, |head|, |pre + t0| + 2);
               && Patchable(code1, pchoice)
               && Patchable(Patched(code1, pchoice, |code|), TestSlot(pre, e))
               && Patched(Patched(code1, pchoice, |code|), TestSlot(pre, e), |code|) == pre + RepByStack(cs, e, opt, c)
  {
    hide Parts, Patched, Patchable, TestCode, TestLen, Emit, Pads, RepByStack;
    var n := 2 + |c| + 2;
    var t0, t1 := TestCode(cs, e, 0), TestCode(cs, e, TestLen(cs, e) + n);
    var total := |pre| + |t0| + n;
    var commit := Emit(IPartialCommit(-|c|));
    var first := if opt then IPartialCommit(2) else IChoice(n);
    Filled(pre, t0, Emit(RepHead(opt)), c, Emit(IPartialCommit(0)), []);
    PatchD(pre, t0, Emit(RepHead(opt)), c, IPartialCommit(0), [], |pre| + |t0| + 2);
    NothingPatched(Parts(pre, t0, Emit(RepHead(opt)), c, commit, []), total);
    PatchB(pre, t0, IChoice(0), c, commit, [], total);
    PatchTest(pre, cs, e, Emit(first), c, commit, [], total);
    RepTogether(pre, cs, e, opt, c);
  }

  lemma RepTogether(pre: Code, cs: Charset, e: bool, opt: bool, c: Code)
    ensures var n := 2 + |c| + 2;
            Parts(pre, TestCode(cs, e, TestLen(cs, e) + n), Emit(if opt then IPartialCommit(2) else IChoice(n)), c,
                  Emit(IPartialCommit(-|c|)), [])
            == pre + RepByStack(cs, e, opt, c)
  {
    hide Parts, TestCode, TestLen, Emit, Pads;
    var n := 2 + |c| + 2;
    var first, commit := Emit(if opt then IPartialCommit(2) else IChoice(n)), Emit(IPartialCommit(-|c|));
    var t1 := TestCode(cs, e, TestLen(cs, e) + n);
    Together(pre, t1, first, c, commit, []);
    assert t1 + first + c + commit + [] == t1 + first + c + commit;
  }

  /** The choice and the test of a not-predicate. */
  lemma NotPatched(pre: Code, cs: Charset, e: bool, c: Code)
    ensures var t0 := TestCode(cs, e, 0);
            var code := pre + t0 + Emit(IChoice(0)) + c + Emit(IFailTwice);
            && Patchable(code, |pre + t0|)
            && Patchable(Patched(code, |pre + t0|, |code|), TestSlot(pre, e))
            && Patched(Patched(code, |pre + t0|, |code|), TestSlot(pre, e), |code|) == pre + NotByStack(cs, e, c)
  {
    hide Parts, Patched, Patchable, TestCode, TestLen, Emit, Pads;
    var n := 2 + |c| + 1;
    var t0, t1 := TestCode(cs, e, 0), TestCode(cs, e, TestLen(cs, e) + n);
    var fail := Emit(IFailTwice);
    Filled(pre, t0, Emit(IChoice(0)), c, fail, []);
    PatchB(pre, t0, IChoice(0), c, fail, [], |pre| + |t0| + n);
    PatchTest(pre, cs, e, Emit(IChoice(n)), c, fail, [], |pre| + |t0| + n);
    Together(pre, t1, Emit(IChoice(n)), c, fail, []);
    assert fail == [IFailTwice];
    assert t1 + Emit(IChoice(n)) + c + fail + [] == t1 + Emit(IChoice(n)) + c + [IFailTwice];
  }

  /** The test of a not-predicate that only looks at the next character. */
  lemma NotTestPatched(pre: Code, cs: Charset, e: bool)
    ensures var code := pre + TestCode(cs, e, 0) + Emit(IFail);
            && Patchable(code, TestSlot(pre, e))
            && Patched(code, TestSlot(pre, e), |code|) == pre + (TestCode(cs, e, TestLen(cs, e) + 1) + [IFail])
  {
    hide Parts, Patched, Patchable, TestCode, TestLen, Emit, Pads;
    var t0, t1 := TestCode(cs, e, 0), TestCode(cs, e, TestLen(cs, e) + 1);
    Filled(pre, t0, Emit(IFail), [], [], []);
    PatchTest(pre, cs, e, Emit(IFail), [], [], [], |pre| + |t0| + 1);
    Together(pre, t1, Emit(IFail), [], [], []);
    assert Emit(IFail) == [IFail];
    assert t1 + Emit(IFail) + [] + [] + [] == t1 + [IFail];
  }

  /** The choice and the commit of an and-predicate. */
  lemma AndPatched(pre: Code, c: Code)
    ensures var head := pre + Emit(IChoice(0)) + c;
            var code := head + Emit(IBackCommit(0));
            && Patchable(code, |pre|)
            && var code1 := Patched(code, |pre|, |code|) + Emit(IFail);
               && Patchable(code1, |head|)
               && Patched(code1, |head|, |code1|) == pre + AndByStack(c)
  {
    hide Parts, Patched, Patchable, Emit, Pads;
    var choice, fail := Emit(IChoice(2 + |c| + 2)), Emit(IFail);
    Filled(pre, Emit(IChoice(0)), c, Emit(IBackCommit(0)), [], []);
    PatchA(pre, IChoice(0), c, Emit(IBackCommit(0)), [], [], |pre| + 2 + |c| + 2);
    Filled(pre, choice, c, Emit(IBackCommit(0)), fail, []);
    PatchC(pre, choice, c, IBackCommit(0), fail, [], |pre| + 2 + |c| + 3);
    Together(pre, choice, c, Emit(IBackCommit(3)), fail, []);
    assert fail == [IFail];
    assert choice + c + Emit(IBackCommit(3)) + fail + [] == choice + c + Emit(IBackCommit(3)) + [IFail];
  }

  lemma NoTest(code: Code)
    ensures NOINST < |code| && GuardAt(code, NOINST) == NoGuard
  {
  }

  lemma PatchedAt(code: Code, i: nat, target: int)
    requires i < |code| && Labelled(code[i])
    ensures Patchable(code, i) && Patched(code, i, target) == code[i := Relabel(code[i], target - i)]
  {
  }

  lemma CommitLabelled(x: Instr)
    ensures CommitLike(x) ==> Labelled(x) && (x.ICommit? || x.IPartialCommit? || x.IBackCommit?)
  {
  }

  lemma JumpRelabelled(x: Instr, off: int)
    requires x.IJmp?
    ensures Labelled(x) && Relabel(x, off) == IJmp(off)
  {
  }

  lemma NothingPatched(code: Code, target: int)
    ensures Patchable(code, NOINST) && Patched(code, NOINST, target) == code
  {
  }

  lemma GenLeaf(g: seq<Tree>, d: nat, t: Tree, opt: bool, tt: Guard, fl: Charset)
    ensures t.TChar? ==> Gen(g, d, t, opt, tt, fl) == CharCode(t.c, tt)
    ensures t.TSet? ==> Gen(g, d, t, opt, tt, fl) == SetCode(t.cs, tt)
    ensures t.TAny? ==> Gen(g, d, t, opt, tt, fl) == Emit(IAny)
    ensures t.TTrue? ==> Gen(g, d, t, opt, tt, fl) == []
    ensures t.TFalse? ==> Gen(g, d, t, opt, tt, fl) == Emit(IFail)
    ensures t.TCall? ==> Gen(g, d, t, opt, tt, fl) == Emit(IOpenCall(t.rule))
  {
  }

  /** What code generation does not look at. */
  lemma GenBare(g: seq<Tree>, d: nat, t: Tree, opt: bool, tt: Guard, fl: Charset)
    ensures t.TChoice? || t.TRep? ==> Gen(g, d, t, opt, tt, fl) == Gen(g, d, t, opt, NoGuard, fl)
    ensures t.TBehind? || t.TNot? || t.TGrammar? ==> Gen(g, d, t, opt, tt, fl) == Gen(g, d, t, false, NoGuard, FULL)
    ensures t.TAnd? ==> Gen(g, d, t, opt, tt, fl) == Gen(g, d, t, false, tt, FULL)
  {
  }

  lemma CodableParts(g: seq<Tree>, t: Tree)
    requires Codable(g, t)
    ensures t.TSeq? || t.TChoice? ==> Codable(g, t.p1) && Codable(g, t.p2)
    ensures t.TRep? || t.TNot? || t.TAnd? || t.TBehind? ==> Codable(g, t.p)
    ensures t.TGrammar? ==> forall r | 0 <= r < |t.rules| :: Codable(t.rules, t.rules[r])
  {
    var w: nat :| GrammarsBounded(w, t);
    assert t.TSeq? || t.TChoice? ==> GrammarsBounded(w, t.p1) && GrammarsBounded(w, t.p2);
    assert t.TRep? || t.TNot? || t.TAnd? || t.TBehind? ==> GrammarsBounded(w, t.p);
    if t.TGrammar? {
      forall r | 0 <= r < |t.rules| ensures Codable(t.rules, t.rules[r]) { assert GrammarsBounded(w, t.rules[r]); }
    }
  }

  lemma CodableLevel(g: seq<Tree>, rs: seq<Tree>)
    requires Codable(g, TGrammar(rs))
    ensures Codable([], TGrammar(rs)) && Linkable(0, TGrammar(rs)) && Bounded(TGrammar(rs))
  {
  }

  lemma Regroup(pre: Code, mid: Code, c1: Code, c2: Code)
    requires mid == pre + c1
    ensures mid + c2 == pre + (c1 + c2)
  {
  }

  lemma GenBehind(g: seq<Tree>, d: nat, p: Tree, n: nat)
    ensures Gen(g, d, TBehind(p, n), false, NoGuard, FULL) == BehindCode(n) + Gen(g, d, p, false, NoGuard, FULL)
  {
  }

  /** Follow set of the first part of a sequence. */
  function FirstFollow(g: seq<Tree>, d: nat, p1: Tree, p2: Tree, fl: Charset): Charset
  {
    if NeedFollow(p1) then First(g, d, p2, fl).0 else FULL
  }

  /** What a test in front of a sequence still says about its second part. */
  function SecondGuard(g: seq<Tree>, d: nat, p1: Tree, tt: Guard): Guard
  {
    if FixedLen(g, d, p1) != 0 then NoGuard else tt
  }

  lemma GenSeq(g: seq<Tree>, d: nat, p1: Tree, p2: Tree, opt: bool, tt: Guard, fl: Charset)
    ensures Gen(g, d, TSeq(p1, p2), opt, tt, fl)
         == Gen(g, d, p1, false, tt, FirstFollow(g, d, p1, p2, fl)) + Gen(g, d, p2, opt, SecondGuard(g, d, p1, tt), fl)
  {
    hide First, HeadFail, FixedLen, NeedFollow, RulesCode, RulePositions, PegCodegen.CorrectCalls, Emit, Pads;
    hide SetCode, CharCode, GuardOf, TestCode, TestLen, BehindCode, ToCharset, ChoiceByTest, ChoiceByStack, RepByTest;
    hide RepByStack, NotByStack, AndByStack;
  }

  // ---------- Following jumps ----------

  /** Jumps of the slots from `lo` on lead to slots from `lo` on. */
  ghost predicate ClosedFrom(code: Code, lo: int)
  {
    0 <= lo <= |code| && forall x | lo <= x < |code| && code[x].IJmp? :: lo <= x + code[x].off < |code|
  }

  /** Where a sequence of jumps ends. */
  method FindTarget(code: Code, ghost lo: int, i: int) returns (j: int)
    requires ClosedFrom(code, lo) && lo <= i < |code| && ChainEnds(code, i)
    ensures j == FinalTarget(code, i) && lo <= j < |code| && !code[j].IJmp?
  {
    j := i;
    ghost var h: nat, f: int :| Chain(code, i, h, f);
    while code[j].IJmp?
      invariant lo <= j < |code| && Chain(code, j, h, f)
      decreases h
    {
      j := j + code[j].off;
      h := h - 1;
    }
    TargetUnique(code, i, j);
  }

  /** The final target is the end of any chain. */
  lemma TargetUnique(code: Code, q: int, f: int)
    requires exists h: nat :: Chain(code, q, h, f)
    ensures FinalTarget(code, q) == f
  {
    var h: nat :| Chain(code, q, h, f);
    var f' := FinalTarget(code, q);
    var h': nat :| Chain(code, q, h', f');
    ChainUnique(code, q, h, f, h', f');
  }

  // ---------- Linking the rules of a grammar in place ----------

  /** A chain through a block, seen from inside the block, ends where it leaves it at the latest. */
  lemma {:induction false} ChainInside(code: Code, a: int, blk: Code, q: int, h: nat, f: int)
    requires 0 <= a && a + |blk| <= |code| && forall x | 0 <= x < |blk| :: code[a + x] == blk[x]
    requires Chain(code, a + q, h, f)
    ensures ChainEnds(blk, q)
    decreases h
  {
    if 0 <= q < |blk| && blk[q].IJmp? {
      ChainInside(code, a, blk, q + blk[q].off, h - 1, f);
      EndsVia(blk, q, q + blk[q].off);
    } else { EndsHere(blk, q); }
  }

  lemma PartChainsEnd(pre: Code, blk: Code, post: Code)
    requires ChainsEnd(pre + blk + post)
    ensures ChainsEnd(blk)
  {
    var code := pre + blk + post;
    forall q: int ensures ChainEnds(blk, q) {
      var p := |pre| + q;
      assert ChainEnds(code, p);
      var h: nat, f: int :| Chain(code, p, h, f);
      ChainInside(code, |pre|, blk, q, h, f);
    }
  }

  /** Chains of jumps through the linked rules of a grammar end. */
  lemma LinkedChainsEnd(rs: seq<Tree>, d: nat)
    requires Linkable(0, TGrammar(rs)) && Bounded(TGrammar(rs))
    ensures ChainsEnd(PegCodegen.CorrectCalls(RulesCode(rs, d, 0), RulePositions(rs, d, 0, 0), 0))
  {
    hide ChainsEnd, RulesCode, RulePositions, PegCodegen.CorrectCalls, WellSized;
    var body := RulesCode(rs, d, 0);
    var fixed := PegCodegen.CorrectCalls(body, RulePositions(rs, d, 0, 0), 0);
    var w: nat :| GrammarsBounded(w, TGrammar(rs));
    PatternChainsEnd(w, d, TGrammar(rs));
    var head := Emit(ICall(4)) + Emit(IJmp(2 + |body|));
    assert PatternCode(d, TGrammar(rs)) == head + fixed + [IEnd];
    PartChainsEnd(head, fixed, [IEnd]);
  }

  /** The rules of a grammar, laid out and linked up to slot `q`. */
  ghost predicate LinkState(rs: seq<Tree>, d: nat, cur: Code, q: int)
  {
    var body, pos := RulesCode(rs, d, 0), RulePositions(rs, d, 0, 0);
    && |cur| == |body| && 0 <= q <= |cur| && Tidy(cur, |rs|)
    && PegCodegen.CorrectCalls(cur, pos, q) == PegCodegen.CorrectCalls(body, pos, 0)
    && (forall x | 0 <= x < |cur| && !body[x].IOpenCall? :: cur[x] == body[x])
    && (forall x | 0 <= q <= x < |cur| :: cur[x] == body[x])
  }

  lemma LinkStarts(rs: seq<Tree>, d: nat)
    requires Linkable(0, TGrammar(rs))
    ensures LinkState(rs, d, RulesCode(rs, d, 0), 0)
  {
    RulesTidy(rs, d, 0);
  }

  lemma LinkStep(rs: seq<Tree>, d: nat, cur: Code, q: int)
    requires LinkState(rs, d, cur, q) && q < |cur|
    ensures var x := Resolve(cur, q, RulePositions(rs, d, 0, 0));
            SizeI(x) > 0 && (!cur[q].IOpenCall? ==> x == cur[q]) && LinkState(rs, d, cur[q := x], q + SizeI(x))
  {
    hide TailPosition, RulesCode, RulePositions, PegCodegen.CorrectCalls, Tidy, Resolve;
    var pos := RulePositions(rs, d, 0, 0);
    ResolvedTidy(cur, q, pos, |rs|);
    ResolvedOpen(cur, q, pos);
    ResolveOne(cur, q, pos);
  }

  lemma ResolvedTidy(cur: Code, q: int, pos: seq<int>, n: nat)
    requires Tidy(cur, n) && 0 <= q < |cur|
    ensures var x := Resolve(cur, q, pos);
            && Tidy(cur[q := x], n)
            && q + SizeI(x) <= |cur| && forall u | q < u < q + SizeI(x) :: cur[u].IPad?
  {
    hide TailPosition, WellSized;
    ResolvedSized(cur, q, pos);
  }

  lemma ResolvedOpen(cur: Code, q: int, pos: seq<int>)
    requires 0 <= q < |cur|
    ensures var x := Resolve(cur, q, pos); SizeI(x) > 0 && (!cur[q].IOpenCall? ==> x == cur[q])
  {
    hide TailPosition;
  }

  lemma ResolveOne(cur: Code, q: nat, pos: seq<int>)
    requires q < |cur|
    ensures var x := Resolve(cur, q, pos);
            PegCodegen.CorrectCalls(cur, pos, q) == PegCodegen.CorrectCalls(cur[q := x], pos, q + SizeI(x))
  {
    hide Resolve, SizeI;
  }

  /** The last slot of the rules is a return. */
  lemma {:induction false} RulesEndInReturn(rs: seq<Tree>, d: nat, r: nat)
    requires r < |rs|
    ensures var body := RulesCode(rs, d, r); |body| > 0 && body[|body| - 1] == IRet
    decreases |rs| - r
  {
    if r + 1 < |rs| {
      var c, rest := RuleCode(rs, d, r), RulesCode(rs, d, r + 1);
      RulesEndInReturn(rs, d, r + 1);
      assert (c + rest)[|c + rest| - 1] == rest[|rest| - 1];
    }
  }

  lemma LinkWritten(pre: Code, cur: Code, q: int, pos: seq<int>, rule: int)
    requires 0 <= q < |cur| && cur[q].IOpenCall? && cur[q].rule < |pos| && rule == |pre| + pos[cur[q].rule]
    requires TailPosition(pre + cur, |pre| + q) == TailPosition(cur, q)
    ensures (pre + cur)[|pre| + q := if TailPosition(pre + cur, |pre| + q) then IJmp(rule - (|pre| + q))
                                     else ICall(rule - (|pre| + q))]
         == pre + cur[q := Resolve(cur, q, pos)]
  {
    hide TailPosition;
  }

  /** What the loop of LinkCalls needs to follow the jumps behind an open call. */
  lemma LinkTarget(rs: seq<Tree>, d: nat, pre: Code, cur: Code, q: int)
    requires Linkable(0, TGrammar(rs)) && Bounded(TGrammar(rs))
    requires LinkState(rs, d, cur, q) && q < |cur| && cur[q].IOpenCall?
    ensures q + 2 < |cur| && cur[q].rule < |rs|
    ensures ClosedFrom(pre + cur, |pre|) && ChainEnds(pre + cur, |pre| + q + 2)
    ensures TailPosition(pre + cur, |pre| + q) == TailPosition(cur, q)
  {
    hide RulesCode, RulePositions, PegCodegen.CorrectCalls, LinkState, Bounded, LabelsIn, Corrected, TailPosition;
    var fixed := PegCodegen.CorrectCalls(RulesCode(rs, d, 0), RulePositions(rs, d, 0, 0), 0);
    OpenCallFits(rs, d, cur, q);
    LinkedLabelsIn(rs, d);
    HalfClosed(pre, cur, fixed);
    LinkedChainsEnd(rs, d);
    assert ChainEnds(fixed, q + 2);
    TailMoves(pre, cur, fixed, q);
  }

  lemma OpenCallFits(rs: seq<Tree>, d: nat, cur: Code, q: int)
    requires |rs| > 0 && LinkState(rs, d, cur, q) && q < |cur| && cur[q].IOpenCall?
    ensures 0 <= q && q + 2 < |cur| && cur[q].rule < |rs| && |cur| == |RulesCode(rs, d, 0)|
    ensures SamePlain(cur, PegCodegen.CorrectCalls(RulesCode(rs, d, 0), RulePositions(rs, d, 0, 0), 0))
  {
    hide RulesCode, RulePositions, PegCodegen.CorrectCalls;
    RulesEndInReturn(rs, d, 0);
    assert cur[|cur| - 1] == IRet;
    CorrectCallsCorrect(cur, RulePositions(rs, d, 0, 0), q);
  }

  lemma TailMoves(pre: Code, cur: Code, fixed: Code, q: int)
    requires SamePlain(cur, fixed) && ClosedFrom(pre + cur, |pre|) && -2 <= q && q + 2 < |cur|
    requires ChainEnds(fixed, q + 2)
    ensures ChainEnds(pre + cur, |pre| + q + 2)
    ensures TailPosition(pre + cur, |pre| + q) == TailPosition(cur, q)
  {
    hide SamePlain, ClosedFrom;
    var c := q + 2;
    var h: nat, f: int :| Chain(fixed, c, h, f);
    ChainsMove(pre, cur, fixed, c, h, f);
    var f' := FinalTarget(cur, c);
    assert |pre| + q + 2 == |pre| + c;
    assert (pre + cur)[|pre| + f'] == cur[f'];
  }

  /** `cur` is `fixed` but for open calls. */
  ghost predicate SamePlain(cur: Code, fixed: Code)
  {
    |cur| == |fixed| && forall x | 0 <= x < |cur| && !cur[x].IOpenCall? :: fixed[x] == cur[x]
  }

  lemma HalfClosed(pre: Code, cur: Code, fixed: Code)
    requires SamePlain(cur, fixed) && LabelsIn(fixed, 0, |cur| - 1)
    ensures ClosedFrom(pre + cur, |pre|)
  {
    forall x | |pre| <= x < |pre + cur| && (pre + cur)[x].IJmp?
      ensures |pre| <= x + (pre + cur)[x].off < |pre + cur|
    {
      assert fixed[x - |pre|] == cur[x - |pre|];
    }
  }

  /** Chains of half linked code are chains of linked code, cut short at an open call. */
  lemma {:induction false} ChainsMove(pre: Code, cur: Code, fixed: Code, q: int, h: nat, f: int)
    requires SamePlain(cur, fixed)
    requires ClosedFrom(pre + cur, |pre|) && 0 <= q < |cur| && Chain(fixed, q, h, f)
    ensures ChainEnds(pre + cur, |pre| + q) && FinalTarget(pre + cur, |pre| + q) == |pre| + FinalTarget(cur, q)
    ensures 0 <= FinalTarget(cur, q) < |cur|
  {
    ChainPrefix(pre, cur, fixed, q, h, f);
    var h': nat, f' :| Chain(cur, q, h', f') && Chain(pre + cur, |pre| + q, h', |pre| + f') && 0 <= f' < |cur|;
    TargetUnique(cur, q, f');
    TargetUnique(pre + cur, |pre| + q, |pre| + f');
  }

  lemma {:induction false} ChainPrefix(pre: Code, cur: Code, fixed: Code, q: int, h: nat, f: int)
    requires SamePlain(cur, fixed)
    requires ClosedFrom(pre + cur, |pre|) && 0 <= q < |cur| && Chain(fixed, q, h, f)
    ensures exists h': nat, f' ::
              Chain(cur, q, h', f') && Chain(pre + cur, |pre| + q, h', |pre| + f') && 0 <= f' < |cur|
    decreases h
  {
    var code := pre + cur;
    assert code[|pre| + q] == cur[q];
    if cur[q].IJmp? {
      var c := q + cur[q].off;
      ChainPrefix(pre, cur, fixed, c, h - 1, f);
      var h': nat, f' :| Chain(cur, c, h', f') && Chain(code, |pre| + c, h', |pre| + f') && 0 <= f' < |cur|;
      assert Chain(cur, q, h' + 1, f') && Chain(code, |pre| + q, h' + 1, |pre| + f');
    } else {
      assert Chain(cur, q, 0, q) && Chain(code, |pre| + q, 0, |pre| + q);
    }
  }

  lemma LinkInside(rs: seq<Tree>, d: nat, cur: Code, q: int)
    requires LinkState(rs, d, cur, q)
    ensures 0 <= q <= |cur|
  {
  }

  lemma LinkDone(rs: seq<Tree>, d: nat, cur: Code)
    requires LinkState(rs, d, cur, |cur|)
    ensures cur == PegCodegen.CorrectCalls(RulesCode(rs, d, 0), RulePositions(rs, d, 0, 0), 0)
  {
  }

  /** Behind a return, or first: where a rule starts in half linked code. */
  lemma RuleReady(rs: seq<Tree>, d: nat, pre: Code, cur: Code, q: int, r: nat)
    requires LinkState(rs, d, cur, q) && r < |rs|
    ensures var p := RulePositions(rs, d, 0, 0)[r]; 0 <= p < |cur| && (p == 0 || (pre + cur)[|pre| + p - 1] == IRet)
  {
    hide RulesCode, RulePositions, PegCodegen.CorrectCalls;
    RuleAfterReturn(rs, d, r);
  }

  /** The instructions in front of the rules of a grammar, patched. */
  lemma HeadPatched(pre: Code, body: Code)
    ensures var code := pre + Emit(ICall(0)) + Emit(IJmp(0));
            && Patchable(code, |pre|)
            && var head := pre + Emit(ICall(4)) + Emit(IJmp(0));
               && Patched(code, |pre|, |code|) == head
               && Patchable(head + body, |pre| + 2)
               && Patched(head + body, |pre| + 2, |head + body|) == pre + Emit(ICall(4)) + Emit(IJmp(2 + |body|)) + body
    ensures |Emit(ICall(0))| == |Emit(ICall(4))| == |Emit(IJmp(0))| == |Emit(IJmp(2 + |body|))| == 2
  {
    PatchEmit(pre, ICall(0), Emit(IJmp(0)), |pre| + 4);
    PatchEmit(pre + Emit(ICall(4)), IJmp(0), body, |pre| + 4 + |body|);
  }

  lemma NoMoreRules(rs: seq<Tree>, d: nat, at: nat)
    ensures RulesCode(rs, d, |rs|) == [] && RulePositions(rs, d, |rs|, at) == []
  {
  }

  /** Laying out one more rule. */
  lemma NextRule(rs: seq<Tree>, d: nat, r: nat, head: Code, code: Code, rel: seq<int>) returns (rel': seq<int>)
    requires r < |rs| && |head| <= |code|
    ensures var code' := code + RuleCode(rs, d, r);
            && code' + RulesCode(rs, d, r + 1) == code + RulesCode(rs, d, r)
            && rel' == rel + [|code| - |head|]
            && rel' + RulePositions(rs, d, r + 1, |code'| - |head|) == rel + RulePositions(rs, d, r, |code| - |head|)
  {
    hide Gen, RuleCode;
    var at := |code| - |head|;
    var c := RuleCode(rs, d, r);
    rel' := rel + [at];
    assert RulesCode(rs, d, r) == c + RulesCode(rs, d, r + 1);
    assert RulePositions(rs, d, r, at) == [at] + RulePositions(rs, d, r + 1, at + |c|);
    hide RulesCode, RulePositions;
    Regroup(code, code + c, c, RulesCode(rs, d, r + 1));
    assert rel + ([at] + RulePositions(rs, d, r + 1, at + |c|)) == rel' + RulePositions(rs, d, r + 1, at + |c|);
  }

  lemma GenGrammar(g: seq<Tree>, d: nat, rs: seq<Tree>, pre: Code)
    ensures var body := RulesCode(rs, d, 0);
            pre + Emit(ICall(4)) + Emit(IJmp(2 + |body|)) + PegCodegen.CorrectCalls(body, RulePositions(rs, d, 0, 0), 0)
            == pre + Gen(g, d, TGrammar(rs), false, NoGuard, FULL)
  {
    var body := RulesCode(rs, d, 0);
    var fixed := PegCodegen.CorrectCalls(body, RulePositions(rs, d, 0, 0), 0);
    assert pre + Emit(ICall(4)) + Emit(IJmp(2 + |body|)) + fixed
        == pre + (Emit(ICall(4)) + Emit(IJmp(2 + |body|)) + fixed);
  }

  lemma RuleReturns(rs: seq<Tree>, d: nat, r: nat)
    requires r < |rs|
    ensures var c := RuleCode(rs, d, r); |c| > 0 && c[|c| - 1] == IRet
  {
  }

  /** Each rule but the first starts behind a return. */
  lemma {:induction false} RuleAfterReturn(rs: seq<Tree>, d: nat, r: nat)
    requires r < |rs|
    ensures var body, p := RulesCode(rs, d, 0), RulePositions(rs, d, 0, 0)[r];
            0 <= p < |body| && (p == 0 || body[p - 1] == IRet)
  {
    hide RuleCode, RulesCode;
    RuleReturns(rs, d, r);
    RuleAt(rs, d, 0, 0, r);
    if r > 0 {
      RuleAt(rs, d, 0, 0, r - 1);
      NextPosition(rs, d, 0, 0, r);
      var body, p, c := RulesCode(rs, d, 0), RulePositions(rs, d, 0, 0)[r - 1], RuleCode(rs, d, r - 1);
      RuleReturns(rs, d, r - 1);
      assert body[p..p + |c|][|c| - 1] == c[|c| - 1];
    }
  }

  lemma {:induction false} NextPosition(rs: seq<Tree>, d: nat, from: nat, at: nat, r: nat)
    requires from < r < |rs|
    ensures var pos := RulePositions(rs, d, from, at); pos[r - from] == pos[r - 1 - from] + |RuleCode(rs, d, r - 1)|
    decreases r - from
  {
    hide RuleCode;
    var next := at + |RuleCode(rs, d, from)|;
    var rest := RulePositions(rs, d, from + 1, next);
    assert RulePositions(rs, d, from, at) == [at] + rest;
    if r - 1 > from { NextPosition(rs, d, from + 1, next, r); }
    else { assert rest[0] == next; }
  }

  // ---------- The optimising pass ----------

  /** `cur` is `first` optimised up to slot `i`. */
  ghost predicate PassState(first: Code, cur: Code, i: int)
  {
    && InCode(first) && WellSized(first) && ChainsEnd(first) && |first| > 0 && first[|first| - 1] == IEnd
    && |cur| == |first| && 0 <= i <= |cur| && Threaded(first, cur) && Peephole(cur, i) == Peephole(first, 0)
    && (forall x | 0 <= i <= x < |cur| :: cur[x] == first[x] || first[x].IPad?)
  }

  lemma PassStarts(first: Code)
    requires InCode(first) && WellSized(first) && ChainsEnd(first) && |first| > 0 && first[|first| - 1] == IEnd
    ensures PassState(first, first, 0)
  {
    SelfThreaded(first);
  }

  /** What may stand in a slot fits into the slots of what stood there before. */
  lemma ThreadedSize(code: Code, x': Instr, q: int)
    requires WellSized(code) && 0 <= q < |code| && Threads(code, x', q)
    ensures q + SizeI(x') <= |code|
  {
  }

  lemma PassStep(first: Code, cur: Code, i: nat)
    requires PassState(first, cur, i) && i < |cur|
    ensures var next := PeepholeAt(cur, i); PassState(first, next, i + SizeI(next[i]))
  {
    hide WellSized, Threads;
    PeepholeAtKeeps(first, cur, i);
    var next := PeepholeAt(cur, i);
    assert Threads(first, next[i], i);
    if cur[i].IJmp? {
      JumpOfThreaded(first, cur, i);
      JumpFits(first, i);
    }
    assert forall x | 0 <= x < |cur| && x != i && x != i + 1 :: next[x] == cur[x];
    ThreadedSize(first, next[i], i);
    assert Peephole(cur, i) == Peephole(next, i + SizeI(next[i]));
  }

  /** The last slot still ends the pattern. */
  lemma PassDone(first: Code, cur: Code)
    requires PassState(first, cur, |cur|)
    ensures cur == Peephole(first, 0) && |cur| > 0 && cur[|cur| - 1] == IEnd
  {
    assert Threads(first, cur[|cur| - 1], |cur| - 1);
  }

  lemma {:induction false} ThreadedChainsEnd(code: Code, code': Code, q: int)
    requires Threaded(code, code') && ChainsEnd(code)
    ensures ChainEnds(code', q)
  {
    assert ChainEnds(code, q);
    var h: nat, f: int :| Chain(code, q, h, f);
    ChainStillEnds(code, code', q, h, f);
  }

  lemma InCodeClosed(code: Code)
    requires InCode(code)
    ensures ClosedFrom(code, 0)
    ensures forall x | 0 <= x < |code| && Labelled(code[x]) :: 0 <= x + code[x].off < |code|
  {
  }

  /** What one round of the pass needs to follow jumps. */
  lemma PassFacts(first: Code, cur: Code, i: nat)
    requires PassState(first, cur, i) && i < |cur|
    ensures ClosedFrom(cur, 0) && (cur[i].IJmp? ==> i + 1 < |cur|) && forall q: int :: ChainEnds(cur, q)
    ensures forall x | 0 <= x < |cur| && Labelled(cur[x]) :: 0 <= x + cur[x].off < |cur|
  {
    hide Threads, WellSized;
    ThreadedInCode(first, cur);
    InCodeClosed(cur);
    forall q: int ensures ChainEnds(cur, q) { ThreadedChainsEnd(first, cur, q); }
    if cur[i].IJmp? { JumpOfThreaded(first, cur, i); JumpFits(first, i); }
  }

  lemma JumpFits(code: Code, q: nat)
    requires WellSized(code) && q < |code| && code[q].IJmp?
    ensures q + 1 < |code| && code[q + 1].IPad?
  {
  }

  /** What the jump at slot `q` becomes before labels are looked at again. */
  ghost function JumpBecomes(code: Code, q: int): (r: Code)
    requires 0 <= q < |code|
    ensures |r| == |code|
  {
    var ft := FinalTarget(code, q);
    if 0 <= ft < |code| && Terminal(code[ft]) then
      var code1 := code[q := code[ft]];
      if q + 1 < |code| then code1[q + 1 := IAny] else code1
    else if 0 <= ft < |code| && CommitLike(code[ft]) then
      code[q := Relabel(code[ft], FinalTarget(code, ft + code[ft].off) - q)]
    else code[q := IJmp(ft - q)]
  }

  lemma JumpBecomesThis(code: Code, q: int, ft: int)
    requires 0 <= q && q + 1 < |code| && ft == FinalTarget(code, q) && 0 <= ft < |code|
    ensures Terminal(code[ft]) ==> JumpBecomes(code, q) == code[q := code[ft]][q + 1 := IAny]
    ensures CommitLike(code[ft]) ==>
              JumpBecomes(code, q) == code[q := Relabel(code[ft], FinalTarget(code, ft + code[ft].off) - q)]
    ensures !Terminal(code[ft]) && !CommitLike(code[ft]) ==> JumpBecomes(code, q) == code[q := IJmp(ft - q)]
  {
  }

  /** One round of the pass: jumps first, then labels. */
  lemma PeepholeInSteps(code: Code, q: int)
    requires 0 <= q < |code|
    ensures var code1 := if code[q].IJmp? then JumpBecomes(code, q) else code;
            PeepholeAt(code, q) == if HasLabel(code1[q]) then ThreadLabel(code1, q) else code1
  {
  }

  /** Once a jump has become what it leads to, its label can still be followed. */
  lemma JumpBecomesReady(first: Code, cur: Code, i: nat)
    requires PassState(first, cur, i) && i < |cur| && cur[i].IJmp?
    ensures var next := JumpBecomes(cur, i);
            HasLabel(next[i]) ==>
              ClosedFrom(next, 0) && 0 <= i + next[i].off < |next| && ChainEnds(next, i + next[i].off)
  {
    hide Threads, WellSized;
    var next := JumpBecomes(cur, i);
    if HasLabel(next[i]) {
      JumpOfThreaded(first, cur, i);
      CommitCopyKeeps(first, cur, i);
      ThreadedInCode(first, next);
      InCodeClosed(next);
      ThreadedChainsEnd(first, next, i + next[i].off);
    }
  }

  class CompileState {
    var code: Code

    constructor ()
      ensures code == []
    {
      code := [];
    }

    /** Add an instruction, with the slots for its offset or charset. */
    method AddInstruction(x: Instr) returns (i: nat)
      requires !x.IPad?
      modifies this
      ensures i == |old(code)| && code == old(code) + Emit(x)
    {
      i := |code|;
      code := code + Emit(x);
    }

    /** Set the label of an instruction, if there is one. */
    method JumpToThere(instruction: int, target: int)
      requires Patchable(code, instruction)
      modifies this
      ensures code == Patched(old(code), instruction, target)
    {
      if instruction >= 0 { code := code[instruction := Relabel(code[instruction], target - instruction)]; }
    }

    method JumpToHere(instruction: int)
      requires Patchable(code, instruction)
      modifies this
      ensures code == Patched(old(code), instruction, |old(code)|)
    {
      JumpToThere(instruction, |code|);
    }

    /** IChar, or IAny below an equivalent test. */
    method CodeChar(c: Char, tt: int)
      requires tt < |code|
      modifies this
      ensures code == old(code) + CharCode(c, GuardAt(old(code), tt))
    {
      if tt >= 0 && code[tt].ITestChar? && code[tt].c == c { var _ := AddInstruction(IAny); }
      else { var _ := AddInstruction(IChar(c)); }
    }

    method CodeCharset(cs: Charset, tt: int)
      requires tt < |code|
      modifies this
      ensures code == old(code) + SetCode(cs, GuardAt(old(code), tt))
    {
      match CharsetType(cs) {
        case SingleChar(c) => CodeChar(c, tt);
        case OtherSet =>
          if tt >= 0 && code[tt].ITestSet? && code[tt].cs == cs { var _ := AddInstruction(IAny); }
          else { var _ := AddInstruction(ISet(cs)); }
        case EmptySet => var _ := AddInstruction(IFail);
        case AllChars => var _ := AddInstruction(IAny);
      }
    }

    /** A test whose label is still to be set; none when the empty subject must pass. */
    method CodeTestSet(cs: Charset, e: bool) returns (test: int)
      modifies this
      ensures test == TestSlot(old(code), e) && code == old(code) + TestCode(cs, e, 0)
    {
      if e { return NOINST; }
      match CharsetType(cs) {
        case EmptySet => test := AddInstruction(IJmp(0));
        case AllChars => test := AddInstruction(ITestAny(0));
        case SingleChar(c) => test := AddInstruction(ITestChar(c, 0));
        case OtherSet => test := AddInstruction(ITestSet(cs, 0));
      }
    }

    method CodeChoice(g: seq<Tree>, d: nat, p1: Tree, p2: Tree, opt: bool, fl: Charset)
      requires Codable(g, TChoice(p1, p2))
      modifies this
      ensures code == old(code) + Gen(g, d, TChoice(p1, p2), opt, NoGuard, fl)
      decreases TChoice(p1, p2), 1
    {
      hide Codable;
      CodableParts(g, TChoice(p1, p2));
      var (cs1, e1) := First(g, d, p1, FULL);
      if HeadFail(g, d, p1) || (!e1 && cs1 !! First(g, d, p2, fl).0) {
        GenChoiceByTest(g, d, p1, p2, opt, fl, cs1, e1);
        CodeChoiceByTest(g, d, p1, p2, opt, fl, cs1);
      } else if opt && p2.TTrue? {
        CodeOption(g, d, p1);
      } else {
        GenChoiceByStack(g, d, p1, p2, opt, fl, cs1, e1);
        CodeChoiceByStack(g, d, p1, p2, opt, fl, cs1, e1);
      }
    }

    /** partialcommit L1; L1: p1 */
    method CodeOption(g: seq<Tree>, d: nat, p1: Tree)
      requires Codable(g, p1)
      modifies this
      ensures code == old(code) + (Emit(IPartialCommit(2)) + Gen(g, d, p1, true, NoGuard, FULL))
      decreases p1, 3
    {
      hide Gen, Patched, Patchable, GuardAt;
      ghost var pre := code;
      var commit := AddInstruction(IPartialCommit(0));
      PatchEmit(pre, IPartialCommit(0), [], |code|);
      assert code == pre + Emit(IPartialCommit(0)) + [];
      JumpToHere(commit);
      NoTest(code);
      CodeGen(g, d, p1, true, NOINST, FULL);
    }

    /** test L1; p1; jmp L2; L1: p2; L2: */
    method CodeChoiceByTest(g: seq<Tree>, d: nat, p1: Tree, p2: Tree, opt: bool, fl: Charset, cs1: Charset)
      requires Codable(g, TChoice(p1, p2))
      modifies this
      ensures code == old(code) + ChoiceByTest(cs1, Gen(g, d, p1, false, GuardOf(cs1), fl),
                                               Gen(g, d, p2, opt, NoGuard, fl), p2.TTrue?)
      decreases TChoice(p1, p2), 0
    {
      hide *;
      CodableParts(g, TChoice(p1, p2));
      ghost var pre := code;
      ghost var c1, c2 := Gen(g, d, p1, false, GuardOf(cs1), fl), Gen(g, d, p2, opt, NoGuard, fl);
      var test := CodeTestSet(cs1, false);
      TestGuards(pre, cs1);
      CodeGen(g, d, p1, false, test, fl);
      var jmp := NOINST;
      if !p2.TTrue? { jmp := AddInstruction(IJmp(0)); }
      ghost var j := if p2.TTrue? then [] else Emit(IJmp(0));
      assert code == pre + TestCode(cs1, false, 0) + c1 + j;
      TestPatched(pre, cs1, c1, j);
      JumpToHere(test);
      NoTest(code);
      CodeGen(g, d, p2, opt, NOINST, fl);
      JumpPatched(pre, cs1, c1, c2, p2.TTrue?);
      JumpToHere(jmp);
    }

    /** test L1; choice L1; p1; commit L2; L1: p2; L2: */
    method CodeChoiceByStack(g: seq<Tree>, d: nat, p1: Tree, p2: Tree, opt: bool, fl: Charset, cs1: Charset, e1: bool)
      requires Codable(g, TChoice(p1, p2))
      modifies this
      ensures code == old(code)
                      + ChoiceByStack(cs1, e1, Gen(g, d, p1, p2.TTrue?, if e1 then NoGuard else GuardOf(cs1), FULL),
                                      Gen(g, d, p2, opt, NoGuard, fl))
      decreases TChoice(p1, p2), 0
    {
      hide *;
      CodableParts(g, TChoice(p1, p2));
      ghost var pre := code;
      ghost var c1 := Gen(g, d, p1, p2.TTrue?, if e1 then NoGuard else GuardOf(cs1), FULL);
      ghost var c2 := Gen(g, d, p2, opt, NoGuard, fl);
      var test := CodeTestSet(cs1, e1);
      var pchoice := AddInstruction(IChoice(0));
      TestStill(pre, cs1, e1, Emit(IChoice(0)));
      CodeGen(g, d, p1, p2.TTrue?, test, FULL);
      var pcommit := AddInstruction(ICommit(0));
      ChoicePatched(pre, cs1, e1, c1);
      JumpToHere(pchoice);
      JumpToHere(test);
      NoTest(code);
      CodeGen(g, d, p2, opt, NOINST, fl);
      CommitPatched(pre, cs1, e1, c1, c2);
      JumpToHere(pcommit);
    }

    method CodeRep(g: seq<Tree>, d: nat, p: Tree, opt: bool, fl: Charset)
      requires Codable(g, TRep(p))
      modifies this
      ensures code == old(code) + Gen(g, d, TRep(p), opt, NoGuard, fl)
      decreases TRep(p), 1
    {
      hide Codable;
      CodableParts(g, TRep(p));
      if ToCharset(p).0 { var _ := AddInstruction(ISpan(ToCharset(p).1)); }
      else {
        GenRepTest(g, d, TRep(p), opt, NoGuard, fl);
        var (cs, e) := First(g, d, p, FULL);
        if HeadFail(g, d, p) || (!e && cs !! fl) { CodeRepByTest(g, d, p, cs); }
        else { CodeRepByStack(g, d, p, opt, cs, e); }
      }
    }

    /** L1: test L2; p; jmp L1; L2: */
    method CodeRepByTest(g: seq<Tree>, d: nat, p: Tree, cs: Charset)
      requires Codable(g, TRep(p))
      modifies this
      ensures code == old(code) + RepByTest(cs, Gen(g, d, p, false, GuardOf(cs), FULL))
      decreases TRep(p), 0
    {
      hide Codable;
      CodableParts(g, TRep(p));
      hide Gen, TestLen, TestCode, GuardAt, Patched, Patchable, RepByTest;
      ghost var pre := code;
      var test := CodeTestSet(cs, false);
      TestGuards(pre, cs);
      CodeGen(g, d, p, false, test, FULL);
      var jmp := AddInstruction(IJmp(0));
      LoopPatched(pre, cs, Gen(g, d, p, false, GuardOf(cs), FULL));
      JumpToHere(test);
      JumpToThere(jmp, test);
    }

    /** The choice of a repetition, or a partial commit that uses the choice already there. */
    method CodeRepHead(opt: bool) returns (pchoice: int)
      modifies this
      ensures pchoice == if opt then NOINST else |old(code)|
      ensures code == old(code) + Emit(RepHead(opt))
    {
      pchoice := NOINST;
      if opt {
        ghost var pre := code;
        var first := AddInstruction(IPartialCommit(0));
        PatchEmit(pre, IPartialCommit(0), [], |code|);
        assert code == pre + Emit(IPartialCommit(0)) + [];
        JumpToHere(first);
      } else { pchoice := AddInstruction(IChoice(0)); }
    }

    /** Set the labels of a repetition. */
    method PatchRep(ghost pre: Code, ghost cs: Charset, ghost e: bool, ghost opt: bool, ghost c: Code,
                    commit: int, l2: int, pchoice: int, test: int)
      requires code == pre + TestCode(cs, e, 0) + Emit(RepHead(opt)) + c + Emit(IPartialCommit(0))
      requires commit == |pre + TestCode(cs, e, 0) + Emit(RepHead(opt)) + c| && l2 == |pre + TestCode(cs, e, 0)| + 2
      requires pchoice == (if opt then NOINST else |pre + TestCode(cs, e, 0)|) && test == TestSlot(pre, e)
      modifies this
      ensures code == pre + RepByStack(cs, e, opt, c)
    {
      hide *;
      RepPatched(pre, cs, e, opt, c);
      JumpToThere(commit, l2);
      JumpToHere(pchoice);
      JumpToHere(test);
    }

    /** test L2; choice L2 (or partialcommit L1); L1: p; partialcommit L1; L2: */
    method CodeRepByStack(g: seq<Tree>, d: nat, p: Tree, opt: bool, cs: Charset, e: bool)
      requires Codable(g, TRep(p))
      modifies this
      ensures code == old(code) + RepByStack(cs, e, opt, Gen(g, d, p, false, NoGuard, FULL))
      decreases TRep(p), 0
    {
      hide Codable;
      CodableParts(g, TRep(p));
      hide Gen, TestLen, TestCode, GuardAt, Patched, Patchable, RepByStack;
      ghost var pre := code;
      var test := CodeTestSet(cs, e);
      var pchoice := CodeRepHead(opt);
      var l2 := |code|;
      NoTest(code);
      CodeGen(g, d, p, false, NOINST, FULL);
      var commit := AddInstruction(IPartialCommit(0));
      PatchRep(pre, cs, e, opt, Gen(g, d, p, false, NoGuard, FULL), commit, l2, pchoice, test);
    }

    method CodeNot(g: seq<Tree>, d: nat, p: Tree)
      requires Codable(g, TNot(p))
      modifies this
      ensures code == old(code) + Gen(g, d, TNot(p), false, NoGuard, FULL)
      decreases TNot(p), 1
    {
      hide Codable;
      CodableParts(g, TNot(p));
      GenNot(g, d, TNot(p), false, NoGuard, FULL);
      hide Gen, TestLen, TestCode, GuardAt, Patched, Patchable, NotByStack, First;
      ghost var pre := code;
      var (cs, e) := First(g, d, p, FULL);
      var test := CodeTestSet(cs, e);
      if HeadFail(g, d, p) {
        var _ := AddInstruction(IFail);
        NotTestPatched(pre, cs, e);
      } else {
        var pchoice := AddInstruction(IChoice(0));
        NoTest(code);
        CodeGen(g, d, p, false, NOINST, FULL);
        var _ := AddInstruction(IFailTwice);
        NotPatched(pre, cs, e, Gen(g, d, p, false, NoGuard, FULL));
        JumpToHere(pchoice);
      }
      JumpToHere(test);
    }

    method CodeAnd(g: seq<Tree>, d: nat, p: Tree, tt: int)
      requires Codable(g, TAnd(p)) && tt < |code|
      modifies this
      ensures code == old(code) + Gen(g, d, TAnd(p), false, GuardAt(old(code), tt), FULL)
      decreases TAnd(p), 1
    {
      hide Codable;
      CodableParts(g, TAnd(p));
      ghost var guard := GuardAt(code, tt);
      GenAnd(g, d, TAnd(p), false, guard, FULL);
      hide Gen, GuardAt, Patched, Patchable, AndByStack;
      ghost var pre := code;
      ghost var c := Gen(g, d, p, false, guard, FULL);
      var n := FixedLen(g, d, p);
      if 0 <= n <= MAXBEHIND {
        CodeGen(g, d, p, false, tt, FULL);
        if n > 0 { var _ := AddInstruction(IBehind(n)); }
        assert code == pre + (c + BehindCode(n));
      } else {
        var pchoice := AddInstruction(IChoice(0));
        GuardGrows(pre, Emit(IChoice(0)), tt);
        CodeGen(g, d, p, false, tt, FULL);
        var pcommit := AddInstruction(IBackCommit(0));
        AndPatched(pre, c);
        JumpToHere(pchoice);
        var _ := AddInstruction(IFail);
        JumpToHere(pcommit);
      }
    }

    method CodeBehind(g: seq<Tree>, d: nat, p: Tree, n: nat)
      requires Codable(g, TBehind(p, n))
      modifies this
      ensures code == old(code) + Gen(g, d, TBehind(p, n), false, NoGuard, FULL)
      decreases TBehind(p, n), 1
    {
      hide Codable;
      CodableParts(g, TBehind(p, n));
      ghost var pre := code;
      ghost var c := Gen(g, d, p, false, NoGuard, FULL);
      GenBehind(g, d, p, n);
      hide Gen, GuardAt;
      if n > 0 { var _ := AddInstruction(IBehind(n)); }
      ghost var mid := code;
      assert mid == pre + BehindCode(n);
      NoTest(code);
      CodeGen(g, d, p, false, NOINST, FULL);
      Regroup(pre, mid, BehindCode(n), c);
    }

    /** Code of the first part of a sequence; the test that still protects the second part, if any. */
    method CodeSeq1(g: seq<Tree>, d: nat, p1: Tree, p2: Tree, tt: int, fl: Charset) returns (tt2: int)
      requires Codable(g, p1) && tt < |code|
      modifies this
      ensures code == old(code) + Gen(g, d, p1, false, GuardAt(old(code), tt), FirstFollow(g, d, p1, p2, fl))
      ensures tt2 < |code| && GuardAt(code, tt2) == SecondGuard(g, d, p1, GuardAt(old(code), tt))
      decreases p1, 3
    {
      hide Gen, GuardAt, First, NeedFollow;
      ghost var pre := code;
      CodeGen(g, d, p1, false, tt, if NeedFollow(p1) then First(g, d, p2, fl).0 else FULL);
      NoTest(code);
      GuardGrows(pre, Gen(g, d, p1, false, GuardAt(pre, tt), FirstFollow(g, d, p1, p2, fl)), tt);
      tt2 := if FixedLen(g, d, p1) != 0 then NOINST else tt;
    }

    method CodeSeq(g: seq<Tree>, d: nat, p1: Tree, p2: Tree, opt: bool, tt: int, fl: Charset)
      requires Codable(g, TSeq(p1, p2)) && tt < |code|
      modifies this
      ensures code == old(code) + Gen(g, d, TSeq(p1, p2), opt, GuardAt(old(code), tt), fl)
      decreases TSeq(p1, p2), 1
    {
      hide Codable;
      CodableParts(g, TSeq(p1, p2));
      ghost var pre, guard := code, GuardAt(code, tt);
      GenSeq(g, d, p1, p2, opt, guard, fl);
      hide Gen, GuardAt, FirstFollow, SecondGuard, Linkable, Bounded;
      var tt2 := CodeSeq1(g, d, p1, p2, tt, fl);
      ghost var mid := code;
      CodeGen(g, d, p2, opt, tt2, fl);
      Regroup(pre, mid, Gen(g, d, p1, false, guard, FirstFollow(g, d, p1, p2, fl)),
              Gen(g, d, p2, opt, SecondGuard(g, d, p1, guard), fl));
    }

    /** call L1; jmp L2; L1: rule 1; ret; rule 2; ret; ...; L2: */
    method CodeGrammar(g: seq<Tree>, d: nat, rs: seq<Tree>)
      requires Codable(g, TGrammar(rs))
      modifies this
      ensures code == old(code) + Gen(g, d, TGrammar(rs), false, NoGuard, FULL)
      decreases TGrammar(rs), 1
    {
      hide *;
      CodableLevel(g, rs);
      ghost var pre := code;
      ghost var body := RulesCode(rs, d, 0);
      var firstcall := AddInstruction(ICall(0));
      var jumptoend := AddInstruction(IJmp(0));
      var start := |code|;
      HeadPatched(pre, body);
      JumpToHere(firstcall);
      ghost var head := code;
      var positions := CodeRules(rs, d);
      JumpToHere(jumptoend);
      assert code[..start] == pre + Emit(ICall(4)) + Emit(IJmp(2 + |body|)) && code[start..] == body;
      LinkCalls(rs, d, positions, start);
      GenGrammar(g, d, rs, pre);
    }

    /** The rules one after another, each followed by a return; their positions. */
    method CodeRules(rs: seq<Tree>, d: nat) returns (positions: seq<int>)
      requires Codable([], TGrammar(rs))
      modifies this
      ensures code == old(code) + RulesCode(rs, d, 0)
      ensures |positions| == |rs| && forall k | 0 <= k < |rs| ::
              positions[k] == |old(code)| + RulePositions(rs, d, 0, 0)[k]
      decreases rs, 4
    {
      hide *;
      CodableParts([], TGrammar(rs));
      ghost var head := code;
      ghost var rel: seq<int> := [];
      positions := [];
      var r: nat := 0;
      while r < |rs|
        invariant r <= |rs| && |head| <= |code|
        invariant code + RulesCode(rs, d, r) == head + RulesCode(rs, d, 0)
        invariant |positions| == r == |rel| && forall k | 0 <= k < r :: positions[k] == |head| + rel[k]
        invariant rel + RulePositions(rs, d, r, |code| - |head|) == RulePositions(rs, d, 0, 0)
      {
        positions := positions + [|code|];
        rel := NextRule(rs, d, r, head, code, rel);
        CodeRule(rs, d, r);
        r := r + 1;
      }
      NoMoreRules(rs, d, |code| - |head|);
      assert code + [] == code && rel + [] == rel;
    }

    method CodeRule(rs: seq<Tree>, d: nat, r: nat)
      requires r < |rs| && Codable(rs, rs[r])
      modifies this
      ensures code == old(code) + RuleCode(rs, d, r)
      decreases rs[r], 3
    {
      hide Gen, GuardAt;
      ghost var before := code;
      NoTest(code);
      CodeGen(rs, d, rs[r], false, NOINST, FULL);
      ghost var mid := code;
      var _ := AddInstruction(IRet);
      Regroup(before, mid, Gen(rs, d, rs[r], false, NoGuard, FULL), [IRet]);
    }

    /** Change the open call at slot `i` to a call of `rule`, or to a jump when a return follows. */
    method LinkCall(i: nat, rule: int, ghost lo: int)
      requires i + 2 < |code| && code[i].IOpenCall? && ClosedFrom(code, lo) && lo <= i + 2 && ChainEnds(code, i + 2)
      modifies this
      ensures code == old(code)[i := if TailPosition(old(code), i) then IJmp(rule - i) else ICall(rule - i)]
    {
      var f := FindTarget(code, lo, i + 2);
      code := code[i := if code[f].IRet? then IJmp(0) else ICall(0)];
      JumpToThere(i, rule);
    }

    /** Change the open calls of the rules from slot `from` on to calls, or to jumps when a return follows. */
    method LinkCalls(rs: seq<Tree>, d: nat, positions: seq<int>, from: nat)
      requires Linkable(0, TGrammar(rs)) && Bounded(TGrammar(rs))
      requires from <= |code| && code[from..] == RulesCode(rs, d, 0)
      requires |positions| == |rs| && forall k | 0 <= k < |rs| :: positions[k] == from + RulePositions(rs, d, 0, 0)[k]
      modifies this
      ensures code == old(code)[..from] + PegCodegen.CorrectCalls(RulesCode(rs, d, 0), RulePositions(rs, d, 0, 0), 0)
    {
      hide *;
      ghost var pre, cur := code[..from], RulesCode(rs, d, 0);
      LinkStarts(rs, d);
      var i := from;
      while i < |code|
        invariant from <= i <= |code| && code == pre + cur && LinkState(rs, d, cur, i - from)
        decreases |code| - i
      {
        ghost var x := Resolve(cur, i - from, RulePositions(rs, d, 0, 0));
        LinkStep(rs, d, cur, i - from);
        if code[i].IOpenCall? {
          LinkTarget(rs, d, pre, cur, i - from);
          var rule := positions[code[i].rule];
          RuleReady(rs, d, pre, cur, i - from, code[i].rule);
          assert rule == from || code[rule - 1].IRet?;
          LinkCall(i, rule, from);
          LinkWritten(pre, cur, i - from, RulePositions(rs, d, 0, 0), rule);
        }
        cur := cur[i - from := x];
        LinkInside(rs, d, cur, i - from + SizeI(x));
        i := i + SizeI(code[i]);
      }
      assert i == |code|;
      LinkDone(rs, d, cur);
    }

    method CodeGen(g: seq<Tree>, d: nat, t: Tree, opt: bool, tt: int, fl: Charset)
      requires Codable(g, t) && tt < |code|
      modifies this
      ensures code == old(code) + Gen(g, d, t, opt, GuardAt(old(code), tt), fl)
      decreases t, 2
    {
      ghost var guard := GuardAt(code, tt);
      GenLeaf(g, d, t, opt, guard, fl);
      GenBare(g, d, t, opt, guard, fl);
      hide Gen, GuardAt, Codable, CharCode, SetCode, First, FixedLen;
      match t {
        case TChar(c) => CodeChar(c, tt);
        case TAny => var _ := AddInstruction(IAny);
        case TSet(cs) => CodeCharset(cs, tt);
        case TTrue =>
        case TFalse => var _ := AddInstruction(IFail);
        case TChoice(p1, p2) => CodeChoice(g, d, p1, p2, opt, fl);
        case TRep(p) => CodeRep(g, d, p, opt, fl);
        case TBehind(p, n) => CodeBehind(g, d, p, n);
        case TNot(p) => CodeNot(g, d, p);
        case TAnd(p) => CodeAnd(g, d, p, tt);
        case TGrammar(rs) => CodeGrammar(g, d, rs);
        case TCall(r) => var _ := AddInstruction(IOpenCall(r));
        case TSeq(p1, p2) => CodeSeq(g, d, p1, p2, opt, tt, fl);
      }
    }

    /**
     * Optimize jumps and other jump-like instructions, in place: labels move to their final destinations, and jumps
     * to an instruction that itself jumps or stops become that instruction.
     */
    method Optimize()
      requires InCode(code) && WellSized(code) && ChainsEnd(code) && |code| > 0 && code[|code| - 1] == IEnd
      modifies this
      ensures code == Peephole(old(code), 0)
    {
      hide Peephole, PeepholeAt, Threaded, Threads, InCode, WellSized, ChainsEnd;
      ghost var first := code;
      PassStarts(first);
      var i := 0;
      while i < |code|
        invariant 0 <= i <= |code| && PassState(first, code, i)
        decreases |code| - i
      {
        PassStep(first, code, i);
        OptimizeAt(i, first);
        i := i + SizeI(code[i]);
      }
      PassDone(first, code);
      assert i == |code| && code[i - 1].IEnd?;
    }

    method OptimizeAt(i: nat, ghost first: Code)
      requires i < |code| && PassState(first, code, i)
      modifies this
      ensures code == PeepholeAt(old(code), i)
    {
      hide PassState, Threaded, Threads, InCode, WellSized, FinalTarget, Terminal, JumpBecomes;
      ghost var before := code;
      PassFacts(first, code, i);
      PeepholeInSteps(code, i);
      if code[i].IJmp? {
        JumpBecomesReady(first, code, i);
        OptimizeJump(i, first);
      }
      if HasLabel(code[i]) {
        var final := FindTarget(code, 0, i + code[i].off);
        JumpToThere(i, final);
      }
    }

    /** A jump becomes the instruction it leads to, or leads there at once. */
    method OptimizeJump(i: nat, ghost first: Code)
      requires i < |code| && PassState(first, code, i) && code[i].IJmp?
      modifies this
      ensures code == JumpBecomes(old(code), i)
    {
      hide *;
      PassFacts(first, code, i);
      var ft := FindTarget(code, 0, i);
      JumpBecomesThis(code, i, ft);
      CommitLabelled(code[ft]);
      if Terminal(code[ft]) {
        code := code[i := code[ft]];
        code := code[i + 1 := IAny];
      } else if CommitLike(code[ft]) {
        var fft := FindTarget(code, 0, ft + code[ft].off);
        code := code[i := code[ft]];
        PatchedAt(code, i, fft);
        JumpToThere(i, fft);
      } else {
        JumpRelabelled(code[i], ft - i);
        PatchedAt(code, i, ft);
        JumpToThere(i, ft);
      }
    }
  }

  /** The test protects what comes after more instructions. */
  lemma TestStill(pre: Code, cs: Charset, e: bool, more: Code)
    ensures var code := pre + TestCode(cs, e, 0) + more; var test := TestSlot(pre, e);
            test < |code| && GuardAt(code, test) == if e then NoGuard else GuardOf(cs)
  {
    if !e {
      TestGuards(pre, cs);
      GuardGrows(pre + TestCode(cs, false, 0), more, |pre|);
    }
  }

  // ---------- The whole compiler and matcher ----------

  lemma PatternIsCodable(w: nat, d: nat, t: Tree)
    requires Linkable(0, t) && GrammarsBounded(w, t)
    ensures Codable([], t) && PatternCode(d, t) == Gen([], d, t, false, NoGuard, FULL) + Emit(IEnd)
    ensures Emit(IEnd) == [IEnd]
    ensures InCode(PatternCode(d, t)) && WellSized(PatternCode(d, t)) && ChainsEnd(PatternCode(d, t))
  {
    hide Gen, Linkable, GrammarsBounded, InCode, WellSized, ChainsEnd;
    PatternChainsEnd(w, d, t);
    PatternInCode(d, t);
  }

  lemma SomeBound(t: Tree) returns (w: nat)
    requires Bounded(t)
    ensures GrammarsBounded(w, t)
  {
    w :| GrammarsBounded(w, t);
  }

  /** Compile a pattern. */
  method Compile(d: nat, t: Tree) returns (code: Code)
    requires Linkable(0, t) && Bounded(t)
    ensures code == Peephole(PatternCode(d, t), 0)
  {
    hide *;
    ghost var w := SomeBound(t);
    PatternIsCodable(w, d, t);
    var state := new CompileState();
    NoTest([]);
    state.CodeGen([], d, t, false, NOINST, FULL);
    var _ := state.AddInstruction(IEnd);
    assert state.code == PatternCode(d, t);
    state.Optimize();
    code := state.code;
  }

  /** Compiling a pattern and running its code finds what the pattern means. */
  method MatchPattern(d: nat, t: Tree, s: Subject, i: nat, ghost w: nat) returns (r: Result)
    requires WellFormed([], w, t) && GrammarsBounded(w, t) && i <= |s|
    ensures Means([], t, s, i, r)
  {
    WellFormedLinkable([], w, t);
    ghost var meant := CompilerCorrect(w, d, t, s, i);
    var code := Compile(d, t);
    r := PegMatch.Match(code, s, i);
  }

  /** A grammar that passes the checks can be compiled and run on every subject, with the meaning of the grammar. */
  method MatchGrammar(d: nat, rs: seq<Tree>, s: Subject, i: nat) returns (r: Result)
    requires VerifyGrammar(rs, d) && Constructed(rs, d) && i <= |s|
    ensures Means([], TGrammar(rs), s, i, r)
  {
    VerifiedSafe(rs, d);
    r := MatchPattern(d, TGrammar(rs), s, i, d);
  }
}
