/** Running the code of a tree does what the tree means: the heart of compiler correctness. */
module PegCompileSound {
  import opened PegTree
  import opened PegAnalysis
  import opened PegMachine
  import opened PegCodegen
  import opened PegLinking

  /**
   * Final code with its subject, the rules in scope and their positions, the call budget `d` code was
   * generated with and the budget `w` construction checked with.
   */
  datatype World = World(code: Code, pos: seq<int>, g: seq<Tree>, w: nat, d: nat, s: Subject)

  /** The rules of the grammar in scope are well formed, and the code of each live one is at its position. */
  ghost predicate Env(W: World)
  {
    && |W.pos| == |W.g| && RulesWellFormed(W.g, W.w)
    && forall r | 0 <= r < |W.g| && Live(W.g, r) ::
         CodeAt(W.code, W.pos[r], RuleCode(W.g, W.d, r), W.pos)
  }

  ghost predicate InScope(W: World, t: Tree)
  {
    Env(W) && WellFormed(W.g, W.w, t) && CallsLive(W.g, t)
  }

  /** The code of `t` is at slot `a`. */
  ghost predicate At(W: World, t: Tree, opt: bool, tt: Guard, fl: Charset, a: int)
  {
    CodeAt(W.code, a, Gen(W.g, W.d, t, opt, tt, fl), W.pos)
  }

  ghost function Len(W: World, t: Tree, opt: bool, tt: Guard, fl: Charset): nat
  {
    |Gen(W.g, W.d, t, opt, tt, fl)|
  }

  ghost function Final(W: World, c: Config): Config
  {
    Out(W.code, W.s, c)
  }

  /** `opt` code runs on top of the choice of the enclosing optional pattern. */
  predicate OptStack(opt: bool, fl: Charset, k: Stack)
  {
    opt ==> fl == FULL && k.Frame? && k.top.Back?
  }

  /**
   * Running from `c` has the outcome of meaning `r` for code ending at `b`. Code may fail instead of
   * succeeding where what follows is bound to fail; optional code may end through its choice.
   */
  ghost predicate Arrives(W: World, opt: bool, fl: Charset, c: Config, b: int, k: Stack, r: Result)
    requires OptStack(opt, fl, k)
  {
    match r
    case Timeout => false
    case Fail => Final(W, c) == Final(W, FailTo(k))
    case Match(j) =>
      if opt then
        || (exists i': nat :: Final(W, c) == Final(W, Run(b, j, Frame(Back(k.top.p, i'), k.rest))))
        || Final(W, c) == Final(W, Run(k.top.p, j, k.rest))
      else
        || Final(W, c) == Final(W, Run(b, j, k))
        || (Outside(W.s, j, fl) && Final(W, c) == Final(W, FailTo(k)))
  }

  /** What a run of `t` may assume about the machine when it starts. */
  ghost predicate Starts(W: World, t: Tree, opt: bool, tt: Guard, fl: Charset, i: nat, k: Stack, fuel: nat)
  {
    i <= |W.s| && GuardHolds(tt, W.s, i) && OptStack(opt, fl, k) && !Peg(W.g, t, W.s, i, fuel).Timeout?
  }

  // ---------- Single instructions ----------

  lemma Do(W: World, p: int, i: nat, k: Stack)
    ensures Final(W, Run(p, i, k)) == Final(W, Step(W.code, W.s, Run(p, i, k)))
  {
    Exec(W.code, W.s, p, i, k);
  }

  lemma DoChoice(W: World, p: int, off: int, i: nat, k: Stack)
    requires 0 <= p < |W.code| && W.code[p] == IChoice(off)
    ensures Final(W, Run(p, i, k)) == Final(W, Run(p + 2, i, Frame(Back(p + off, i), k)))
  {
    Do(W, p, i, k);
  }

  /** A partial commit stores the position in the choice on top and goes on at its label. */
  lemma DoPartial(W: World, p: int, off: int, i: nat, k: Stack, q: int, i': nat)
    requires 0 <= p < |W.code| && W.code[p] == IPartialCommit(off)
    ensures Final(W, Run(p, i, Frame(Back(q, i'), k))) == Final(W, Run(p + off, i, Frame(Back(q, i), k)))
  {
    Do(W, p, i, Frame(Back(q, i'), k));
  }

  lemma FailToBack(p: int, i: nat, k: Stack)
    ensures FailTo(Frame(Back(p, i), k)) == Run(p, i, k)
  {
  }

  /** Following jumps does not change the outcome. */
  lemma {:induction false} ChainOut(W: World, q: int, h: nat, q': int, i: nat, k: Stack)
    requires Chain(W.code, q, h, q')
    ensures Final(W, Run(q, i, k)) == Final(W, Run(q', i, k))
    decreases h
  {
    if h > 0 {
      Do(W, q, i, k);
      ChainOut(W, q + W.code[q].off, h - 1, q', i, k);
    }
  }

  /** A test falls through exactly on its set, and then its guard holds. */
  lemma TestRuns(W: World, a: int, cs: Charset, off: int, i: nat, k: Stack)
    requires CodeAt(W.code, a, TestCode(cs, false, off), W.pos) && i <= |W.s|
    ensures Inside(W.s, i, cs) ==>
              GuardHolds(GuardOf(cs), W.s, i) && Final(W, Run(a, i, k)) == Final(W, Run(a + TestLen(cs, false), i, k))
    ensures !Inside(W.s, i, cs) ==> Final(W, Run(a, i, k)) == Final(W, Run(a + off, i, k))
  {
    CodeAtHead(W.code, a, TestInstr(cs, off), W.pos);
    Do(W, a, i, k);
  }

  lemma CharRuns(W: World, a: int, c: Char, tt: Guard, i: nat, k: Stack)
    requires CodeAt(W.code, a, CharCode(c, tt), W.pos) && GuardHolds(tt, W.s, i) && i <= |W.s|
    ensures Final(W, Run(a, i, k)) == Final(W, if i < |W.s| && W.s[i] == c then Run(a + 1, i + 1, k) else FailTo(k))
  {
    CodeAtOne(W.code, a, CharCode(c, tt)[0], W.pos);
    Do(W, a, i, k);
  }

  lemma SetRuns(W: World, a: int, cs: Charset, tt: Guard, i: nat, k: Stack)
    requires CodeAt(W.code, a, SetCode(cs, tt), W.pos) && GuardHolds(tt, W.s, i) && i <= |W.s|
    ensures Final(W, Run(a, i, k))
         == Final(W, if i < |W.s| && W.s[i] in cs then Run(a + |SetCode(cs, tt)|, i + 1, k) else FailTo(k))
  {
    match CharsetType(cs)
    case SingleChar(c) => CharRuns(W, a, c, tt, i, k);
    case OtherSet =>
      if tt != GuardSet(cs) { CodeAtHead(W.code, a, ISet(cs), W.pos); }
      else { CodeAtOne(W.code, a, IAny, W.pos); }
      Do(W, a, i, k);
    case EmptySet => CodeAtOne(W.code, a, IFail, W.pos); Do(W, a, i, k);
    case AllChars => CodeAtOne(W.code, a, IAny, W.pos); Do(W, a, i, k);
  }

  lemma BehindRuns(W: World, a: int, n: nat, i: nat, k: Stack)
    requires CodeAt(W.code, a, BehindCode(n), W.pos)
    ensures Final(W, Run(a, i, k)) == Final(W, if n > i then FailTo(k) else Run(a + |BehindCode(n)|, i - n, k))
  {
    if n > 0 {
      CodeAtOne(W.code, a, IBehind(n), W.pos);
      Do(W, a, i, k);
    }
  }

  // ---------- Combinations, whatever their parts are ----------

  /** Code that leaves the stack alone is also right where optional code is asked for. */
  lemma PlainArrives(W: World, opt: bool, fl: Charset, c: Config, b: int, k: Stack, r: Result)
    requires OptStack(opt, fl, k) && Arrives(W, false, fl, c, b, k, r)
    ensures Arrives(W, opt, fl, c, b, k, r)
  {
    if opt { assert k == Frame(Back(k.top.p, k.top.i), k.rest); }
  }

  lemma SameStart(W: World, opt: bool, fl: Charset, c: Config, c': Config, b: int, k: Stack, r: Result)
    requires OptStack(opt, fl, k) && Final(W, c) == Final(W, c') && Arrives(W, opt, fl, c', b, k, r)
    ensures Arrives(W, opt, fl, c, b, k, r)
  {
  }

  lemma FailArrives(W: World, opt: bool, fl: Charset, c: Config, b: int, k: Stack)
    requires OptStack(opt, fl, k)
    ensures Arrives(W, opt, fl, c, b, k, Fail) <==> Final(W, c) == Final(W, FailTo(k))
  {
  }

  lemma MatchArrives(W: World, opt: bool, fl: Charset, c: Config, b: int, k: Stack, j: nat)
    requires OptStack(opt, fl, k) && Final(W, c) == Final(W, Run(b, j, k))
    ensures Arrives(W, opt, fl, c, b, k, Match(j))
  {
    if opt { assert k == Frame(Back(k.top.p, k.top.i), k.rest); }
  }

  /** First part, then second part: a failure the first part was allowed is one the whole is allowed. */
  lemma ArriveThen(W: World, opt: bool, fl: Charset, fl1: Charset, c: Config, m: int, j: nat, b: int, k: Stack,
          r: Result)
    requires OptStack(opt, fl, k)
    requires Arrives(W, false, fl1, c, m, k, Match(j))
    requires Arrives(W, opt, fl, Run(m, j, k), b, k, r)
    requires Outside(W.s, j, fl1) && r.Match? ==> r.pos == j && Outside(W.s, j, fl)
    ensures Arrives(W, opt, fl, c, b, k, r)
  {
  }

  /** A commit at `m` to `b` drops the choice, whatever position optional code left in it. */
  lemma CommitLeaves(W: World, opt: bool, c: Config, m: int, b: int, k: Stack, j: nat)
    requires k.Frame? && k.top.Back? && (opt ==> k.top.p == b)
    requires 0 <= m < |W.code| && W.code[m] == ICommit(b - m)
    requires j <= |W.s| && Arrives(W, opt, FULL, c, m, k, Match(j))
    ensures Final(W, c) == Final(W, Run(b, j, k.rest))
  {
    if opt {
      forall i': nat ensures Final(W, Run(m, j, Frame(Back(k.top.p, i'), k.rest))) == Final(W, Run(b, j, k.rest)) {
        Do(W, m, j, Frame(Back(k.top.p, i'), k.rest));
      }
    } else {
      Do(W, m, j, k);
    }
  }

  /** The meaning of a choice from the meanings of its parts. */
  function Either(r1: Result, r2: Result): Result
  {
    if r1.Fail? then r2 else r1
  }

  predicate Inside(s: Subject, i: nat, cs: Charset)
  {
    i < |s| && s[i] in cs
  }

  lemma ChoiceByTestParts(W: World, a: int, cs1: Charset, c1: Code, c2: Code, emptyp2: bool)
    requires CodeAt(W.code, a, ChoiceByTest(cs1, c1, c2, emptyp2), W.pos)
    ensures CodeAt(W.code, a + TestLen(cs1, false), c1, W.pos)
    ensures CodeAt(W.code, a + TestLen(cs1, false) + |c1| + (if emptyp2 then 0 else 2), c2, W.pos)
  {
    var jmp := if emptyp2 then [] else Emit(IJmp(2 + |c2|));
    CodeAtSplit4(W.code, a, TestCode(cs1, false, TestLen(cs1, false) + |c1| + |jmp|), c1, jmp, c2, W.pos);
  }

  lemma ChoiceByTestIs(cs1: Charset, c1: Code, c2: Code, emptyp2: bool)
    ensures var jmp := if emptyp2 then [] else Emit(IJmp(2 + |c2|));
            ChoiceByTest(cs1, c1, c2, emptyp2)
            == TestCode(cs1, false, TestLen(cs1, false) + |c1| + |jmp|) + c1 + jmp + c2
  {
  }

  /** The part chosen by a test ends the choice, or fails where the other part would not have helped. */
  lemma TestThen(W: World, fl: Charset, c: Config, c': Config, m: int, b: int, i: nat, k: Stack, r1: Result, r2: Result)
    requires OptStack(false, fl, k) && Final(W, c) == Final(W, c') && Arrives(W, false, fl, c', m, k, r1)
    requires r1.Match? ==> Final(W, Run(m, r1.pos, k)) == Final(W, Run(b, r1.pos, k))
    requires r1.Fail? ==> r2.Fail? || (r2 == Match(i) && Outside(W.s, i, fl))
    ensures Arrives(W, false, fl, c, b, k, Either(r1, r2))
  {
  }

  lemma ChoiceByTestRuns(W: World, opt: bool, fl: Charset, cs1: Charset, c1: Code, c2: Code,
                         emptyp2: bool, a: int, i: nat, k: Stack, r1: Result, r2: Result)
    requires CodeAt(W.code, a, ChoiceByTest(cs1, c1, c2, emptyp2), W.pos) && (emptyp2 ==> c2 == [])
    requires OptStack(opt, fl, k) && i <= |W.s|
    requires var m := a + TestLen(cs1, false);
             var l1 := m + |c1| + (if emptyp2 then 0 else 2);
             if Inside(W.s, i, cs1) then
               && Arrives(W, false, fl, Run(m, i, k), m + |c1|, k, r1)
               && (r1.Fail? ==> r2.Fail? || (r2 == Match(i) && Outside(W.s, i, fl)))
             else r1.Fail? && Arrives(W, opt, fl, Run(l1, i, k), l1 + |c2|, k, r2)
    ensures Arrives(W, opt, fl, Run(a, i, k), a + |ChoiceByTest(cs1, c1, c2, emptyp2)|, k, Either(r1, r2))
  {
    hide *;
    var jmp := if emptyp2 then [] else Emit(IJmp(2 + |c2|));
    var tl := TestLen(cs1, false);
    var off := tl + |c1| + |jmp|;
    ChoiceByTestIs(cs1, c1, c2, emptyp2);
    CodeAtSplit4(W.code, a, TestCode(cs1, false, off), c1, jmp, c2, W.pos);
    TestRuns(W, a, cs1, off, i, k);
    EmitTwo(IJmp(2 + |c2|));
    var b := a + off + |c2|;
    if Inside(W.s, i, cs1) {
      if r1.Match? && !emptyp2 { JumpRuns(W, a + tl + |c1|, 2 + |c2|, r1.pos, k); }
      TestThen(W, fl, Run(a, i, k), Run(a + tl, i, k), a + tl + |c1|, b, i, k, r1, r2);
      PlainArrives(W, opt, fl, Run(a, i, k), b, k, Either(r1, r2));
    } else {
      EitherIs(r1, r2);
      SameStart(W, opt, fl, Run(a, i, k), Run(a + off, i, k), b, k, r2);
    }
  }

  lemma JumpRuns(W: World, a: int, off: int, i: nat, k: Stack)
    requires CodeAt(W.code, a, Emit(IJmp(off)), W.pos)
    ensures Final(W, Run(a, i, k)) == Final(W, Run(a + off, i, k))
  {
    CodeAtHead(W.code, a, IJmp(off), W.pos);
    Do(W, a, i, k);
  }

  lemma EmitTwo(x: Instr)
    requires x.IChoice? || x.ICall? || x.IJmp? || x.ICommit? || x.IPartialCommit?
    ensures |Emit(x)| == 2
  {
  }

  lemma ChoiceByStackIs(cs1: Charset, e1: bool, c1: Code, c2: Code)
    ensures ChoiceByStack(cs1, e1, c1, c2)
         == TestCode(cs1, e1, TestLen(cs1, e1) + 2 + |c1| + 2) + Emit(IChoice(2 + |c1| + 2)) + c1
             + Emit(ICommit(2 + |c2|)) + c2
  {
    hide TestCode, TestLen, Emit;
  }

  lemma RepByStackIs(cs: Charset, e: bool, opt: bool, c: Code)
    ensures RepByStack(cs, e, opt, c)
         == TestCode(cs, e, TestLen(cs, e) + 2 + |c| + 2)
            + Emit(if opt then IPartialCommit(2) else IChoice(2 + |c| + 2)) + c + Emit(IPartialCommit(-|c|))
  {
    hide TestCode, TestLen, Emit;
  }

  lemma ChoiceByStackParts(W: World, a: int, cs1: Charset, e1: bool, c1: Code, c2: Code)
    requires CodeAt(W.code, a, ChoiceByStack(cs1, e1, c1, c2), W.pos)
    ensures var m := a + TestLen(cs1, e1);
            && CodeAt(W.code, a, TestCode(cs1, e1, TestLen(cs1, e1) + 2 + |c1| + 2), W.pos)
            && 0 <= m < m + 2 + |c1| < |W.code|
            && W.code[m] == IChoice(2 + |c1| + 2)
            && W.code[m + 2 + |c1|] == ICommit(2 + |c2|)
            && CodeAt(W.code, m + 2, c1, W.pos) && CodeAt(W.code, m + 2 + |c1| + 2, c2, W.pos)
  {
    hide *;
    var off := TestLen(cs1, e1) + 2 + |c1| + 2;
    ChoiceByStackIs(cs1, e1, c1, c2);
    EmitTwo(IChoice(2 + |c1| + 2));
    EmitTwo(ICommit(2 + |c2|));
    CodeAtSplit5(W.code, a, TestCode(cs1, e1, off), Emit(IChoice(2 + |c1| + 2)), c1, Emit(ICommit(2 + |c2|)), c2,
        W.pos);
    CodeAtHead(W.code, a + TestLen(cs1, e1), IChoice(2 + |c1| + 2), W.pos);
    CodeAtHead(W.code, a + TestLen(cs1, e1) + 2 + |c1|, ICommit(2 + |c2|), W.pos);
  }

  lemma EitherIs(r1: Result, r2: Result)
    ensures r1.Match? ==> Either(r1, r2) == r1
    ensures r1.Fail? ==> Either(r1, r2) == r2
  {
  }

  lemma NoTestStays(cs: Charset, e: bool)
    ensures e ==> TestLen(cs, e) == 0
  {
  }

  /** Optional code may run on top of any choice. */
  lemma OnChoice(opt: bool, p: int, i: nat, k: Stack)
    ensures OptStack(opt, FULL, Frame(Back(p, i), k))
  {
  }

  /** A choice with a saved position; `opt1` says that its first part was coded as the last optional thing. */
  lemma ChoiceByStackRuns(W: World, opt: bool, fl: Charset, cs1: Charset, e1: bool,
                          c1: Code, c2: Code, opt1: bool, a: int, i: nat, k: Stack, r1: Result, r2: Result)
    requires CodeAt(W.code, a, ChoiceByStack(cs1, e1, c1, c2), W.pos) && (opt1 ==> c2 == [])
    requires OptStack(opt, fl, k) && i <= |W.s| && !r1.Timeout? && (r1.Match? ==> r1.pos <= |W.s|)
    requires var m := a + TestLen(cs1, e1) + 2;
             var l1 := m + |c1| + 2;
             var k1 := Frame(Back(l1, i), k);
             && (if e1 || Inside(W.s, i, cs1) then Arrives(W, opt1, FULL, Run(m, i, k1), m + |c1|, k1, r1)
                 else r1.Fail?)
             && (r1.Fail? ==> Arrives(W, opt, fl, Run(l1, i, k), l1 + |c2|, k, r2))
    ensures Arrives(W, opt, fl, Run(a, i, k), a + |ChoiceByStack(cs1, e1, c1, c2)|, k, Either(r1, r2))
  {
    hide *;
    var off := TestLen(cs1, e1) + 2 + |c1| + 2;
    ChoiceByStackParts(W, a, cs1, e1, c1, c2);
    var m := a + TestLen(cs1, e1) + 2;
    var l1 := m + |c1| + 2;
    var b := l1 + |c2|;
    EitherIs(r1, r2);
    NoTestStays(cs1, e1);
    if !e1 { TestRuns(W, a, cs1, off, i, k); }
    if e1 || Inside(W.s, i, cs1) {
      DoChoice(W, m - 2, 2 + |c1| + 2, i, k);
      var k1 := Frame(Back(l1, i), k);
      OnChoice(opt1, l1, i, k);
      if r1.Match? {
        CommitLeaves(W, opt1, Run(m, i, k1), m + |c1|, b, k1, r1.pos);
        MatchArrives(W, opt, fl, Run(a, i, k), b, k, r1.pos);
      } else {
        FailArrives(W, opt1, FULL, Run(m, i, k1), m + |c1|, k1);
        FailToBack(l1, i, k);
        SameStart(W, opt, fl, Run(a, i, k), Run(l1, i, k), b, k, r2);
      }
    } else {
      SameStart(W, opt, fl, Run(a, i, k), Run(l1, i, k), b, k, r2);
    }
  }

  // ---------- The induction ----------

  /** Running the code of `t` from `a` does what `t` means. */
  lemma {:induction false} GenSound(W: World, t: Tree, opt: bool, tt: Guard, fl: Charset, a: int, i: nat, k: Stack,
          fuel: nat)
    requires InScope(W, t) && At(W, t, opt, tt, fl, a) && Starts(W, t, opt, tt, fl, i, k, fuel)
    ensures Arrives(W, opt, fl, Run(a, i, k), a + Len(W, t, opt, tt, fl), k, Peg(W.g, t, W.s, i, fuel))
    decreases fuel, 3
  {
    match t
    case TSeq(_, _) => SeqSound(W, t, opt, tt, fl, a, i, k, fuel);
    case TChoice(p1, p2) =>
      if TestDecides(W, p1, p2, fl) { ChoiceTestSound(W, t, opt, tt, fl, a, i, k, fuel); }
      else if opt && p2.TTrue? { ChoiceOptSound(W, t, opt, tt, fl, a, i, k, fuel); }
      else { ChoiceStackSound(W, t, opt, tt, fl, a, i, k, fuel); }
    case TRep(p) =>
      if ToCharset(p).0 { SpanSound(W, t, opt, tt, fl, a, i, k, fuel); }
      else if RepTestDecides(W, p, fl) { RepTestSound(W, t, opt, tt, fl, a, i, k, fuel); }
      else { RepStackSound(W, t, opt, tt, fl, a, i, k, fuel); }
    case TNot(p) =>
      if HeadFail(W.g, W.d, p) { NotTestSound(W, t, opt, tt, fl, a, i, k, fuel); }
      else { NotStackSound(W, t, opt, tt, fl, a, i, k, fuel); }
    case TAnd(p) =>
      if 0 <= FixedLen(W.g, W.d, p) <= MAXBEHIND { AndFixedSound(W, t, opt, tt, fl, a, i, k, fuel); }
      else { AndStackSound(W, t, opt, tt, fl, a, i, k, fuel); }
    case TBehind(_, _) => BehindSound(W, t, opt, tt, fl, a, i, k, fuel);
    case TCall(_) => CallSound(W, t, opt, tt, fl, a, i, k, fuel);
    case TGrammar(_) => GrammarSound(W, t, opt, tt, fl, a, i, k, fuel);
    case _ =>
      LeafSound(W, t, tt, fl, a, i, k, fuel, opt);
      PlainArrives(W, opt, fl, Run(a, i, k), a + Len(W, t, opt, tt, fl), k, Peg(W.g, t, W.s, i, fuel));
  }

  lemma LeafSound(W: World, t: Tree, tt: Guard, fl: Charset, a: int, i: nat, k: Stack, fuel: nat, opt: bool)
    requires t.TChar? || t.TSet? || t.TAny? || t.TTrue? || t.TFalse?
    requires At(W, t, opt, tt, fl, a) && Starts(W, t, opt, tt, fl, i, k, fuel)
    ensures Arrives(W, false, fl, Run(a, i, k), a + Len(W, t, opt, tt, fl), k, Peg(W.g, t, W.s, i, fuel))
  {
    match t
    case TChar(c) => CharRuns(W, a, c, tt, i, k);
    case TSet(cs) => SetRuns(W, a, cs, tt, i, k);
    case TAny => CodeAtOne(W.code, a, IAny, W.pos); Do(W, a, i, k);
    case TTrue =>
    case TFalse => CodeAtOne(W.code, a, IFail, W.pos); Do(W, a, i, k);
  }

  lemma ScopeParts(W: World, t: Tree)
    requires InScope(W, t)
    ensures t.TSeq? || t.TChoice? ==> InScope(W, t.p1) && InScope(W, t.p2)
    ensures t.TRep? || t.TNot? || t.TAnd? || t.TBehind? ==> InScope(W, t.p)
    ensures RulesWellFormed(W.g, W.w) && WellFormed(W.g, W.w, t) && CallsLive(W.g, t)
  {
  }

  /** A guard still holds after a part that cannot have consumed anything. */
  lemma GuardKept(g: seq<Tree>, d: nat, p1: Tree, tt: Guard, s: Subject, i: nat, fuel: nat)
    requires i <= |s| && GuardHolds(tt, s, i) && Peg(g, p1, s, i, fuel).Match?
    ensures GuardHolds(if FixedLen(g, d, p1) != 0 then NoGuard else tt, s, Peg(g, p1, s, i, fuel).pos)
  {
    if FixedLen(g, d, p1) == 0 { FixedLenSound(g, d, p1, s, i, fuel); }
  }

  lemma SeqParts(W: World, t: Tree, opt: bool, tt: Guard, fl: Charset, a: int, fl1: Charset, tt2: Guard)
    requires t.TSeq? && At(W, t, opt, tt, fl, a)
    requires fl1 == if NeedFollow(t.p1) then First(W.g, W.d, t.p2, fl).0 else FULL
    requires tt2 == if FixedLen(W.g, W.d, t.p1) != 0 then NoGuard else tt
    ensures At(W, t.p1, false, tt, fl1, a) && At(W, t.p2, opt, tt2, fl, a + Len(W, t.p1, false, tt, fl1))
    ensures Len(W, t, opt, tt, fl) == Len(W, t.p1, false, tt, fl1) + Len(W, t.p2, opt, tt2, fl)
  {
    CodeAtSplit(W.code, a, Gen(W.g, W.d, t.p1, false, tt, fl1), Gen(W.g, W.d, t.p2, opt, tt2, fl), W.pos);
  }

  lemma {:induction false} SeqSound(W: World, t: Tree, opt: bool, tt: Guard, fl: Charset, a: int, i: nat, k: Stack,
          fuel: nat)
    requires t.TSeq? && InScope(W, t) && At(W, t, opt, tt, fl, a) && Starts(W, t, opt, tt, fl, i, k, fuel)
    ensures Arrives(W, opt, fl, Run(a, i, k), a + Len(W, t, opt, tt, fl), k, Peg(W.g, t, W.s, i, fuel))
    decreases fuel, 1
  {
    hide InScope, At, Len, First, FixedLen, NeedFollow, CodeAt;
    var TSeq(p1, p2) := t;
    var fl1 := if NeedFollow(p1) then First(W.g, W.d, p2, fl).0 else FULL;
    var tt2 := if FixedLen(W.g, W.d, p1) != 0 then NoGuard else tt;
    ScopeParts(W, t);
    SeqParts(W, t, opt, tt, fl, a, fl1, tt2);
    GenSound(W, p1, false, tt, fl1, a, i, k, fuel - 1);
    var r := Peg(W.g, p1, W.s, i, fuel - 1);
    if r.Match? {
      GuardKept(W.g, W.d, p1, tt, W.s, i, fuel - 1);
      var m := a + Len(W, p1, false, tt, fl1);
      GenSound(W, p2, opt, tt2, fl, m, r.pos, k, fuel - 1);
      var r2 := Peg(W.g, p2, W.s, r.pos, fuel - 1);
      ScopeParts(W, p2);
      if Outside(W.s, r.pos, fl1) && r2.Match? { FirstSound(W.g, W.w, W.d, p2, fl, W.s, r.pos, fuel - 1); }
      ArriveThen(W, opt, fl, fl1, Run(a, i, k), m, r.pos, a + Len(W, t, opt, tt, fl), k, r2);
    }
  }

  /** When the test of a first set does not pass, the pattern does not match. */
  lemma TestMisses(W: World, p: Tree, i: nat, fuel: nat)
    requires InScope(W, p) && i <= |W.s| && !Inside(W.s, i, First(W.g, W.d, p, FULL).0)
    requires HeadFail(W.g, W.d, p) || !First(W.g, W.d, p, FULL).1
    ensures !Peg(W.g, p, W.s, i, fuel).Match?
  {
    if HeadFail(W.g, W.d, p) { HeadFailFlag(W.g, W.d, p, FULL); }
    if i == |W.s| { FirstFlagSound(W.g, W.d, p, FULL, W.s, fuel); }
    else if Peg(W.g, p, W.s, i, fuel).Match? { FirstSound(W.g, W.w, W.d, p, FULL, W.s, i, fuel); }
  }

  lemma TestGuard(cs: Charset, s: Subject, i: nat)
    requires Inside(s, i, cs)
    ensures GuardHolds(GuardOf(cs), s, i)
  {
  }

  /** Whether a choice can be decided by looking at the next character. */
  predicate TestDecides(W: World, p1: Tree, p2: Tree, fl: Charset)
  {
    var (cs1, e1) := First(W.g, W.d, p1, FULL);
    HeadFail(W.g, W.d, p1) || (!e1 && cs1 !! First(W.g, W.d, p2, fl).0)
  }

  /** When a test decides for the first part and it fails, the second part would not help. */
  lemma DecidedFailure(W: World, p1: Tree, p2: Tree, fl: Charset, i: nat, fuel: nat)
    requires TestDecides(W, p1, p2, fl) && InScope(W, p2)
    requires Inside(W.s, i, First(W.g, W.d, p1, FULL).0) && Peg(W.g, p1, W.s, i, fuel).Fail?
    ensures var r2 := Peg(W.g, p2, W.s, i, fuel);
            r2.Match? ==> r2 == Match(i) && Outside(W.s, i, fl)
  {
    if HeadFail(W.g, W.d, p1) { HeadFailSound(W.g, W.d, p1, W.s, i, fuel); }
    else if Peg(W.g, p2, W.s, i, fuel).Match? { FirstSound(W.g, W.w, W.d, p2, fl, W.s, i, fuel); }
  }

  ghost function Sub(W: World, t: Tree, opt: bool, tt: Guard, fl: Charset): Code
  {
    Gen(W.g, W.d, t, opt, tt, fl)
  }

  lemma ChoiceTestShape(W: World, t: Tree, opt: bool, tt: Guard, fl: Charset, a: int, cs1: Charset, c1: Code, c2: Code)
    requires t.TChoice? && At(W, t, opt, tt, fl, a) && TestDecides(W, t.p1, t.p2, fl)
    requires cs1 == First(W.g, W.d, t.p1, FULL).0
    requires c1 == Sub(W, t.p1, false, GuardOf(cs1), fl) && c2 == Sub(W, t.p2, opt, NoGuard, fl)
    ensures CodeAt(W.code, a, ChoiceByTest(cs1, c1, c2, t.p2.TTrue?), W.pos) && (t.p2.TTrue? ==> c2 == [])
    ensures Len(W, t, opt, tt, fl) == |ChoiceByTest(cs1, c1, c2, t.p2.TTrue?)|
    ensures At(W, t.p1, false, GuardOf(cs1), fl, a + TestLen(cs1, false))
    ensures At(W, t.p2, opt, NoGuard, fl, a + TestLen(cs1, false) + |c1| + (if t.p2.TTrue? then 0 else 2))
    ensures |c1| == Len(W, t.p1, false, GuardOf(cs1), fl) && |c2| == Len(W, t.p2, opt, NoGuard, fl)
  {
    assert Gen(W.g, W.d, t, opt, tt, fl) == ChoiceByTest(cs1, c1, c2, t.p2.TTrue?);
    ChoiceByTestParts(W, a, cs1, c1, c2, t.p2.TTrue?);
  }

  lemma ChoiceMeaning(W: World, t: Tree, i: nat, fuel: nat)
    requires t.TChoice? && i <= |W.s| && !Peg(W.g, t, W.s, i, fuel).Timeout?
    ensures fuel > 0 && !Peg(W.g, t.p1, W.s, i, fuel - 1).Timeout?
    ensures Peg(W.g, t, W.s, i, fuel) == Either(Peg(W.g, t.p1, W.s, i, fuel - 1), Peg(W.g, t.p2, W.s, i, fuel - 1))
  {
  }

  lemma {:induction false} ChoiceTestSound(W: World, t: Tree, opt: bool, tt: Guard, fl: Charset, a: int, i: nat,
          k: Stack, fuel: nat)
    requires t.TChoice? && InScope(W, t) && At(W, t, opt, tt, fl, a) && Starts(W, t, opt, tt, fl, i, k, fuel)
    requires TestDecides(W, t.p1, t.p2, fl)
    ensures Arrives(W, opt, fl, Run(a, i, k), a + Len(W, t, opt, tt, fl), k, Peg(W.g, t, W.s, i, fuel))
    decreases fuel, 1
  {
    hide InScope, CodeAt, Arrives, At, Len, Sub, TestDecides, ChoiceByTest, Peg, First;
    var TChoice(p1, p2) := t;
    var cs1 := First(W.g, W.d, p1, FULL).0;
    var c1, c2 := Sub(W, p1, false, GuardOf(cs1), fl), Sub(W, p2, opt, NoGuard, fl);
    ScopeParts(W, t);
    ChoiceMeaning(W, t, i, fuel);
    ChoiceTestShape(W, t, opt, tt, fl, a, cs1, c1, c2);
    var r1, r2 := Peg(W.g, p1, W.s, i, fuel - 1), Peg(W.g, p2, W.s, i, fuel - 1);
    var m := a + TestLen(cs1, false);
    if Inside(W.s, i, cs1) {
      TestGuard(cs1, W.s, i);
      GenSound(W, p1, false, GuardOf(cs1), fl, m, i, k, fuel - 1);
      if r1.Fail? { DecidedFailure(W, p1, p2, fl, i, fuel - 1); }
    } else {
      DecidedMiss(W, p1, p2, fl, i, fuel - 1);
      GenSound(W, p2, opt, NoGuard, fl, m + |c1| + (if p2.TTrue? then 0 else 2), i, k, fuel - 1);
    }
    ChoiceByTestRuns(W, opt, fl, cs1, c1, c2, p2.TTrue?, a, i, k, r1, r2);
  }

  lemma DecidedMiss(W: World, p1: Tree, p2: Tree, fl: Charset, i: nat, fuel: nat)
    requires TestDecides(W, p1, p2, fl) && InScope(W, p1) && i <= |W.s|
    requires !Inside(W.s, i, First(W.g, W.d, p1, FULL).0)
    ensures !Peg(W.g, p1, W.s, i, fuel).Match?
  {
    TestMisses(W, p1, i, fuel);
  }

  lemma {:induction false} ChoiceOptSound(W: World, t: Tree, opt: bool, tt: Guard, fl: Charset, a: int, i: nat,
          k: Stack, fuel: nat)
    requires t.TChoice? && InScope(W, t) && At(W, t, opt, tt, fl, a) && Starts(W, t, opt, tt, fl, i, k, fuel)
    requires !TestDecides(W, t.p1, t.p2, fl) && opt && t.p2.TTrue?
    ensures Arrives(W, opt, fl, Run(a, i, k), a + Len(W, t, opt, tt, fl), k, Peg(W.g, t, W.s, i, fuel))
    decreases fuel, 1
  {
    hide InScope, CodeAt, At, Len, Sub, TestDecides;
    ScopeParts(W, t);
    ChoiceOptShape(W, t, opt, tt, fl, a);
    Do(W, a, i, k);
    GenSound(W, t.p1, true, NoGuard, FULL, a + 2, i, Frame(Back(k.top.p, i), k.rest), fuel - 1);
    assert Peg(W.g, t.p1, W.s, i, fuel - 1).Fail? ==> Peg(W.g, t.p2, W.s, i, fuel - 1) == Match(i);
  }

  lemma ChoiceOptShape(W: World, t: Tree, opt: bool, tt: Guard, fl: Charset, a: int)
    requires t.TChoice? && At(W, t, opt, tt, fl, a) && !TestDecides(W, t.p1, t.p2, fl) && opt && t.p2.TTrue?
    ensures 0 <= a < |W.code| && W.code[a] == IPartialCommit(2)
    ensures At(W, t.p1, true, NoGuard, FULL, a + 2)
    ensures Len(W, t, opt, tt, fl) == 2 + Len(W, t.p1, true, NoGuard, FULL)
  {
    var c1 := Gen(W.g, W.d, t.p1, true, NoGuard, FULL);
    assert Gen(W.g, W.d, t, opt, tt, fl) == Emit(IPartialCommit(2)) + c1;
    CodeAtSplit(W.code, a, Emit(IPartialCommit(2)), c1, W.pos);
    CodeAtHead(W.code, a, IPartialCommit(2), W.pos);
  }

  lemma ChoiceStackShape(W: World, t: Tree, opt: bool, tt: Guard, fl: Charset, a: int,
                         cs1: Charset, e1: bool, tt1: Guard, c1: Code, c2: Code)
    requires t.TChoice? && At(W, t, opt, tt, fl, a) && !TestDecides(W, t.p1, t.p2, fl) && !(opt && t.p2.TTrue?)
    requires (cs1, e1) == First(W.g, W.d, t.p1, FULL) && tt1 == if e1 then NoGuard else GuardOf(cs1)
    requires c1 == Sub(W, t.p1, t.p2.TTrue?, tt1, FULL) && c2 == Sub(W, t.p2, opt, NoGuard, fl)
    ensures CodeAt(W.code, a, ChoiceByStack(cs1, e1, c1, c2), W.pos) && (t.p2.TTrue? ==> c2 == [])
    ensures Len(W, t, opt, tt, fl) == |ChoiceByStack(cs1, e1, c1, c2)|
    ensures At(W, t.p1, t.p2.TTrue?, tt1, FULL, a + TestLen(cs1, e1) + 2)
    ensures At(W, t.p2, opt, NoGuard, fl, a + TestLen(cs1, e1) + 2 + |c1| + 2)
    ensures |c1| == Len(W, t.p1, t.p2.TTrue?, tt1, FULL) && |c2| == Len(W, t.p2, opt, NoGuard, fl)
  {
    assert Gen(W.g, W.d, t, opt, tt, fl) == ChoiceByStack(cs1, e1, c1, c2);
    ChoiceByStackParts(W, a, cs1, e1, c1, c2);
  }

  lemma {:induction false} ChoiceStackSound(W: World, t: Tree, opt: bool, tt: Guard, fl: Charset, a: int, i: nat,
          k: Stack, fuel: nat)
    requires t.TChoice? && InScope(W, t) && At(W, t, opt, tt, fl, a) && Starts(W, t, opt, tt, fl, i, k, fuel)
    requires !TestDecides(W, t.p1, t.p2, fl) && !(opt && t.p2.TTrue?)
    ensures Arrives(W, opt, fl, Run(a, i, k), a + Len(W, t, opt, tt, fl), k, Peg(W.g, t, W.s, i, fuel))
    decreases fuel, 1
  {
    hide InScope, CodeAt, Arrives, At, Len, Sub, TestDecides, ChoiceByStack, Peg, First;
    var TChoice(p1, p2) := t;
    var (cs1, e1) := First(W.g, W.d, p1, FULL);
    var tt1 := if e1 then NoGuard else GuardOf(cs1);
    var c1, c2 := Sub(W, p1, p2.TTrue?, tt1, FULL), Sub(W, p2, opt, NoGuard, fl);
    ScopeParts(W, t);
    ChoiceMeaning(W, t, i, fuel);
    ChoiceStackShape(W, t, opt, tt, fl, a, cs1, e1, tt1, c1, c2);
    var r1, r2 := Peg(W.g, p1, W.s, i, fuel - 1), Peg(W.g, p2, W.s, i, fuel - 1);
    var m := a + TestLen(cs1, e1) + 2;
    var l1 := m + |c1| + 2;
    if e1 || Inside(W.s, i, cs1) {
      if !e1 { TestGuard(cs1, W.s, i); }
      GenSound(W, p1, p2.TTrue?, tt1, FULL, m, i, Frame(Back(l1, i), k), fuel - 1);
    } else {
      TestMisses(W, p1, i, fuel - 1);
    }
    if r1.Fail? { GenSound(W, p2, opt, NoGuard, fl, l1, i, k, fuel - 1); }
    ChoiceByStackRuns(W, opt, fl, cs1, e1, c1, c2, p2.TTrue?, a, i, k, r1, r2);
  }

  // ---------- Repetition ----------

  predicate RepTestDecides(W: World, p: Tree, fl: Charset)
  {
    var (cs, e) := First(W.g, W.d, p, FULL);
    HeadFail(W.g, W.d, p) || (!e && cs !! fl)
  }

  /** A span is a greedy loop over its set. */
  lemma {:induction false} SpanMeaning(g: seq<Tree>, t: Tree, s: Subject, i: nat, fuel: nat)
    requires t.TRep? && ToCharset(t.p).0 && i <= |s| && !Peg(g, t, s, i, fuel).Timeout?
    ensures Peg(g, t, s, i, fuel) == Match(SpanEnd(s, i, ToCharset(t.p).1))
    decreases fuel
  {
    var r := Peg(g, t.p, s, i, fuel - 1);
    if r.Match? { SpanMeaning(g, t, s, r.pos, fuel - 1); }
  }

  lemma {:induction false} SpanSound(W: World, t: Tree, opt: bool, tt: Guard, fl: Charset, a: int, i: nat, k: Stack,
          fuel: nat)
    requires t.TRep? && ToCharset(t.p).0 && InScope(W, t) && At(W, t, opt, tt, fl, a)
    requires Starts(W, t, opt, tt, fl, i, k, fuel)
    ensures Arrives(W, opt, fl, Run(a, i, k), a + Len(W, t, opt, tt, fl), k, Peg(W.g, t, W.s, i, fuel))
    decreases fuel, 1
  {
    var cs := ToCharset(t.p).1;
    SpanMeaning(W.g, t, W.s, i, fuel);
    CodeAtHead(W.code, a, ISpan(cs), W.pos);
    Do(W, a, i, k);
    MatchArrives(W, opt, fl, Run(a, i, k), a + CHARSETINSTSIZE, k, SpanEnd(W.s, i, cs));
  }

  lemma RepByTestRuns(W: World, opt: bool, fl: Charset, cs: Charset, c: Code, a: int, i: nat, k: Stack, r1: Result,
          r: Result)
    requires CodeAt(W.code, a, RepByTest(cs, c), W.pos)
    requires OptStack(opt, fl, k) && i <= |W.s|
    requires var m := a + TestLen(cs, false);
             if Inside(W.s, i, cs) then
               && Arrives(W, false, FULL, Run(m, i, k), m + |c|, k, r1)
               && (r1.Match? ==> Arrives(W, opt, fl, Run(a, r1.pos, k), m + |c| + 2, k, r))
               && (r1.Fail? ==> r == Match(i) && Outside(W.s, i, fl))
             else r == Match(i)
    ensures Arrives(W, opt, fl, Run(a, i, k), a + |RepByTest(cs, c)|, k, r)
  {
    var tl := TestLen(cs, false);
    hide CodeAt, RepByTest;
    RepByTestParts(W, a, cs, c);
    TestRuns(W, a, cs, tl + |c| + 2, i, k);
    if Inside(W.s, i, cs) {
      if r1.Match? {
        Do(W, a + tl + |c|, r1.pos, k);
        SameStart(W, opt, fl, Run(a, i, k), Run(a, r1.pos, k), a + tl + |c| + 2, k, r);
      }
    } else {
      MatchArrives(W, opt, fl, Run(a, i, k), a + tl + |c| + 2, k, i);
    }
  }

  lemma RepTestShape(W: World, t: Tree, opt: bool, tt: Guard, fl: Charset, a: int, cs: Charset, c: Code)
    requires t.TRep? && !ToCharset(t.p).0 && At(W, t, opt, tt, fl, a) && RepTestDecides(W, t.p, fl)
    requires cs == First(W.g, W.d, t.p, FULL).0 && c == Sub(W, t.p, false, GuardOf(cs), FULL)
    ensures CodeAt(W.code, a, RepByTest(cs, c), W.pos) && Len(W, t, opt, tt, fl) == |RepByTest(cs, c)|
    ensures At(W, t.p, false, GuardOf(cs), FULL, a + TestLen(cs, false))
    ensures |c| == Len(W, t.p, false, GuardOf(cs), FULL)
    ensures At(W, t, opt, NoGuard, fl, a) && Len(W, t, opt, NoGuard, fl) == Len(W, t, opt, tt, fl)
  {
    hide Gen, CodeAt, RepByTest;
    GenRepTest(W.g, W.d, t, opt, tt, fl);
    GenRepTest(W.g, W.d, t, opt, NoGuard, fl);
    RepByTestParts(W, a, cs, c);
  }

  lemma GenRepTest(g: seq<Tree>, d: nat, t: Tree, opt: bool, tt: Guard, fl: Charset)
    requires t.TRep? && !ToCharset(t.p).0
    ensures var (cs, e) := First(g, d, t.p, FULL);
            Gen(g, d, t, opt, tt, fl)
            == if HeadFail(g, d, t.p) || (!e && cs !! fl) then RepByTest(cs, Gen(g, d, t.p, false, GuardOf(cs), FULL))
               else RepByStack(cs, e, opt, Gen(g, d, t.p, false, NoGuard, FULL))
  {
  }

  lemma RepByTestParts(W: World, a: int, cs: Charset, c: Code)
    requires CodeAt(W.code, a, RepByTest(cs, c), W.pos)
    ensures CodeAt(W.code, a, TestCode(cs, false, TestLen(cs, false) + |c| + 2), W.pos)
    ensures CodeAt(W.code, a + TestLen(cs, false), c, W.pos)
    ensures var b := a + TestLen(cs, false) + |c|; 0 <= b < |W.code| && W.code[b] == IJmp(a - b)
  {
    hide CodeAt;
    var tl := TestLen(cs, false);
    CodeAtSplit(W.code, a, TestCode(cs, false, tl + |c| + 2) + c, Emit(IJmp(-(tl + |c|))), W.pos);
    CodeAtSplit(W.code, a, TestCode(cs, false, tl + |c| + 2), c, W.pos);
    CodeAtHead(W.code, a + tl + |c|, IJmp(-(tl + |c|)), W.pos);
  }

  /** The meaning of a repetition from that of its body. */
  lemma RepMeaning(W: World, t: Tree, i: nat, fuel: nat)
    requires t.TRep? && i <= |W.s| && !Peg(W.g, t, W.s, i, fuel).Timeout?
    ensures fuel > 0 && !Peg(W.g, t.p, W.s, i, fuel - 1).Timeout?
    ensures var r := Peg(W.g, t.p, W.s, i, fuel - 1);
            && (r.Match? ==> i <= r.pos <= |W.s| && Peg(W.g, t, W.s, i, fuel) == Peg(W.g, t, W.s, r.pos, fuel - 1))
            && (r.Fail? ==> Peg(W.g, t, W.s, i, fuel) == Match(i))
  {
  }

  lemma RepDecided(W: World, p: Tree, fl: Charset, i: nat, fuel: nat)
    requires RepTestDecides(W, p, fl) && InScope(W, p) && i <= |W.s|
    ensures Inside(W.s, i, First(W.g, W.d, p, FULL).0) && Peg(W.g, p, W.s, i, fuel).Fail? ==> Outside(W.s, i, fl)
    ensures !Inside(W.s, i, First(W.g, W.d, p, FULL).0) ==> !Peg(W.g, p, W.s, i, fuel).Match?
  {
    if Inside(W.s, i, First(W.g, W.d, p, FULL).0) {
      if HeadFail(W.g, W.d, p) { HeadFailSound(W.g, W.d, p, W.s, i, fuel); }
    } else {
      TestMisses(W, p, i, fuel);
    }
  }

  lemma {:induction false} RepTestSound(W: World, t: Tree, opt: bool, tt: Guard, fl: Charset, a: int, i: nat,
          k: Stack, fuel: nat)
    requires t.TRep? && !ToCharset(t.p).0 && RepTestDecides(W, t.p, fl) && InScope(W, t)
    requires At(W, t, opt, tt, fl, a) && Starts(W, t, opt, tt, fl, i, k, fuel)
    ensures Arrives(W, opt, fl, Run(a, i, k), a + Len(W, t, opt, tt, fl), k, Peg(W.g, t, W.s, i, fuel))
    decreases fuel, 1
  {
    hide InScope, CodeAt, Arrives, At, Len, Sub, RepTestDecides, RepByTest, Peg, First, ToCharset;
    var p := t.p;
    var cs := First(W.g, W.d, p, FULL).0;
    var c := Sub(W, p, false, GuardOf(cs), FULL);
    var m := a + TestLen(cs, false);
    ScopeParts(W, t);
    RepMeaning(W, t, i, fuel);
    RepTestShape(W, t, opt, tt, fl, a, cs, c);
    var r1 := Peg(W.g, p, W.s, i, fuel - 1);
    RepDecided(W, p, fl, i, fuel - 1);
    if Inside(W.s, i, cs) {
      TestGuard(cs, W.s, i);
      GenSound(W, p, false, GuardOf(cs), FULL, m, i, k, fuel - 1);
      if r1.Match? { GenSound(W, t, opt, NoGuard, fl, a, r1.pos, k, fuel - 1); }
    }
    RepByTestRuns(W, opt, fl, cs, c, a, i, k, r1, Peg(W.g, t, W.s, i, fuel));
  }

  /** The loop of a repetition from its head, with its exit `out` saved at the current position. */
  lemma {:induction false} RepLoop(W: World, t: Tree, l1: int, out: int, i: nat, k: Stack, fuel: nat)
    requires t.TRep? && InScope(W, t.p) && At(W, t.p, false, NoGuard, FULL, l1)
    requires var b := l1 + Len(W, t.p, false, NoGuard, FULL); 0 <= b < |W.code| && W.code[b] == IPartialCommit(l1 - b)
    requires i <= |W.s| && !Peg(W.g, t, W.s, i, fuel).Timeout?
    ensures var r := Peg(W.g, t, W.s, i, fuel);
            r.Match? && Final(W, Run(l1, i, Frame(Back(out, i), k))) == Final(W, Run(out, r.pos, k))
    decreases fuel, 1
  {
    hide InScope, At, Len;
    var b := l1 + Len(W, t.p, false, NoGuard, FULL);
    var k1 := Frame(Back(out, i), k);
    GenSound(W, t.p, false, NoGuard, FULL, l1, i, k1, fuel - 1);
    var r1 := Peg(W.g, t.p, W.s, i, fuel - 1);
    if r1.Match? {
      Do(W, b, r1.pos, k1);
      RepLoop(W, t, l1, out, r1.pos, k, fuel - 1);
    }
  }

  lemma RepByStackParts(W: World, a: int, cs: Charset, e: bool, opt: bool, c: Code)
    requires CodeAt(W.code, a, RepByStack(cs, e, opt, c), W.pos)
    ensures var m := a + TestLen(cs, e);
            && CodeAt(W.code, a, TestCode(cs, e, TestLen(cs, e) + 2 + |c| + 2), W.pos)
            && 0 <= m < m + 2 + |c| < |W.code|
            && W.code[m] == (if opt then IPartialCommit(2) else IChoice(2 + |c| + 2))
            && CodeAt(W.code, m + 2, c, W.pos)
            && W.code[m + 2 + |c|] == IPartialCommit(-|c|)
  {
    hide *;
    var first := if opt then IPartialCommit(2) else IChoice(2 + |c| + 2);
    RepByStackIs(cs, e, opt, c);
    EmitTwo(first);
    EmitTwo(IPartialCommit(-|c|));
    CodeAtSplit4(W.code, a, TestCode(cs, e, TestLen(cs, e) + 2 + |c| + 2), Emit(first), c,
        Emit(IPartialCommit(-|c|)), W.pos);
    CodeAtHead(W.code, a + TestLen(cs, e), first, W.pos);
    CodeAtHead(W.code, a + TestLen(cs, e) + 2 + |c|, IPartialCommit(-|c|), W.pos);
  }

  lemma RepStackShape(W: World, t: Tree, opt: bool, tt: Guard, fl: Charset, a: int, cs: Charset, e: bool, n: nat)
    requires t.TRep? && !ToCharset(t.p).0 && At(W, t, opt, tt, fl, a) && !RepTestDecides(W, t.p, fl)
    requires (cs, e) == First(W.g, W.d, t.p, FULL) && n == Len(W, t.p, false, NoGuard, FULL)
    ensures var m := a + TestLen(cs, e);
            && CodeAt(W.code, a, TestCode(cs, e, TestLen(cs, e) + 2 + n + 2), W.pos)
            && 0 <= m < m + 2 + n < |W.code|
            && W.code[m] == (if opt then IPartialCommit(2) else IChoice(2 + n + 2))
            && At(W, t.p, false, NoGuard, FULL, m + 2)
            && W.code[m + 2 + n] == IPartialCommit(0 - n)
            && Len(W, t, opt, tt, fl) == TestLen(cs, e) + 2 + n + 2
  {
    hide Gen, CodeAt, First, RepByStack;
    GenRepTest(W.g, W.d, t, opt, tt, fl);
    RepByStackParts(W, a, cs, e, opt, Gen(W.g, W.d, t.p, false, NoGuard, FULL));
  }

  lemma StartsParts(W: World, t: Tree, opt: bool, tt: Guard, fl: Charset, i: nat, k: Stack, fuel: nat)
    requires Starts(W, t, opt, tt, fl, i, k, fuel)
    ensures i <= |W.s| && OptStack(opt, fl, k) && !Peg(W.g, t, W.s, i, fuel).Timeout? && fuel > 0
    ensures opt ==> fl == FULL && k.Frame? && k.top.Back? && k == Frame(Back(k.top.p, k.top.i), k.rest)
  {
  }

  /** Optional code may end at the choice it runs on. */
  lemma OptArrives(W: World, fl: Charset, c: Config, b: int, k: Stack, j: nat)
    requires OptStack(true, fl, k) && Final(W, c) == Final(W, Run(k.top.p, j, k.rest))
    ensures Arrives(W, true, fl, c, b, k, Match(j))
  {
  }

  /** A repetition whose body does not match stays where it is. */
  lemma RepMisses(W: World, t: Tree, i: nat, fuel: nat)
    requires t.TRep? && i <= |W.s| && fuel > 0 && !Peg(W.g, t, W.s, i, fuel).Timeout?
    requires !Peg(W.g, t.p, W.s, i, fuel - 1).Match?
    ensures Peg(W.g, t, W.s, i, fuel) == Match(i)
  {
  }

  lemma {:induction false} RepStackSound(W: World, t: Tree, opt: bool, tt: Guard, fl: Charset, a: int, i: nat,
          k: Stack, fuel: nat)
    requires t.TRep? && !ToCharset(t.p).0 && !RepTestDecides(W, t.p, fl) && InScope(W, t)
    requires At(W, t, opt, tt, fl, a) && Starts(W, t, opt, tt, fl, i, k, fuel)
    ensures Arrives(W, opt, fl, Run(a, i, k), a + Len(W, t, opt, tt, fl), k, Peg(W.g, t, W.s, i, fuel))
    decreases fuel, 2
  {
    hide *;
    var (cs, e) := First(W.g, W.d, t.p, FULL);
    var n := Len(W, t.p, false, NoGuard, FULL);
    var m := a + TestLen(cs, e);
    var b := m + 2 + n + 2;
    StartsParts(W, t, opt, tt, fl, i, k, fuel);
    ScopeParts(W, t);
    RepStackShape(W, t, opt, tt, fl, a, cs, e, n);
    RepMeaning(W, t, i, fuel);
    NoTestStays(cs, e);
    if !e { TestRuns(W, a, cs, b - a, i, k); }
    var r := Peg(W.g, t, W.s, i, fuel);
    if e || Inside(W.s, i, cs) {
      if opt {
        DoPartial(W, m, 2, i, k.rest, k.top.p, k.top.i);
        RepLoop(W, t, m + 2, k.top.p, i, k.rest, fuel);
        OptArrives(W, fl, Run(a, i, k), b, k, r.pos);
      } else {
        DoChoice(W, m, 2 + n + 2, i, k);
        RepLoop(W, t, m + 2, b, i, k, fuel);
        MatchArrives(W, opt, fl, Run(a, i, k), b, k, r.pos);
      }
    } else {
      TestMisses(W, t.p, i, fuel - 1);
      RepMisses(W, t, i, fuel);
      MatchArrives(W, opt, fl, Run(a, i, k), b, k, i);
    }
  }


  // ---------- Predicates ----------

  lemma NotTestShape(W: World, t: Tree, opt: bool, tt: Guard, fl: Charset, a: int, cs: Charset, e: bool)
    requires t.TNot? && At(W, t, opt, tt, fl, a) && HeadFail(W.g, W.d, t.p) && (cs, e) == First(W.g, W.d, t.p, FULL)
    ensures CodeAt(W.code, a, TestCode(cs, e, TestLen(cs, e) + 1), W.pos)
    ensures 0 <= a + TestLen(cs, e) < |W.code| && W.code[a + TestLen(cs, e)] == IFail
    ensures Len(W, t, opt, tt, fl) == TestLen(cs, e) + 1
  {
    hide Gen, CodeAt, First;
    GenNot(W.g, W.d, t, opt, tt, fl);
    CodeAtSplit(W.code, a, TestCode(cs, e, TestLen(cs, e) + 1), [IFail], W.pos);
    CodeAtOne(W.code, a + TestLen(cs, e), IFail, W.pos);
  }

  lemma {:induction false} NotTestSound(W: World, t: Tree, opt: bool, tt: Guard, fl: Charset, a: int, i: nat,
          k: Stack, fuel: nat)
    requires t.TNot? && HeadFail(W.g, W.d, t.p) && InScope(W, t) && At(W, t, opt, tt, fl, a)
    requires Starts(W, t, opt, tt, fl, i, k, fuel)
    ensures Arrives(W, opt, fl, Run(a, i, k), a + Len(W, t, opt, tt, fl), k, Peg(W.g, t, W.s, i, fuel))
    decreases fuel, 1
  {
    hide InScope, CodeAt, At, Len, First;
    var (cs, e) := First(W.g, W.d, t.p, FULL);
    ScopeParts(W, t);
    HeadFailFlag(W.g, W.d, t.p, FULL);
    NotTestShape(W, t, opt, tt, fl, a, cs, e);
    TestRuns(W, a, cs, TestLen(cs, e) + 1, i, k);
    if Inside(W.s, i, cs) {
      HeadFailSound(W.g, W.d, t.p, W.s, i, fuel - 1);
      Do(W, a + TestLen(cs, e), i, k);
    } else {
      TestMisses(W, t.p, i, fuel - 1);
      MatchArrives(W, opt, fl, Run(a, i, k), a + TestLen(cs, e) + 1, k, i);
    }
  }

  lemma NotMeaning(W: World, t: Tree, i: nat, fuel: nat)
    requires t.TNot? && i <= |W.s| && !Peg(W.g, t, W.s, i, fuel).Timeout?
    ensures fuel > 0 && !Peg(W.g, t.p, W.s, i, fuel - 1).Timeout?
    ensures Peg(W.g, t, W.s, i, fuel) == if Peg(W.g, t.p, W.s, i, fuel - 1).Match? then Fail else Match(i)
  {
  }

  lemma NotStackShape(W: World, t: Tree, opt: bool, tt: Guard, fl: Charset, a: int, cs: Charset, e: bool, n: nat)
    requires t.TNot? && At(W, t, opt, tt, fl, a) && !HeadFail(W.g, W.d, t.p)
    requires (cs, e) == First(W.g, W.d, t.p, FULL) && n == Len(W, t.p, false, NoGuard, FULL)
    ensures var m := a + TestLen(cs, e);
            && CodeAt(W.code, a, TestCode(cs, e, TestLen(cs, e) + 2 + n + 1), W.pos)
            && 0 <= m < m + 2 + n < |W.code|
            && W.code[m] == IChoice(2 + n + 1)
            && At(W, t.p, false, NoGuard, FULL, m + 2)
            && W.code[m + 2 + n] == IFailTwice
            && Len(W, t, opt, tt, fl) == TestLen(cs, e) + 2 + n + 1
  {
    hide Gen, CodeAt, First, NotByStack;
    GenNot(W.g, W.d, t, opt, tt, fl);
    NotByStackParts(W, a, cs, e, Gen(W.g, W.d, t.p, false, NoGuard, FULL));
  }

  lemma GenNot(g: seq<Tree>, d: nat, t: Tree, opt: bool, tt: Guard, fl: Charset)
    requires t.TNot?
    ensures var (cs, e) := First(g, d, t.p, FULL);
            Gen(g, d, t, opt, tt, fl)
            == if HeadFail(g, d, t.p) then TestCode(cs, e, TestLen(cs, e) + 1) + [IFail]
               else NotByStack(cs, e, Gen(g, d, t.p, false, NoGuard, FULL))
  {
  }

  lemma NotByStackIs(cs: Charset, e: bool, c: Code)
    ensures NotByStack(cs, e, c)
         == TestCode(cs, e, TestLen(cs, e) + 2 + |c| + 1) + Emit(IChoice(2 + |c| + 1)) + c + [IFailTwice]
  {
    hide TestCode, TestLen, Emit;
  }

  lemma NotByStackParts(W: World, a: int, cs: Charset, e: bool, c: Code)
    requires CodeAt(W.code, a, NotByStack(cs, e, c), W.pos)
    ensures var m := a + TestLen(cs, e);
            && CodeAt(W.code, a, TestCode(cs, e, TestLen(cs, e) + 2 + |c| + 1), W.pos)
            && 0 <= m < m + 2 + |c| < |W.code|
            && W.code[m] == IChoice(2 + |c| + 1)
            && CodeAt(W.code, m + 2, c, W.pos)
            && W.code[m + 2 + |c|] == IFailTwice
  {
    hide *;
    var n := |c|;
    var test := TestCode(cs, e, TestLen(cs, e) + 2 + n + 1);
    NotByStackIs(cs, e, c);
    CodeAtSplit4(W.code, a, test, Emit(IChoice(2 + n + 1)), c, [IFailTwice], W.pos);
    EmitTwo(IChoice(2 + n + 1));
    CodeAtHead(W.code, a + TestLen(cs, e), IChoice(2 + n + 1), W.pos);
    CodeAtOne(W.code, a + TestLen(cs, e) + 2 + n, IFailTwice, W.pos);
  }

  lemma {:induction false} NotStackSound(W: World, t: Tree, opt: bool, tt: Guard, fl: Charset, a: int, i: nat,
          k: Stack, fuel: nat)
    requires t.TNot? && !HeadFail(W.g, W.d, t.p) && InScope(W, t) && At(W, t, opt, tt, fl, a)
    requires Starts(W, t, opt, tt, fl, i, k, fuel)
    ensures Arrives(W, opt, fl, Run(a, i, k), a + Len(W, t, opt, tt, fl), k, Peg(W.g, t, W.s, i, fuel))
    decreases fuel, 1
  {
    hide InScope, CodeAt, At, Len, First, Peg, HeadFail, Arrives;
    var (cs, e) := First(W.g, W.d, t.p, FULL);
    var n := Len(W, t.p, false, NoGuard, FULL);
    var m := a + TestLen(cs, e);
    ScopeParts(W, t);
    NotMeaning(W, t, i, fuel);
    NotStackShape(W, t, opt, tt, fl, a, cs, e, n);
    var r1 := Peg(W.g, t.p, W.s, i, fuel - 1);
    if e || Inside(W.s, i, cs) {
      GenSound(W, t.p, false, NoGuard, FULL, m + 2, i, Frame(Back(m + 2 + n + 1, i), k), fuel - 1);
    } else {
      TestMisses(W, t.p, i, fuel - 1);
    }
    NotByStackRuns(W, opt, fl, cs, e, n, a, i, k, r1);
  }

  lemma NotByStackRuns(W: World, opt: bool, fl: Charset, cs: Charset, e: bool, n: nat, a: int, i: nat, k: Stack,
          r1: Result)
    requires OptStack(opt, fl, k) && i <= |W.s| && !r1.Timeout?
    requires var m := a + TestLen(cs, e);
             && CodeAt(W.code, a, TestCode(cs, e, TestLen(cs, e) + 2 + n + 1), W.pos)
             && 0 <= m < m + 2 + n < |W.code|
             && W.code[m] == IChoice(2 + n + 1) && W.code[m + 2 + n] == IFailTwice
             && var k1 := Frame(Back(m + 2 + n + 1, i), k);
                if e || Inside(W.s, i, cs) then Arrives(W, false, FULL, Run(m + 2, i, k1), m + 2 + n, k1, r1)
                else r1.Fail?
    ensures Arrives(W, opt, fl, Run(a, i, k), a + TestLen(cs, e) + 2 + n + 1, k, if r1.Match? then Fail else Match(i))
  {
    hide CodeAt;
    var m := a + TestLen(cs, e);
    var b := m + 2 + n + 1;
    var k1 := Frame(Back(b, i), k);
    if !e { TestRuns(W, a, cs, b - a, i, k); }
    if e || Inside(W.s, i, cs) {
      Do(W, m, i, k);
      if r1.Match? { Do(W, b - 1, r1.pos, k1); }
    }
    if r1.Fail? { MatchArrives(W, opt, fl, Run(a, i, k), b, k, i); }
  }

  lemma AndFixedShape(W: World, t: Tree, opt: bool, tt: Guard, fl: Charset, a: int, n: nat)
    requires t.TAnd? && At(W, t, opt, tt, fl, a) && n == FixedLen(W.g, W.d, t.p) <= MAXBEHIND
    ensures At(W, t.p, false, tt, FULL, a)
    ensures CodeAt(W.code, a + Len(W, t.p, false, tt, FULL), BehindCode(n), W.pos)
    ensures Len(W, t, opt, tt, fl) == Len(W, t.p, false, tt, FULL) + |BehindCode(n)|
  {
    CodeAtSplit(W.code, a, Gen(W.g, W.d, t.p, false, tt, FULL), BehindCode(n), W.pos);
  }

  lemma {:induction false} AndFixedSound(W: World, t: Tree, opt: bool, tt: Guard, fl: Charset, a: int, i: nat,
          k: Stack, fuel: nat)
    requires t.TAnd? && 0 <= FixedLen(W.g, W.d, t.p) <= MAXBEHIND && InScope(W, t)
    requires At(W, t, opt, tt, fl, a) && Starts(W, t, opt, tt, fl, i, k, fuel)
    ensures Arrives(W, opt, fl, Run(a, i, k), a + Len(W, t, opt, tt, fl), k, Peg(W.g, t, W.s, i, fuel))
    decreases fuel, 1
  {
    hide InScope, CodeAt, At, Len;
    var n := FixedLen(W.g, W.d, t.p);
    ScopeParts(W, t);
    AndFixedShape(W, t, opt, tt, fl, a, n);
    GenSound(W, t.p, false, tt, FULL, a, i, k, fuel - 1);
    var r1 := Peg(W.g, t.p, W.s, i, fuel - 1);
    if r1.Match? {
      FixedLenSound(W.g, W.d, t.p, W.s, i, fuel - 1);
      BehindRuns(W, a + Len(W, t.p, false, tt, FULL), n, r1.pos, k);
      MatchArrives(W, opt, fl, Run(a, i, k), a + Len(W, t, opt, tt, fl), k, i);
    }
  }

  lemma GenAnd(g: seq<Tree>, d: nat, t: Tree, opt: bool, tt: Guard, fl: Charset)
    requires t.TAnd?
    ensures var (n, c) := (FixedLen(g, d, t.p), Gen(g, d, t.p, false, tt, FULL));
            Gen(g, d, t, opt, tt, fl) == if 0 <= n <= MAXBEHIND then c + BehindCode(n) else AndByStack(c)
  {
  }

  lemma AndByStackParts(W: World, a: int, c: Code)
    requires CodeAt(W.code, a, AndByStack(c), W.pos)
    ensures 0 <= a < a + 2 + |c| + 2 < |W.code|
    ensures W.code[a] == IChoice(2 + |c| + 2) && CodeAt(W.code, a + 2, c, W.pos)
    ensures W.code[a + 2 + |c|] == IBackCommit(3) && W.code[a + 2 + |c| + 2] == IFail
  {
    hide CodeAt;
    CodeAtSplit4(W.code, a, Emit(IChoice(2 + |c| + 2)), c, Emit(IBackCommit(3)), [IFail], W.pos);
    CodeAtHead(W.code, a, IChoice(2 + |c| + 2), W.pos);
    CodeAtHead(W.code, a + 2 + |c|, IBackCommit(3), W.pos);
    CodeAtOne(W.code, a + 2 + |c| + 2, IFail, W.pos);
  }

  lemma AndStackShape(W: World, t: Tree, opt: bool, tt: Guard, fl: Charset, a: int, n: nat)
    requires t.TAnd? && At(W, t, opt, tt, fl, a) && !(0 <= FixedLen(W.g, W.d, t.p) <= MAXBEHIND)
    requires n == Len(W, t.p, false, tt, FULL)
    ensures 0 <= a < a + 2 + n + 2 < |W.code|
    ensures W.code[a] == IChoice(2 + n + 2) && At(W, t.p, false, tt, FULL, a + 2)
    ensures W.code[a + 2 + n] == IBackCommit(3) && W.code[a + 2 + n + 2] == IFail
    ensures Len(W, t, opt, tt, fl) == 2 + n + 3
  {
    hide Gen, CodeAt, AndByStack;
    GenAnd(W.g, W.d, t, opt, tt, fl);
    AndByStackParts(W, a, Gen(W.g, W.d, t.p, false, tt, FULL));
  }

  lemma {:induction false} AndStackSound(W: World, t: Tree, opt: bool, tt: Guard, fl: Charset, a: int, i: nat,
          k: Stack, fuel: nat)
    requires t.TAnd? && !(0 <= FixedLen(W.g, W.d, t.p) <= MAXBEHIND) && InScope(W, t)
    requires At(W, t, opt, tt, fl, a) && Starts(W, t, opt, tt, fl, i, k, fuel)
    ensures Arrives(W, opt, fl, Run(a, i, k), a + Len(W, t, opt, tt, fl), k, Peg(W.g, t, W.s, i, fuel))
    decreases fuel, 1
  {
    hide InScope, CodeAt, At, Len, FixedLen;
    var n := Len(W, t.p, false, tt, FULL);
    ScopeParts(W, t);
    AndStackShape(W, t, opt, tt, fl, a, n);
    var k1 := Frame(Back(a + 2 + n + 2, i), k);
    Do(W, a, i, k);
    GenSound(W, t.p, false, tt, FULL, a + 2, i, k1, fuel - 1);
    var r1 := Peg(W.g, t.p, W.s, i, fuel - 1);
    if r1.Match? {
      Do(W, a + 2 + n, r1.pos, k1);
      MatchArrives(W, opt, fl, Run(a, i, k), a + 2 + n + 3, k, i);
    } else {
      Do(W, a + 2 + n + 2, i, k);
    }
  }

  lemma BehindShape(W: World, t: Tree, opt: bool, tt: Guard, fl: Charset, a: int)
    requires t.TBehind? && At(W, t, opt, tt, fl, a)
    ensures CodeAt(W.code, a, BehindCode(t.n), W.pos) && At(W, t.p, false, NoGuard, FULL, a + |BehindCode(t.n)|)
    ensures Len(W, t, opt, tt, fl) == |BehindCode(t.n)| + Len(W, t.p, false, NoGuard, FULL)
  {
    CodeAtSplit(W.code, a, BehindCode(t.n), Gen(W.g, W.d, t.p, false, NoGuard, FULL), W.pos);
  }

  lemma {:induction false} BehindSound(W: World, t: Tree, opt: bool, tt: Guard, fl: Charset, a: int, i: nat,
          k: Stack, fuel: nat)
    requires t.TBehind? && InScope(W, t) && At(W, t, opt, tt, fl, a) && Starts(W, t, opt, tt, fl, i, k, fuel)
    ensures Arrives(W, opt, fl, Run(a, i, k), a + Len(W, t, opt, tt, fl), k, Peg(W.g, t, W.s, i, fuel))
    decreases fuel, 1
  {
    hide InScope, CodeAt, At, Len;
    ScopeParts(W, t);
    BehindShape(W, t, opt, tt, fl, a);
    BehindRuns(W, a, t.n, i, k);
    if t.n <= i {
      var m := a + |BehindCode(t.n)|;
      GenSound(W, t.p, false, NoGuard, FULL, m, i - t.n, k, fuel - 1);
      if Peg(W.g, t.p, W.s, i - t.n, fuel - 1).Match? {
        FixedLenSound(W.g, W.w, t.p, W.s, i - t.n, fuel - 1);
        MatchArrives(W, opt, fl, Run(a, i, k), a + Len(W, t, opt, tt, fl), k, i);
      }
    }
  }

  // ---------- Calls and grammars ----------

  /** A call, tail or not, and the rule it goes to. */
  lemma CallShape(W: World, t: Tree, opt: bool, tt: Guard, fl: Charset, a: int)
    requires t.TCall? && InScope(W, t) && At(W, t, opt, tt, fl, a)
    ensures Len(W, t, opt, tt, fl) == 2 && t.rule < |W.g| && |W.pos| == |W.g| && 0 <= a < |W.code|
    ensures InScope(W, W.g[t.rule]) && RuleThere(W, t.rule)
    ensures || W.code[a] == ICall(W.pos[t.rule] - a)
            || (W.code[a] == IJmp(W.pos[t.rule] - a) && LeadsToReturn(W.code, a + 2))
  {
    LiveRuleCalls(W.g, W.w, t.rule);
    RuleIsThere(W, t.rule);
    assert Linked(W.code, a + 0, Emit(IOpenCall(t.rule))[0], W.pos);
  }

  /** The code of rule `r` and its return are at the position of the rule. */
  ghost predicate RuleThere(W: World, r: nat)
  {
    && r < |W.g| && r < |W.pos|
    && At(W, W.g[r], false, NoGuard, FULL, W.pos[r])
    && var b := W.pos[r] + Len(W, W.g[r], false, NoGuard, FULL); 0 <= b < |W.code| && W.code[b] == IRet
  }

  lemma RuleIsThere(W: World, r: nat)
    requires r < |W.g| && r < |W.pos| && CodeAt(W.code, W.pos[r], RuleCode(W.g, W.d, r), W.pos)
    ensures RuleThere(W, r)
  {
    var c := Gen(W.g, W.d, W.g[r], false, NoGuard, FULL);
    CodeAtSplit(W.code, W.pos[r], c, [IRet], W.pos);
    CodeAtOne(W.code, W.pos[r] + |c|, IRet, W.pos);
  }

  /** Running a rule to its return, whatever return address is on the stack. */
  lemma {:induction false} RuleSound(W: World, r: nat, i: nat, k: Stack, fuel: nat)
    requires RuleThere(W, r) && InScope(W, W.g[r]) && i <= |W.s| && !Peg(W.g, W.g[r], W.s, i, fuel).Timeout?
    ensures match Peg(W.g, W.g[r], W.s, i, fuel)
            case Match(j) =>
              Final(W, Run(W.pos[r], i, k))
              == Final(W, if k.Frame? && k.top.Ret? then Run(k.top.p, j, k.rest) else Stuck)
            case _ => Final(W, Run(W.pos[r], i, k)) == Final(W, FailTo(k))
    decreases fuel, 4
  {
    hide InScope, At, Len;
    GenSound(W, W.g[r], false, NoGuard, FULL, W.pos[r], i, k, fuel);
    var b := W.pos[r] + Len(W, W.g[r], false, NoGuard, FULL);
    var r1 := Peg(W.g, W.g[r], W.s, i, fuel);
    if r1.Match? { Do(W, b, r1.pos, k); }
  }

  lemma {:induction false} CallSound(W: World, t: Tree, opt: bool, tt: Guard, fl: Charset, a: int, i: nat, k: Stack,
          fuel: nat)
    requires t.TCall? && InScope(W, t) && At(W, t, opt, tt, fl, a) && Starts(W, t, opt, tt, fl, i, k, fuel)
    ensures Arrives(W, opt, fl, Run(a, i, k), a + Len(W, t, opt, tt, fl), k, Peg(W.g, t, W.s, i, fuel))
    decreases fuel, 1
  {
    hide InScope, At, Len, RuleThere;
    CallShape(W, t, opt, tt, fl, a);
    var p := W.pos[t.rule];
    var r1 := Peg(W.g, W.g[t.rule], W.s, i, fuel - 1);
    Do(W, a, i, k);
    if W.code[a] == ICall(p - a) {
      RuleSound(W, t.rule, i, Frame(Ret(a + 2), k), fuel - 1);
    } else {
      RuleSound(W, t.rule, i, k, fuel - 1);
      if r1.Match? { ReturnHere(W, a + 2, r1.pos, k); }
    }
    if r1.Match? { MatchArrives(W, opt, fl, Run(a, i, k), a + 2, k, r1.pos); }
  }

  /** Where jumps lead to a return, the outcome is that of returning. */
  lemma ReturnHere(W: World, q: int, j: nat, k: Stack)
    requires LeadsToReturn(W.code, q)
    ensures Final(W, Run(q, j, k)) == Final(W, if k.Frame? && k.top.Ret? then Run(k.top.p, j, k.rest) else Stuck)
  {
    var h: nat, f: int :| Chain(W.code, q, h, f) && 0 <= f < |W.code| && W.code[f].IRet?;
    ChainOut(W, q, h, f, j, k);
    Do(W, f, j, k);
  }

  /** The world inside a grammar whose code is at `a`. */
  ghost function Within(W: World, rs: seq<Tree>, a: int): World
  {
    W.(g := rs, pos := Positions(rs, W.d, a + 4))
  }

  lemma GrammarShape(W: World, t: Tree, opt: bool, tt: Guard, fl: Charset, a: int)
    requires t.TGrammar? && InScope(W, t) && At(W, t, opt, tt, fl, a)
    ensures |t.rules| > 0
            && var W' := Within(W, t.rules, a);
               InScope(W', t.rules[0]) && RuleThere(W', 0) && W'.pos[0] == a + 4
    ensures 0 <= a < a + 2 < |W.code| && W.code[a] == ICall(4)
    ensures W.code[a + 2] == IJmp(Len(W, t, opt, tt, fl) - 2)
  {
    var rs := t.rules;
    var body := RulesCode(rs, W.d, 0);
    var fixed := CorrectCalls(body, RulePositions(rs, W.d, 0, 0), 0);
    var head := Emit(ICall(4)) + Emit(IJmp(2 + |body|));
    assert Gen(W.g, W.d, t, opt, tt, fl) == head + fixed;
    assert CodeAt(W.code, a, head + fixed, W.pos) && WellFormed(W.g, W.w, t);
    assert Len(W, t, opt, tt, fl) == |head| + |fixed| == 4 + |body|;
    hide *;
    EmitTwo(ICall(4));
    CodeAtSplit(W.code, a, head, fixed, W.pos);
    CodeAtSplit(W.code, a, Emit(ICall(4)), Emit(IJmp(2 + |body|)), W.pos);
    CodeAtHead(W.code, a, ICall(4), W.pos);
    CodeAtHead(W.code, a + 2, IJmp(2 + |body|), W.pos);
    GrammarScope(W, rs, a);
  }

  lemma FirstPosition(rs: seq<Tree>, d: nat, a: int)
    requires |rs| > 0
    ensures Positions(rs, d, a)[0] == a
  {
    assert RulePositions(rs, d, 0, 0)[0] == 0;
  }

  lemma WithinIs(W: World, rs: seq<Tree>, a: int)
    ensures var W' := Within(W, rs, a);
            && W' == W.(g := rs, pos := Positions(rs, W.d, a + 4)) && |W'.pos| == |rs|
  {
  }

  lemma WellFormedGrammar(g: seq<Tree>, w: nat, rs: seq<Tree>)
    requires WellFormed(g, w, TGrammar(rs))
    ensures |rs| > 0 && Linkable(0, TGrammar(rs)) && RulesWellFormed(rs, w)
    ensures WellFormed(rs, w, rs[0]) && CallsLive(rs, rs[0])
  {
    LiveRuleCalls(rs, w, 0);
  }

  lemma ScopeOf(W: World, t: Tree)
    requires |W.pos| == |W.g| && RulesWellFormed(W.g, W.w) && WellFormed(W.g, W.w, t) && CallsLive(W.g, t)
    requires forall r | 0 <= r < |W.g| :: CodeAt(W.code, W.pos[r], RuleCode(W.g, W.d, r), W.pos)
    ensures InScope(W, t)
  {
  }

  lemma GrammarScope(W: World, rs: seq<Tree>, a: int)
    requires WellFormed(W.g, W.w, TGrammar(rs))
    requires CodeAt(W.code, a + 4, CorrectCalls(RulesCode(rs, W.d, 0), RulePositions(rs, W.d, 0, 0), 0), W.pos)
    ensures |rs| > 0 && var W' := Within(W, rs, a); InScope(W', rs[0]) && RuleThere(W', 0) && W'.pos[0] == a + 4
  {
    hide *;
    var W' := Within(W, rs, a);
    WithinIs(W, rs, a);
    WellFormedGrammar(W.g, W.w, rs);
    FirstPosition(rs, W.d, a + 4);
    forall r | 0 <= r < |rs| ensures CodeAt(W'.code, W'.pos[r], RuleCode(W'.g, W'.d, r), W'.pos) {
      GrammarLinks(W.code, W.pos, a + 4, rs, W.d, r);
    }
    RuleIsThere(W', 0);
    ScopeOf(W', rs[0]);
  }

  lemma {:induction false} GrammarSound(W: World, t: Tree, opt: bool, tt: Guard, fl: Charset, a: int, i: nat,
          k: Stack, fuel: nat)
    requires t.TGrammar? && InScope(W, t) && At(W, t, opt, tt, fl, a) && Starts(W, t, opt, tt, fl, i, k, fuel)
    ensures Arrives(W, opt, fl, Run(a, i, k), a + Len(W, t, opt, tt, fl), k, Peg(W.g, t, W.s, i, fuel))
    decreases fuel, 1
  {
    hide InScope, At, RuleThere, Len;
    GrammarShape(W, t, opt, tt, fl, a);
    var W' := Within(W, t.rules, a);
    var k1 := Frame(Ret(a + 2), k);
    Do(W, a, i, k);
    RuleSound(W', 0, i, k1, fuel - 1);
    var r1 := Peg(W'.g, t.rules[0], W.s, i, fuel - 1);
    if r1.Match? {
      Do(W, a + 2, r1.pos, k);
      MatchArrives(W, opt, fl, Run(a, i, k), a + Len(W, t, opt, tt, fl), k, r1.pos);
    }
  }


  // ---------- The theorem ----------

  /** The code of a whole pattern before jumps are optimised. */
  ghost function PatternCode(d: nat, t: Tree): Code
  {
    Gen([], d, t, false, NoGuard, FULL) + [IEnd]
  }

  lemma FuelFor(g: seq<Tree>, t: Tree, s: Subject, i: nat, r: Result) returns (fuel: nat)
    requires Means(g, t, s, i, r)
    ensures i <= |s| && !r.Timeout? && Peg(g, t, s, i, fuel) == r
  {
    fuel :| Peg(g, t, s, i, fuel) == r;
  }

  /** Outside all grammars no rule is in scope. */
  lemma TopScope(W: World, t: Tree)
    requires W.g == [] && W.pos == [] && WellFormed(W.g, W.w, t) && forall r | r in Calls(t) :: r < |W.g|
    ensures InScope(W, t)
  {
  }

  lemma StartIs(i: nat)
    ensures Start(i) == Run(0, i, Frame(Back(GIVEUP, i), Empty))
  {
  }

  lemma TopStarts(W: World, t: Tree, i: nat, k: Stack, fuel: nat)
    requires i <= |W.s| && !Peg(W.g, t, W.s, i, fuel).Timeout?
    ensures Starts(W, t, false, NoGuard, FULL, i, k, fuel) && OptStack(false, FULL, k)
  {
  }

  /** What a whole pattern arrives at: its end, or giving up. */
  lemma TopEnds(W: World, n: nat, i: nat, r: Result)
    requires n < |W.code| && W.code[n] == IEnd && i <= |W.s| && OptStack(false, FULL, Start(i).k)
    requires Arrives(W, false, FULL, Start(i), n, Start(i).k, r)
    ensures Out(W.code, W.s, Start(i)) == Done(r)
  {
    if r.Match? { Do(W, n, r.pos, Start(i).k); } else { Do(W, GIVEUP, i, Empty); }
    OutDone(W.code, W.s, Done(r));
  }

  /**
   * Running the compiled pattern from any position ends exactly as the pattern means, within the assertions of the
   * machine.
   */
  lemma CompileSound(w: nat, d: nat, t: Tree, s: Subject, i: nat, r: Result)
    requires WellFormed([], w, t) && Means([], t, s, i, r)
    ensures Out(PatternCode(d, t), s, Start(i)) == Done(r)
  {
    hide *;
    var code := PatternCode(d, t);
    var W := World(code, [], [], w, d, s);
    var fuel := FuelFor([], t, s, i, r);
    var n := Len(W, t, false, NoGuard, FULL);
    WellFormedLinkable([], w, t);
    WholeAt(W, t);
    CallsInRange([], w, t);
    var k := Frame(Back(GIVEUP, i), Empty);
    TopScope(W, t);
    StartIs(i);
    TopStarts(W, t, i, k, fuel);
    GenSound(W, t, false, NoGuard, FULL, 0, i, k, fuel);
    TopEnds(W, n, i, r);
  }

  lemma WholeLinked(code: Code, c: Code, pos: seq<int>)
    requires code == c + [IEnd] && Tidy(c, 0)
    ensures CodeAt(code, 0, c, pos) && code[|c|] == IEnd && WellSized(code)
  {
    WellSizedConcat(c, [IEnd]);
    hide WellSized;
    forall q | 0 <= q < |c| ensures Linked(code, 0 + q, c[q], pos) { assert code[q] == c[q]; }
  }

  lemma WholeAt(W: World, t: Tree)
    requires W.code == PatternCode(W.d, t) && W.g == [] && Linkable(0, t)
    ensures At(W, t, false, NoGuard, FULL, 0) && W.code[Len(W, t, false, NoGuard, FULL)] == IEnd
    ensures Len(W, t, false, NoGuard, FULL) + 1 == |W.code| && WellSized(W.code)
  {
    hide Tidy, CodeAt, WellSized, Linkable;
    var c := Gen([], W.d, t, false, NoGuard, FULL);
    GenTidy([], W.d, t, false, NoGuard, FULL, 0);
    WholeLinked(W.code, c, W.pos);
  }

  lemma {:induction false} WellFormedLinkable(g: seq<Tree>, w: nat, t: Tree)
    requires WellFormed(g, w, t)
    ensures Linkable(|g|, t)
    decreases t
  {
    match t
    case TRep(p) => WellFormedLinkable(g, w, p);
    case TNot(p) => WellFormedLinkable(g, w, p);
    case TAnd(p) => WellFormedLinkable(g, w, p);
    case TBehind(p, _) => WellFormedLinkable(g, w, p);
    case TSeq(p1, p2) => WellFormedLinkable(g, w, p1); WellFormedLinkable(g, w, p2);
    case TChoice(p1, p2) => WellFormedLinkable(g, w, p1); WellFormedLinkable(g, w, p2);
    case _ =>
  }
}
