/**
 * The budget for following calls is a device of this model only: beyond a bound it changes no analysis, code or
 * verdict.
 */
module PegBudget {
  import opened PegTree
  import opened PegAnalysis
  import opened PegMachine
  import opened PegCodegen
  import opened PegCompileSound
  import opened PegVerify
  import opened PegChains

  /** Budget that one level of grammar nesting may use up. */
  const LAYER: nat := 2 * MAXRULES + 2

  /** Rules in scope whose chains of calls are bounded, with grammars nested at most `h` deep. */
  ghost predicate Scoped(g: seq<Tree>, w: nat, h: nat)
  {
    && |g| <= MAXRULES && LAYER * h <= w
    && (forall r | 0 <= r < |g| && Live(g, r) :: LeftBounded(g, MAXRULES, w, g[r]))
    && (forall r | 0 <= r < |g| :: InScope(g, w, h, g[r]))
  }

  ghost predicate InScope(g: seq<Tree>, w: nat, h: nat, t: Tree)
  {
    GrammarsBounded(w, t) && Height(t) <= h && CallsLive(g, t)
  }

  lemma ScopeParts(g: seq<Tree>, w: nat, h: nat, t: Tree)
    requires InScope(g, w, h, t)
    ensures t.TRep? || t.TNot? || t.TAnd? || t.TBehind? ==> InScope(g, w, h, t.p)
    ensures t.TSeq? || t.TChoice? ==> InScope(g, w, h, t.p1) && InScope(g, w, h, t.p2)
    ensures t.TCall? ==> Live(g, t.rule)
  {
  }

  /** The rules of a nested grammar are a scope of their own, one level down. */
  lemma NestedScope(g: seq<Tree>, w: nat, h: nat, t: Tree)
    requires InScope(g, w, h, t) && t.TGrammar? && LAYER * h <= w
    ensures h > 0 && |t.rules| > 0 && Scoped(t.rules, w, h - 1) && LeftBounded(t.rules, MAXRULES, w, t.rules[0])
  {
    var rs := t.rules;
    assert Live(rs, 0);
    forall r | 0 <= r < |rs| ensures InScope(rs, w, h - 1, rs[r]) { RuleCallsLive(rs, r); }
  }

  // ---------- The analyses ----------

  lemma {:induction false} NullableIs(g: seq<Tree>, w: nat, h: nat, b: nat, d: nat, t: Tree)
    requires Scoped(g, w, h) && InScope(g, w, h, t) && LeftBounded(g, b, w, t) && b + LAYER * h <= d
    ensures Nullable(g, d, t) == LeftNullable(g, b, w, t)
    decreases h, b, t
  {
    hide Scoped, InScope;
    ScopeParts(g, w, h, t);
    match t
    case TSeq(p1, p2) =>
      NullableIs(g, w, h, b, d, p1);
      if LeftNullable(g, b, w, p1) { NullableIs(g, w, h, b, d, p2); }
    case TChoice(p1, p2) =>
      NullableIs(g, w, h, b, d, p1);
      NullableIs(g, w, h, b, d, p2);
    case TCall(r) =>
      RuleInScope(g, w, h, r);
      NullableIs(g, w, h, b - 1, d - 1, g[r]);
    case TGrammar(rs) =>
      EnoughWidth(g, w, h);
      NestedScope(g, w, h, t);
      ScopeRule(rs, w, h - 1, 0);
      NullableIs(rs, w, h - 1, MAXRULES, d, rs[0]);
      NullableIs(rs, w, h - 1, MAXRULES, w, rs[0]);
    case _ =>
  }

  lemma EnoughWidth(g: seq<Tree>, w: nat, h: nat)
    requires Scoped(g, w, h)
    ensures LAYER * h <= w
  {
  }

  lemma ScopeRule(g: seq<Tree>, w: nat, h: nat, r: nat)
    requires Scoped(g, w, h) && r < |g|
    ensures InScope(g, w, h, g[r])
  {
  }

  lemma RuleInScope(g: seq<Tree>, w: nat, h: nat, r: nat)
    requires Scoped(g, w, h) && Live(g, r)
    ensures InScope(g, w, h, g[r]) && LeftBounded(g, MAXRULES, w, g[r])
  {
  }

  lemma {:induction false} NofailSame(g: seq<Tree>, w: nat, h: nat, b: nat, d: nat, d': nat, t: Tree)
    requires Scoped(g, w, h) && InScope(g, w, h, t) && LeftBounded(g, b, w, t) && b + LAYER * h <= d
    requires b + LAYER * h <= d'
    ensures Nofail(g, d, t) == Nofail(g, d', t)
    decreases h, b, t
  {
    hide Scoped, InScope;
    ScopeParts(g, w, h, t);
    match t
    case TAnd(p) => NofailSame(g, w, h, b, d, d', p);
    case TSeq(p1, p2) =>
      NofailSame(g, w, h, b, d, d', p1);
      if Nofail(g, d, p1) {
        NofailIsNullable(g, d, p1);
        NullableIs(g, w, h, b, d, p1);
        NofailSame(g, w, h, b, d, d', p2);
      }
    case TChoice(p1, p2) =>
      NofailSame(g, w, h, b, d, d', p1);
      NofailSame(g, w, h, b, d, d', p2);
    case TCall(r) =>
      RuleInScope(g, w, h, r);
      NofailSame(g, w, h, b - 1, d - 1, d' - 1, g[r]);
    case TGrammar(rs) =>
      EnoughWidth(g, w, h);
      NestedScope(g, w, h, t);
      ScopeRule(rs, w, h - 1, 0);
      NofailSame(rs, w, h - 1, MAXRULES, d, d', rs[0]);
    case _ =>
  }

  lemma {:induction false} FirstSame(g: seq<Tree>, w: nat, h: nat, b: nat, d: nat, d': nat, t: Tree, follow: Charset)
    requires Scoped(g, w, h) && InScope(g, w, h, t) && LeftBounded(g, b, w, t) && b + LAYER * h <= d
    requires b + LAYER * h <= d'
    ensures First(g, d, t, follow) == First(g, d', t, follow)
    decreases h, b, t
  {
    hide Scoped, InScope;
    ScopeParts(g, w, h, t);
    match t
    case TAnd(p) => FirstSame(g, w, h, b, d, d', p, follow);
    case TRep(p) => FirstSame(g, w, h, b, d, d', p, follow);
    case TSeq(p1, p2) =>
      NullableIs(g, w, h, b, d, p1);
      NullableIs(g, w, h, b, d', p1);
      if !Nullable(g, d, p1) { FirstSame(g, w, h, b, d, d', p1, FULL); }
      else {
        FirstSame(g, w, h, b, d, d', p2, follow);
        FirstSame(g, w, h, b, d, d', p1, First(g, d, p2, follow).0);
      }
    case TChoice(p1, p2) =>
      FirstSame(g, w, h, b, d, d', p1, follow);
      FirstSame(g, w, h, b, d, d', p2, follow);
    case TCall(r) =>
      RuleInScope(g, w, h, r);
      FirstSame(g, w, h, b - 1, d - 1, d' - 1, g[r], follow);
    case TGrammar(rs) =>
      EnoughWidth(g, w, h);
      NestedScope(g, w, h, t);
      ScopeRule(rs, w, h - 1, 0);
      FirstSame(rs, w, h - 1, MAXRULES, d, d', rs[0], follow);
    case _ =>
  }

  lemma BoundedLater(g: seq<Tree>, w: nat, h: nat, t: Tree)
    requires Scoped(g, w, h) && InScope(g, w, h, t)
    ensures LeftBounded(g, MAXRULES + 1, w, t)
  {
    BoundedAnywhere(g, w, t);
  }

  lemma {:induction false} HeadFailSame(g: seq<Tree>, w: nat, h: nat, b: nat, d: nat, d': nat, t: Tree)
    requires Scoped(g, w, h) && InScope(g, w, h, t) && LeftBounded(g, b, w, t)
    requires b + MAXRULES + 1 + LAYER * h <= d && b + MAXRULES + 1 + LAYER * h <= d'
    ensures HeadFail(g, d, t) == HeadFail(g, d', t)
    decreases h, b, t
  {
    hide Scoped, InScope;
    ScopeParts(g, w, h, t);
    match t
    case TAnd(p) => HeadFailSame(g, w, h, b, d, d', p);
    case TSeq(p1, p2) =>
      HeadFailSame(g, w, h, b, d, d', p1);
      BoundedLater(g, w, h, p2);
      NofailSame(g, w, h, MAXRULES + 1, d, d', p2);
    case TChoice(p1, p2) =>
      HeadFailSame(g, w, h, b, d, d', p1);
      HeadFailSame(g, w, h, b, d, d', p2);
    case TCall(r) =>
      RuleInScope(g, w, h, r);
      HeadFailSame(g, w, h, b - 1, d - 1, d' - 1, g[r]);
    case TGrammar(rs) =>
      EnoughWidth(g, w, h);
      NestedScope(g, w, h, t);
      ScopeRule(rs, w, h - 1, 0);
      HeadFailSame(rs, w, h - 1, MAXRULES, d, d', rs[0]);
    case _ =>
  }

  // ---------- Fixed length: calls are followed once ----------

  ghost function Tall(g: seq<Tree>, t: Tree): nat
  {
    Max(Height(t), RulesHeight(g, |g|))
  }

  function AllRules(n: nat): (s: set<nat>)
    ensures |s| == n && forall r: nat :: r in s <==> r < n
  {
    if n == 0 then {} else AllRules(n - 1) + {n - 1}
  }

  /**
   * Fixed length as the code finds it: a call that is being followed already has none. `left` are the rules not
   * marked.
   */
  ghost function FixedLenMarked(g: seq<Tree>, left: set<nat>, t: Tree): (n: int)
    ensures n >= -1
    decreases Tall(g, t), left, t
  {
    match t
    case TChar(_) => 1
    case TSet(_) => 1
    case TAny => 1
    case TRep(_) => -1
    case TSeq(p1, p2) =>
      var n1, n2 := FixedLenMarked(g, left, p1), FixedLenMarked(g, left, p2);
      if n1 < 0 || n2 < 0 then -1 else n1 + n2
    case TChoice(p1, p2) =>
      var n1, n2 := FixedLenMarked(g, left, p1), FixedLenMarked(g, left, p2);
      if n1 != n2 || n1 < 0 then -1 else n1
    case TCall(r) => if r >= |g| || r !in left then -1 else FixedLenMarked(g, left - {r}, g[r])
    case TGrammar(rs) => if |rs| == 0 then -1 else FixedLenMarked(rs, AllRules(|rs|), rs[0])
    case _ => 0
  }

  lemma {:induction false} FixedLenMore(g: seq<Tree>, d: nat, d': nat, t: Tree)
    requires d <= d' && FixedLen(g, d, t) >= 0
    ensures FixedLen(g, d', t) == FixedLen(g, d, t)
    decreases d, t
  {
    match t
    case TSeq(p1, p2) => FixedLenMore(g, d, d', p1); FixedLenMore(g, d, d', p2);
    case TChoice(p1, p2) => FixedLenMore(g, d, d', p1); FixedLenMore(g, d, d', p2);
    case TCall(r) => FixedLenMore(g, d - 1, d' - 1, g[r]);
    case TGrammar(rs) => FixedLenMore(rs, d, d', rs[0]);
    case _ =>
  }

  lemma {:induction false} LeastBudget(g: seq<Tree>, d: nat, t: Tree) returns (k: nat)
    requires FixedLen(g, d, t) >= 0
    ensures k <= d && FixedLen(g, k, t) == FixedLen(g, d, t) && (k > 0 ==> FixedLen(g, k - 1, t) < 0)
  {
    k := d;
    if d > 0 && FixedLen(g, d - 1, t) >= 0 {
      FixedLenMore(g, d - 1, d, t);
      k := LeastBudget(g, d - 1, t);
    }
  }

  /** A length found within any budget is found by the code: no rule is met while it is being followed. */
  lemma {:induction false} FixedLenFound(g: seq<Tree>, left: set<nat>, d: nat, t: Tree)
    requires FixedLen(g, d, t) >= 0
    requires d > 0 ==> forall q: nat | q < |g| && q !in left :: FixedLen(g, d - 1, g[q]) < 0
    ensures FixedLenMarked(g, left, t) == FixedLen(g, d, t)
    decreases Tall(g, t), d, t, 1
  {
    match t
    case TSeq(p1, p2) => FixedLenFound(g, left, d, p1); FixedLenFound(g, left, d, p2);
    case TChoice(p1, p2) => FixedLenFound(g, left, d, p1); FixedLenFound(g, left, d, p2);
    case TCall(r) => FixedLenCalled(g, left, d, r);
    case TGrammar(rs) => FixedLenFound(rs, AllRules(|rs|), d, rs[0]);
    case _ =>
  }

  lemma {:induction false} FixedLenCalled(g: seq<Tree>, left: set<nat>, d: nat, r: nat)
    requires FixedLen(g, d, TCall(r)) >= 0
    requires d > 0 ==> forall q: nat | q < |g| && q !in left :: FixedLen(g, d - 1, g[q]) < 0
    ensures FixedLenMarked(g, left, TCall(r)) == FixedLen(g, d, TCall(r))
    decreases Tall(g, TCall(r)), d, TCall(r), 0
  {
    var k := LeastBudget(g, d - 1, g[r]);
    forall q: nat | k > 0 && q < |g| && q !in left - {r} ensures FixedLen(g, k - 1, g[q]) < 0 {
      if q != r && FixedLen(g, k - 1, g[q]) >= 0 { FixedLenMore(g, k - 1, d - 1, g[q]); }
    }
    FixedLenFound(g, left - {r}, k, g[r]);
  }

  /** A length that the code finds is found within a budget for each rule not marked. */
  lemma {:induction false} MarkedFound(g: seq<Tree>, w: nat, h: nat, left: set<nat>, d: nat, t: Tree)
    requires FixedLenMarked(g, left, t) >= 0 && |left| + LAYER * h <= d
    requires Scoped(g, w, h) && InScope(g, w, h, t)
    ensures FixedLen(g, d, t) == FixedLenMarked(g, left, t)
    decreases h, |left|, t
  {
    hide Scoped, InScope;
    ScopeParts(g, w, h, t);
    match t
    case TSeq(p1, p2) => MarkedFound(g, w, h, left, d, p1); MarkedFound(g, w, h, left, d, p2);
    case TChoice(p1, p2) => MarkedFound(g, w, h, left, d, p1); MarkedFound(g, w, h, left, d, p2);
    case TCall(r) =>
      RuleInScope(g, w, h, r);
      MarkedFound(g, w, h, left - {r}, d - 1, g[r]);
    case TGrammar(rs) =>
      EnoughWidth(g, w, h);
      NestedScope(g, w, h, t);
      ScopeRule(rs, w, h - 1, 0);
      FewRules(rs, w, h - 1);
      MarkedFound(rs, w, h - 1, AllRules(|rs|), d, rs[0]);
    case _ =>
  }

  lemma FewRules(g: seq<Tree>, w: nat, h: nat)
    requires Scoped(g, w, h)
    ensures |g| <= MAXRULES
  {
  }

  /** With a budget for every rule, the fixed length is the one the code finds by marking calls. */
  lemma FixedLenIs(g: seq<Tree>, w: nat, h: nat, d: nat, t: Tree)
    requires Scoped(g, w, h) && InScope(g, w, h, t) && MAXRULES + LAYER * h <= d
    ensures FixedLen(g, d, t) == FixedLenMarked(g, AllRules(|g|), t)
  {
    if FixedLen(g, d, t) >= 0 { FixedLenFound(g, AllRules(|g|), d, t); }
    else if FixedLenMarked(g, AllRules(|g|), t) >= 0 { MarkedFound(g, w, h, AllRules(|g|), d, t); }
  }

  // ---------- Generated code ----------

  /** Budgets `d` and `d'` are both enough for every analysis at this level. */
  predicate Enough(h: nat, d: nat, d': nat)
  {
    LAYER * (h + 1) <= d && LAYER * (h + 1) <= d'
  }

  lemma FirstAgrees(g: seq<Tree>, w: nat, h: nat, d: nat, d': nat, t: Tree, follow: Charset)
    requires Scoped(g, w, h) && InScope(g, w, h, t) && Enough(h, d, d')
    ensures First(g, d, t, follow) == First(g, d', t, follow)
  {
    BoundedLater(g, w, h, t);
    FirstSame(g, w, h, MAXRULES + 1, d, d', t, follow);
  }

  lemma HeadFailAgrees(g: seq<Tree>, w: nat, h: nat, d: nat, d': nat, t: Tree)
    requires Scoped(g, w, h) && InScope(g, w, h, t) && Enough(h, d, d')
    ensures HeadFail(g, d, t) == HeadFail(g, d', t)
  {
    BoundedLater(g, w, h, t);
    HeadFailSame(g, w, h, MAXRULES + 1, d, d', t);
  }

  lemma NullableAgrees(g: seq<Tree>, w: nat, h: nat, d: nat, d': nat, t: Tree)
    requires Scoped(g, w, h) && InScope(g, w, h, t) && Enough(h, d, d')
    ensures Nullable(g, d, t) == Nullable(g, d', t)
  {
    BoundedLater(g, w, h, t);
    NullableIs(g, w, h, MAXRULES + 1, d, t);
    NullableIs(g, w, h, MAXRULES + 1, d', t);
  }

  lemma FixedLenAgrees(g: seq<Tree>, w: nat, h: nat, d: nat, d': nat, t: Tree)
    requires Scoped(g, w, h) && InScope(g, w, h, t) && Enough(h, d, d')
    ensures FixedLen(g, d, t) == FixedLen(g, d', t)
  {
    FixedLenIs(g, w, h, d, t);
    FixedLenIs(g, w, h, d', t);
  }

  /** The same code is generated with every budget that is enough. */
  lemma {:induction false} GenSame(g: seq<Tree>, w: nat, h: nat, d: nat, d': nat, t: Tree, opt: bool, tt: Guard,
        fl: Charset)
    requires Scoped(g, w, h) && InScope(g, w, h, t) && Enough(h, d, d')
    ensures Gen(g, d, t, opt, tt, fl) == Gen(g, d', t, opt, tt, fl)
    decreases t, 1
  {
    hide *;
    if t.TSeq? {
      SeqSame(g, w, h, d, d', t, opt, tt, fl);
    } else if t.TChoice? {
      ChoiceSame(g, w, h, d, d', t, opt, tt, fl);
    } else if t.TRep? {
      RepSame(g, w, h, d, d', t, opt, tt, fl);
    } else if t.TNot? || t.TAnd? || t.TBehind? {
      LookSame(g, w, h, d, d', t, opt, tt, fl);
    } else if t.TGrammar? {
      EnoughWidth(g, w, h);
      NestedScope(g, w, h, t);
      LessNested(h, d, d');
      RulesSame(t.rules, w, h - 1, d, d', 0, 0);
      GenLevel(g, d, t, opt, tt, fl);
      GenLevel(g, d', t, opt, tt, fl);
    } else {
      LeafSame(g, d, d', t, opt, tt, fl);
    }
  }

  lemma {:induction false} LookSame(g: seq<Tree>, w: nat, h: nat, d: nat, d': nat, t: Tree, opt: bool, tt: Guard,
        fl: Charset)
    requires Scoped(g, w, h) && InScope(g, w, h, t) && Enough(h, d, d') && (t.TNot? || t.TAnd? || t.TBehind?)
    ensures Gen(g, d, t, opt, tt, fl) == Gen(g, d', t, opt, tt, fl)
    decreases t, 0
  {
    hide *;
    LookedAt(g, w, h, t);
    FirstAgrees(g, w, h, d, d', t.p, FULL);
    HeadFailAgrees(g, w, h, d, d', t.p);
    FixedLenAgrees(g, w, h, d, d', t.p);
    GenSame(g, w, h, d, d', t.p, false, NoGuard, FULL);
    GenSame(g, w, h, d, d', t.p, false, tt, FULL);
    if t.TNot? {
      GenNot(g, d, t, opt, tt, fl);
      GenNot(g, d', t, opt, tt, fl);
    } else if t.TAnd? {
      GenAnd(g, d, t, opt, tt, fl);
      GenAnd(g, d', t, opt, tt, fl);
    } else {
      GenBack(g, d, t, opt, tt, fl);
      GenBack(g, d', t, opt, tt, fl);
    }
  }

  lemma LookedAt(g: seq<Tree>, w: nat, h: nat, t: Tree)
    requires InScope(g, w, h, t) && (t.TNot? || t.TAnd? || t.TBehind?)
    ensures InScope(g, w, h, t.p)
  {
  }

  lemma GenBack(g: seq<Tree>, d: nat, t: Tree, opt: bool, tt: Guard, fl: Charset)
    requires t.TBehind?
    ensures Gen(g, d, t, opt, tt, fl) == BehindCode(t.n) + Gen(g, d, t.p, false, NoGuard, FULL)
  {
  }

  lemma GenLevel(g: seq<Tree>, d: nat, t: Tree, opt: bool, tt: Guard, fl: Charset)
    requires t.TGrammar?
    ensures var body := RulesCode(t.rules, d, 0);
            Gen(g, d, t, opt, tt, fl)
            == Emit(ICall(4)) + Emit(IJmp(2 + |body|)) + CorrectCalls(body, RulePositions(t.rules, d, 0, 0), 0)
  {
  }

  lemma LessNested(h: nat, d: nat, d': nat)
    requires h > 0 && Enough(h, d, d')
    ensures Enough(h - 1, d, d')
  {
  }

  lemma LeafSame(g: seq<Tree>, d: nat, d': nat, t: Tree, opt: bool, tt: Guard, fl: Charset)
    requires t.TChar? || t.TSet? || t.TAny? || t.TTrue? || t.TFalse? || t.TCall?
    ensures Gen(g, d, t, opt, tt, fl) == Gen(g, d', t, opt, tt, fl)
  {
  }

  lemma {:induction false} SeqSame(g: seq<Tree>, w: nat, h: nat, d: nat, d': nat, t: Tree, opt: bool, tt: Guard,
          fl: Charset)
    requires Scoped(g, w, h) && InScope(g, w, h, t) && Enough(h, d, d') && t.TSeq?
    ensures Gen(g, d, t, opt, tt, fl) == Gen(g, d', t, opt, tt, fl)
    decreases t, 0
  {
    hide Scoped, InScope, Enough, First, FixedLen;
    ScopeParts(g, w, h, t);
    var TSeq(p1, p2) := t;
    FirstAgrees(g, w, h, d, d', p2, fl);
    FixedLenAgrees(g, w, h, d, d', p1);
    var fl1 := if NeedFollow(p1) then First(g, d, p2, fl).0 else FULL;
    var tt2 := if FixedLen(g, d, p1) != 0 then NoGuard else tt;
    GenSame(g, w, h, d, d', p1, false, tt, fl1);
    GenSame(g, w, h, d, d', p2, opt, tt2, fl);
  }

  lemma {:induction false} ChoiceSame(g: seq<Tree>, w: nat, h: nat, d: nat, d': nat, t: Tree, opt: bool, tt: Guard,
          fl: Charset)
    requires Scoped(g, w, h) && InScope(g, w, h, t) && Enough(h, d, d') && t.TChoice?
    ensures Gen(g, d, t, opt, tt, fl) == Gen(g, d', t, opt, tt, fl)
    decreases t, 0
  {
    hide Scoped, InScope, Enough, First, HeadFail;
    ScopeParts(g, w, h, t);
    var TChoice(p1, p2) := t;
    FirstAgrees(g, w, h, d, d', p1, FULL);
    FirstAgrees(g, w, h, d, d', p2, fl);
    HeadFailAgrees(g, w, h, d, d', p1);
    var (cs1, e1) := First(g, d, p1, FULL);
    GenSame(g, w, h, d, d', p1, false, GuardOf(cs1), fl);
    GenSame(g, w, h, d, d', p2, opt, NoGuard, fl);
    GenSame(g, w, h, d, d', p1, true, NoGuard, FULL);
    GenSame(g, w, h, d, d', p1, p2.TTrue?, if e1 then NoGuard else GuardOf(cs1), FULL);
  }

  lemma {:induction false} RepSame(g: seq<Tree>, w: nat, h: nat, d: nat, d': nat, t: Tree, opt: bool, tt: Guard,
          fl: Charset)
    requires Scoped(g, w, h) && InScope(g, w, h, t) && Enough(h, d, d') && t.TRep?
    ensures Gen(g, d, t, opt, tt, fl) == Gen(g, d', t, opt, tt, fl)
    decreases t, 0
  {
    var p := t.p;
    if !ToCharset(p).0 {
      hide Scoped, InScope, Enough, Gen;
      ScopeParts(g, w, h, t);
      FirstAgrees(g, w, h, d, d', p, FULL);
      HeadFailAgrees(g, w, h, d, d', p);
      var cs := First(g, d, p, FULL).0;
      GenSame(g, w, h, d, d', p, false, GuardOf(cs), FULL);
      GenSame(g, w, h, d, d', p, false, NoGuard, FULL);
      GenRepTest(g, d, t, opt, tt, fl);
      GenRepTest(g, d', t, opt, tt, fl);
    }
  }

  lemma {:induction false} RuleSame(rs: seq<Tree>, w: nat, h: nat, d: nat, d': nat, r: nat)
    requires Scoped(rs, w, h) && Enough(h, d, d') && r < |rs|
    ensures RuleCode(rs, d, r) == RuleCode(rs, d', r)
    decreases rs, 1
  {
    hide Enough, Gen;
    ScopeRule(rs, w, h, r);
    GenSame(rs, w, h, d, d', rs[r], false, NoGuard, FULL);
  }

  lemma OneMoreRule(rs: seq<Tree>, d: nat, r: nat, at: nat)
    requires r < |rs|
    ensures RulesCode(rs, d, r) == RuleCode(rs, d, r) + RulesCode(rs, d, r + 1)
    ensures RulePositions(rs, d, r, at) == [at] + RulePositions(rs, d, r + 1, at + |RuleCode(rs, d, r)|)
  {
  }

  lemma NoRules(rs: seq<Tree>, d: nat, at: nat)
    ensures RulesCode(rs, d, |rs|) == [] && RulePositions(rs, d, |rs|, at) == []
  {
  }

  lemma {:induction false} RulesSame(rs: seq<Tree>, w: nat, h: nat, d: nat, d': nat, r: nat, at: nat)
    requires Scoped(rs, w, h) && Enough(h, d, d') && r <= |rs|
    ensures RulesCode(rs, d, r) == RulesCode(rs, d', r) && RulePositions(rs, d, r, at) == RulePositions(rs, d', r, at)
    decreases rs, 2, |rs| - r
  {
    hide *;
    if r < |rs| {
      RuleSame(rs, w, h, d, d', r);
      var next := at + |RuleCode(rs, d, r)|;
      RulesSame(rs, w, h, d, d', r + 1, next);
      OneMoreRule(rs, d, r, at);
      OneMoreRule(rs, d', r, at);
    } else {
      NoRules(rs, d, at);
      NoRules(rs, d', at);
    }
  }

  /** The code of a pattern does not depend on the budget, once that is enough for how grammars are nested in it. */
  lemma CodeSame(w: nat, d: nat, d': nat, t: Tree)
    requires Linkable(0, t) && GrammarsBounded(w, t) && LAYER * Height(t) <= w && Enough(Height(t), d, d')
    ensures PatternCode(d, t) == PatternCode(d', t)
  {
    LinkableCalls(0, t);
    GenSame([], w, Height(t), d, d', t, false, NoGuard, FULL);
  }

  // ---------- Verdicts ----------

  /** The grammars nested in the rules, and in `t`, are bounded. */
  ghost predicate Nested(g: seq<Tree>, w: nat, h: nat, t: Tree)
  {
    && LAYER * h <= w && GrammarsBounded(w, t) && Height(t) <= h
    && forall r | 0 <= r < |g| :: GrammarsBounded(w, g[r]) && Height(g[r]) <= h
  }

  lemma NestedNullable(g: seq<Tree>, w: nat, h: nat, d: nat, d': nat, t: Tree)
    requires Nested(g, w, h, t) && t.TGrammar? && Enough(h, d, d')
    ensures Nullable(g, d, t) == Nullable(g, d', t)
  {
    NestedScope(g, w, h, t);
    ScopeRule(t.rules, w, h - 1, 0);
    NullableAgrees(t.rules, w, h - 1, d, d', t.rules[0]);
  }

  lemma {:induction false} VerifyRuleSame(g: seq<Tree>, w: nat, h: nat, d: nat, d': nat, t: Tree, npassed: nat,
          nb: bool)
    requires Nested(g, w, h, t) && Enough(h, d, d')
    ensures VerifyRule(g, d, t, npassed, nb) == VerifyRule(g, d', t, npassed, nb)
    ensures GrammarsShow(g, d, t, npassed, nb) == GrammarsShow(g, d', t, npassed, nb)
    decreases MAXRULES - npassed, t
  {
    match t
    case TNot(p) => VerifyRuleSame(g, w, h, d, d', p, npassed, true);
    case TAnd(p) => VerifyRuleSame(g, w, h, d, d', p, npassed, true);
    case TRep(p) => VerifyRuleSame(g, w, h, d, d', p, npassed, true);
    case TCall(r) => if npassed < MAXRULES && r < |g| { VerifyRuleSame(g, w, h, d, d', g[r], npassed + 1, nb); }
    case TSeq(p1, p2) =>
      VerifyRuleSame(g, w, h, d, d', p1, npassed, false);
      VerifyRuleSame(g, w, h, d, d', p2, npassed, nb);
    case TChoice(p1, p2) =>
      VerifyRuleSame(g, w, h, d, d', p1, npassed, nb);
      var v := VerifyRule(g, d, p1, npassed, nb);
      if v.Accepted? { VerifyRuleSame(g, w, h, d, d', p2, npassed, v.nb); }
    case TGrammar(_) => NestedNullable(g, w, h, d, d', t);
    case _ =>
  }

  lemma {:induction false} LoopsSame(g: seq<Tree>, w: nat, h: nat, d: nat, d': nat, t: Tree)
    requires Scoped(g, w, h) && InScope(g, w, h, t) && Enough(h, d, d')
    ensures CheckLoops(g, d, t) == CheckLoops(g, d', t)
  {
    hide Scoped, InScope, Enough, Nullable;
    ScopeParts(g, w, h, t);
    match t
    case TRep(p) => NullableAgrees(g, w, h, d, d', p); LoopsSame(g, w, h, d, d', p);
    case TNot(p) => LoopsSame(g, w, h, d, d', p);
    case TAnd(p) => LoopsSame(g, w, h, d, d', p);
    case TBehind(p, _) => LoopsSame(g, w, h, d, d', p);
    case TSeq(p1, p2) => LoopsSame(g, w, h, d, d', p1); LoopsSame(g, w, h, d, d', p2);
    case TChoice(p1, p2) => LoopsSame(g, w, h, d, d', p1); LoopsSame(g, w, h, d, d', p2);
    case _ =>
  }

  lemma {:induction false} BehindsSame(g: seq<Tree>, w: nat, h: nat, d: nat, d': nat, t: Tree)
    requires Scoped(g, w, h) && InScope(g, w, h, t) && Enough(h, d, d')
    ensures BehindsMeasured(g, d, t) == BehindsMeasured(g, d', t)
  {
    hide Scoped, InScope, Enough, FixedLen;
    ScopeParts(g, w, h, t);
    match t
    case TRep(p) => BehindsSame(g, w, h, d, d', p);
    case TNot(p) => BehindsSame(g, w, h, d, d', p);
    case TAnd(p) => BehindsSame(g, w, h, d, d', p);
    case TBehind(p, _) => FixedLenAgrees(g, w, h, d, d', p); BehindsSame(g, w, h, d, d', p);
    case TSeq(p1, p2) => BehindsSame(g, w, h, d, d', p1); BehindsSame(g, w, h, d, d', p2);
    case TChoice(p1, p2) => BehindsSame(g, w, h, d, d', p1); BehindsSame(g, w, h, d, d', p2);
    case _ =>
  }

  lemma {:induction false} BuiltSame(d: nat, d': nat, t: Tree)
    requires Built(d, t) && Enough(Height(t), d, d')
    ensures Built(d', t)
    decreases t, 1
  {
    hide VerifyGrammar, Constructed, RulesHeight;
    match t
    case TRep(p) => BuiltSame(d, d', p);
    case TNot(p) => BuiltSame(d, d', p);
    case TAnd(p) => BuiltSame(d, d', p);
    case TBehind(p, _) => BuiltSame(d, d', p);
    case TSeq(p1, p2) => BuiltSame(d, d', p1); BuiltSame(d, d', p2);
    case TChoice(p1, p2) => BuiltSame(d, d', p1); BuiltSame(d, d', p2);
    case TGrammar(rs) => AcceptedStill(rs, d, d');
    case _ =>
  }

  /** A budget that is enough for a grammar is enough for its rules. */
  lemma AcceptedScope(rs: seq<Tree>, d: nat, d': nat)
    requires VerifyGrammar(rs, d) && Constructed(rs, d) && Enough(Height(TGrammar(rs)), d, d')
    ensures Scoped(rs, d, RulesHeight(rs, |rs|)) && Enough(RulesHeight(rs, |rs|), d, d')
  {
    hide *;
    var h := RulesHeight(rs, |rs|);
    GrammarHeight(rs, d, d');
    VerifiedSafe(rs, d);
    WellFormedLinkable([], d, TGrammar(rs));
    LinkableCalls(0, TGrammar(rs));
    InTopScope(d, h + 1, TGrammar(rs));
    NestedScope([], d, h + 1, TGrammar(rs));
  }

  lemma GrammarHeight(rs: seq<Tree>, d: nat, d': nat)
    requires Enough(Height(TGrammar(rs)), d, d')
    ensures var h := RulesHeight(rs, |rs|); Height(TGrammar(rs)) == h + 1 && LAYER * (h + 1) <= d && Enough(h, d, d')
  {
    hide RulesHeight;
  }

  lemma InTopScope(w: nat, h: nat, t: Tree)
    requires GrammarsBounded(w, t) && Height(t) == h && forall r | r in Calls(t) :: r < 0
    ensures InScope([], w, h, t)
  {
    hide GrammarsBounded, Height, Calls;
  }

  lemma AcceptedRule(rs: seq<Tree>, d: nat, d': nat, r: nat)
    requires Scoped(rs, d, RulesHeight(rs, |rs|)) && Enough(RulesHeight(rs, |rs|), d, d')
    requires Constructed(rs, d) && r < |rs|
    ensures Nested(rs, d, RulesHeight(rs, |rs|), rs[r]) && Enough(Height(rs[r]), d, d') && Built(d, rs[r])
  {
    hide Built, BehindsDescend, Linkable, BehindsMeasured, GrammarsShow, Live, GrammarsBounded, LeftBounded, CallsLive;
    hide Height;
  }

  /** The checks of a rule come to the same with either budget. */
  ghost predicate SameChecks(rs: seq<Tree>, d: nat, d': nat, r: nat)
    requires r < |rs|
  {
    && BehindsMeasured(rs, d', rs[r]) == BehindsMeasured(rs, d, rs[r])
    && VerifyRule(rs, d', rs[r], 0, false) == VerifyRule(rs, d, rs[r], 0, false)
    && GrammarsShow(rs, d', rs[r], 0, false) == GrammarsShow(rs, d, rs[r], 0, false)
    && CheckLoops(rs, d', rs[r]) == CheckLoops(rs, d, rs[r])
  }

  lemma RuleChecks(rs: seq<Tree>, h: nat, d: nat, d': nat, r: nat)
    requires Scoped(rs, d, h) && Enough(h, d, d') && r < |rs| && Nested(rs, d, h, rs[r])
    ensures SameChecks(rs, d, d', r)
  {
    hide Scoped, InScope, Enough, VerifyRule, GrammarsShow, CheckLoops, BehindsMeasured, Nested;
    ScopeRule(rs, d, h, r);
    BehindsSame(rs, d, h, d, d', rs[r]);
    LoopsSame(rs, d, h, d, d', rs[r]);
    VerifyRuleSame(rs, d, h, d, d', rs[r], 0, false);
  }

  lemma SameVerdict(rs: seq<Tree>, d: nat, d': nat)
    requires VerifyGrammar(rs, d) && Constructed(rs, d)
    requires forall r | 0 <= r < |rs| :: SameChecks(rs, d, d', r) && Built(d', rs[r])
    ensures VerifyGrammar(rs, d') && Constructed(rs, d')
  {
    hide VerifyRule, GrammarsShow, CheckLoops, BehindsMeasured, Built, Live, Linkable, BehindsDescend;
  }

  /** A grammar of sound shape accepted within some budget that is enough is accepted within every such budget. */
  lemma {:induction false} AcceptedStill(rs: seq<Tree>, d: nat, d': nat)
    requires VerifyGrammar(rs, d) && Constructed(rs, d) && Enough(Height(TGrammar(rs)), d, d')
    ensures VerifyGrammar(rs, d') && Constructed(rs, d')
    decreases TGrammar(rs), 0
  {
    hide *;
    AcceptedScope(rs, d, d');
    forall r | 0 <= r < |rs| ensures SameChecks(rs, d, d', r) && Built(d', rs[r]) {
      AcceptedRule(rs, d, d', r);
      RuleChecks(rs, RulesHeight(rs, |rs|), d, d', r);
      BuiltSame(d, d', rs[r]);
    }
    SameVerdict(rs, d, d');
  }

  /** The verdict on a grammar of sound shape does not depend on the budget, once that is enough. */
  lemma VerdictSame(rs: seq<Tree>, d: nat, d': nat)
    requires Enough(Height(TGrammar(rs)), d, d')
    ensures VerifyGrammar(rs, d) && Constructed(rs, d) <==> VerifyGrammar(rs, d') && Constructed(rs, d')
  {
    if VerifyGrammar(rs, d) && Constructed(rs, d) { AcceptedStill(rs, d, d'); }
    if VerifyGrammar(rs, d') && Constructed(rs, d') { AcceptedStill(rs, d', d); }
  }
}
