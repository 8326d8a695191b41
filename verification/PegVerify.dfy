/** The checks made when a grammar is built: accepted grammars have no left recursion and no empty loop. */
module PegVerify {
  import opened PegTree
  import opened PegAnalysis

  /** Most rules a grammar may have, and longest chain of calls followed without consuming. */
  const MAXRULES: nat := 250

  /** What checking a rule says: an error, or whether the pattern may match without consuming. */
  datatype Verdict = Rejected | Accepted(nb: bool)

  /** Follow the calls that `t` can reach before consuming. `npassed` rules were passed; `nb` accumulates. */
  function VerifyRule(g: seq<Tree>, d: nat, t: Tree, npassed: nat, nb: bool): Verdict
    decreases MAXRULES - npassed, t
  {
    match t
    case TChar(_) => Accepted(nb)
    case TSet(_) => Accepted(nb)
    case TAny => Accepted(nb)
    case TFalse => Accepted(nb)
    case TTrue => Accepted(true)
    case TBehind(_, _) => Accepted(true)
    case TNot(p) => VerifyRule(g, d, p, npassed, true)
    case TAnd(p) => VerifyRule(g, d, p, npassed, true)
    case TRep(p) => VerifyRule(g, d, p, npassed, true)
    case TCall(r) =>
      if npassed >= MAXRULES || r >= |g| then Rejected else VerifyRule(g, d, g[r], npassed + 1, nb)
    case TSeq(p1, p2) =>
      (match VerifyRule(g, d, p1, npassed, false)
       case Rejected => Rejected
       case Accepted(nb1) => if nb1 then VerifyRule(g, d, p2, npassed, nb) else Accepted(nb))
    case TChoice(p1, p2) =>
      (match VerifyRule(g, d, p1, npassed, nb)
       case Rejected => Rejected
       case Accepted(nb1) => VerifyRule(g, d, p2, npassed, nb1))
    case TGrammar(_) => Accepted(Nullable(g, d, t))
  }

  /** Whether `t` holds a loop whose body may match the empty string. */
  predicate CheckLoops(g: seq<Tree>, d: nat, t: Tree)
  {
    match t
    case TRep(p) => Nullable(g, d, p) || CheckLoops(g, d, p)
    case TNot(p) => CheckLoops(g, d, p)
    case TAnd(p) => CheckLoops(g, d, p)
    case TBehind(p, _) => CheckLoops(g, d, p)
    case TSeq(p1, p2) => CheckLoops(g, d, p1) || CheckLoops(g, d, p2)
    case TChoice(p1, p2) => CheckLoops(g, d, p1) || CheckLoops(g, d, p2)
    case _ => false
  }

  /** The check of a whole grammar: unused rules are skipped. */
  predicate VerifyGrammar(rs: seq<Tree>, d: nat)
  {
    && 0 < |rs| <= MAXRULES
    && (forall r | 0 <= r < |rs| && Live(rs, r) :: VerifyRule(rs, d, rs[r], 0, false).Accepted?)
    && (forall r | 0 <= r < |rs| && Live(rs, r) :: !CheckLoops(rs, d, rs[r]))
  }

  // ---------- Calls that are made without consuming ----------

  /** Whether `t` is nullable when `b` calls of the rules in scope are followed; nested grammars have budget `w`. */
  predicate LeftNullable(g: seq<Tree>, b: nat, w: nat, t: Tree)
    decreases b, t
  {
    match t
    case TChar(_) => false
    case TSet(_) => false
    case TAny => false
    case TFalse => false
    case TSeq(p1, p2) => LeftNullable(g, b, w, p1) && LeftNullable(g, b, w, p2)
    case TChoice(p1, p2) => LeftNullable(g, b, w, p2) || LeftNullable(g, b, w, p1)
    case TCall(r) => b == 0 || r >= |g| || LeftNullable(g, b - 1, w, g[r])
    case TGrammar(_) => Nullable(g, w, t)
    case _ => true
  }

  /** At most `b` calls in a row can be made from `t` before something is consumed. */
  predicate LeftBounded(g: seq<Tree>, b: nat, w: nat, t: Tree)
    decreases b, t
  {
    match t
    case TRep(p) => LeftBounded(g, b, w, p)
    case TNot(p) => LeftBounded(g, b, w, p)
    case TAnd(p) => LeftBounded(g, b, w, p)
    case TSeq(p1, p2) => LeftBounded(g, b, w, p1) && (LeftNullable(g, b, w, p1) ==> LeftBounded(g, b, w, p2))
    case TChoice(p1, p2) => LeftBounded(g, b, w, p1) && LeftBounded(g, b, w, p2)
    case TCall(r) => b > 0 && r < |g| && LeftBounded(g, b - 1, w, g[r])
    case _ => true
  }

  /** Calls of `t` have rank `k` at most, and those inside look-behinds a lower one. */
  predicate Ranked(rank: seq<nat>, k: nat, t: Tree)
  {
    match t
    case TRep(p) => Ranked(rank, k, p)
    case TNot(p) => Ranked(rank, k, p)
    case TAnd(p) => Ranked(rank, k, p)
    case TBehind(p, _) => Calls(p) == {} || (k > 0 && Ranked(rank, k - 1, p))
    case TSeq(p1, p2) => Ranked(rank, k, p1) && Ranked(rank, k, p2)
    case TChoice(p1, p2) => Ranked(rank, k, p1) && Ranked(rank, k, p2)
    case TCall(r) => r < |rank| && rank[r] <= k
    case _ => true
  }

  /** Ranks that show that no rule reaches itself through a look-behind. */
  ghost predicate RulesRanked(rank: seq<nat>, rs: seq<Tree>)
  {
    |rank| == |rs| && forall r | 0 <= r < |rs| :: Ranked(rank, rank[r], rs[r])
  }

  /** No rule reaches itself through a look-behind. */
  ghost predicate BehindsDescend(rs: seq<Tree>)
  {
    exists rank: seq<nat> :: RulesRanked(rank, rs)
  }

  /** No call is made from inside a look-behind of `t`. */
  predicate BehindsCallFree(t: Tree)
  {
    match t
    case TRep(p) => BehindsCallFree(p)
    case TNot(p) => BehindsCallFree(p)
    case TAnd(p) => BehindsCallFree(p)
    case TBehind(p, _) => Calls(p) == {}
    case TSeq(p1, p2) => BehindsCallFree(p1) && BehindsCallFree(p2)
    case TChoice(p1, p2) => BehindsCallFree(p1) && BehindsCallFree(p2)
    case _ => true
  }

  /** Look-behinds without calls are the simplest case. */
  lemma CallFreeDescend(rs: seq<Tree>)
    requires forall r | 0 <= r < |rs| :: BehindsCallFree(rs[r]) && Linkable(|rs|, rs[r])
    ensures BehindsDescend(rs)
  {
    var rank: seq<nat> := seq(|rs|, _ => 0);
    forall r | 0 <= r < |rs| ensures Ranked(rank, rank[r], rs[r]) { CallFreeRanked(rank, rs[r]); }
    assert RulesRanked(rank, rs);
  }

  lemma {:induction false} CallFreeRanked(rank: seq<nat>, t: Tree)
    requires BehindsCallFree(t) && Linkable(|rank|, t) && forall r | 0 <= r < |rank| :: rank[r] == 0
    ensures Ranked(rank, 0, t)
  {
    match t
    case TRep(p) => CallFreeRanked(rank, p);
    case TNot(p) => CallFreeRanked(rank, p);
    case TAnd(p) => CallFreeRanked(rank, p);
    case TSeq(p1, p2) => CallFreeRanked(rank, p1); CallFreeRanked(rank, p2);
    case TChoice(p1, p2) => CallFreeRanked(rank, p1); CallFreeRanked(rank, p2);
    case _ =>
  }

  lemma {:induction false} RankedMore(rank: seq<nat>, k: nat, k': nat, t: Tree)
    requires Ranked(rank, k, t) && k <= k'
    ensures Ranked(rank, k', t)
    decreases t
  {
    match t
    case TRep(p) => RankedMore(rank, k, k', p);
    case TNot(p) => RankedMore(rank, k, k', p);
    case TAnd(p) => RankedMore(rank, k, k', p);
    case TBehind(p, _) => if Calls(p) != {} { RankedMore(rank, k - 1, k' - 1, p); }
    case TSeq(p1, p2) => RankedMore(rank, k, k', p1); RankedMore(rank, k, k', p2);
    case TChoice(p1, p2) => RankedMore(rank, k, k', p1); RankedMore(rank, k, k', p2);
    case _ =>
  }

  /** The rules of every grammar in `t` are linked, bounded on the left, and reach no look-behind around them. */
  ghost predicate GrammarsBounded(w: nat, t: Tree)
    decreases t
  {
    match t
    case TRep(p) => GrammarsBounded(w, p)
    case TNot(p) => GrammarsBounded(w, p)
    case TAnd(p) => GrammarsBounded(w, p)
    case TBehind(p, _) => GrammarsBounded(w, p)
    case TSeq(p1, p2) => GrammarsBounded(w, p1) && GrammarsBounded(w, p2)
    case TChoice(p1, p2) => GrammarsBounded(w, p1) && GrammarsBounded(w, p2)
    case TGrammar(rs) =>
      && Linkable(0, t) && |rs| <= MAXRULES && BehindsDescend(rs)
      && (forall r | 0 <= r < |rs| && Live(rs, r) :: LeftBounded(rs, MAXRULES, w, rs[r]))
      && (forall r | 0 <= r < |rs| :: GrammarsBounded(w, rs[r]))
    case _ => true
  }

  /** Every look-behind of `t` outside nested grammars knows its length, as its constructor makes sure. */
  predicate BehindsMeasured(g: seq<Tree>, d: nat, t: Tree)
  {
    match t
    case TRep(p) => BehindsMeasured(g, d, p)
    case TNot(p) => BehindsMeasured(g, d, p)
    case TAnd(p) => BehindsMeasured(g, d, p)
    case TBehind(p, n) => FixedLen(g, d, p) == n && BehindsMeasured(g, d, p)
    case TSeq(p1, p2) => BehindsMeasured(g, d, p1) && BehindsMeasured(g, d, p2)
    case TChoice(p1, p2) => BehindsMeasured(g, d, p1) && BehindsMeasured(g, d, p2)
    case _ => true
  }

  /**
   * The checking of `t` meets no nested grammar whose answer replaces a true accumulator by false: the branch of
   * verifyrule for grammars forgets what it was given.
   */
  predicate GrammarsShow(g: seq<Tree>, d: nat, t: Tree, npassed: nat, nb: bool)
    decreases MAXRULES - npassed, t
  {
    match t
    case TNot(p) => GrammarsShow(g, d, p, npassed, true)
    case TAnd(p) => GrammarsShow(g, d, p, npassed, true)
    case TRep(p) => GrammarsShow(g, d, p, npassed, true)
    case TCall(r) => npassed >= MAXRULES || r >= |g| || GrammarsShow(g, d, g[r], npassed + 1, nb)
    case TSeq(p1, p2) =>
      && GrammarsShow(g, d, p1, npassed, false)
      && (VerifyRule(g, d, p1, npassed, false) == Accepted(true) ==> GrammarsShow(g, d, p2, npassed, nb))
    case TChoice(p1, p2) =>
      && GrammarsShow(g, d, p1, npassed, nb)
      && (var v := VerifyRule(g, d, p1, npassed, nb); v.Accepted? ==> GrammarsShow(g, d, p2, npassed, v.nb))
    case TGrammar(_) => nb ==> Nullable(g, d, t)
    case _ => true
  }

  /**
   * The check accepts exactly the patterns whose chains of calls stay within the bound, and what it then answers
   * is right, when no nested grammar hides the accumulator.
   */
  lemma {:induction false} VerifyRuleExact(g: seq<Tree>, d: nat, t: Tree, npassed: nat, nb: bool)
    requires npassed <= MAXRULES && GrammarsShow(g, d, t, npassed, nb)
    ensures VerifyRule(g, d, t, npassed, nb).Accepted? <==> LeftBounded(g, MAXRULES - npassed, d, t)
    ensures VerifyRule(g, d, t, npassed, nb).Accepted? ==>
              VerifyRule(g, d, t, npassed, nb).nb == (nb || LeftNullable(g, MAXRULES - npassed, d, t))
    decreases MAXRULES - npassed, t
  {
    match t
    case TNot(p) => VerifyRuleExact(g, d, p, npassed, true);
    case TAnd(p) => VerifyRuleExact(g, d, p, npassed, true);
    case TRep(p) => VerifyRuleExact(g, d, p, npassed, true);
    case TCall(r) => if npassed < MAXRULES && r < |g| { VerifyRuleExact(g, d, g[r], npassed + 1, nb); }
    case TSeq(p1, p2) =>
      VerifyRuleExact(g, d, p1, npassed, false);
      if VerifyRule(g, d, p1, npassed, false) == Accepted(true) { VerifyRuleExact(g, d, p2, npassed, nb); }
    case TChoice(p1, p2) =>
      VerifyRuleExact(g, d, p1, npassed, nb);
      var v := VerifyRule(g, d, p1, npassed, nb);
      if v.Accepted? { VerifyRuleExact(g, d, p2, npassed, v.nb); }
    case _ =>
  }

  /** What the check says of `t` is right: it is accepted when its chains of calls stay within the bound. */
  predicate Right(g: seq<Tree>, d: nat, t: Tree, npassed: nat, nb: bool)
    requires npassed <= MAXRULES
  {
    var v := VerifyRule(g, d, t, npassed, nb);
    && (v.Accepted? <==> LeftBounded(g, MAXRULES - npassed, d, t))
    && (v.Accepted? ==> v.nb == (nb || LeftNullable(g, MAXRULES - npassed, d, t)))
  }

  /** The check of `t` is right, and so are all checks of parts made on the way. */
  predicate AllRight(g: seq<Tree>, d: nat, t: Tree, npassed: nat, nb: bool)
    requires npassed <= MAXRULES
    decreases MAXRULES - npassed, t
  {
    && Right(g, d, t, npassed, nb)
    && match t
       case TNot(p) => AllRight(g, d, p, npassed, true)
       case TAnd(p) => AllRight(g, d, p, npassed, true)
       case TRep(p) => AllRight(g, d, p, npassed, true)
       case TCall(r) => npassed >= MAXRULES || r >= |g| || AllRight(g, d, g[r], npassed + 1, nb)
       case TSeq(p1, p2) =>
         && AllRight(g, d, p1, npassed, false)
         && (VerifyRule(g, d, p1, npassed, false) == Accepted(true) ==> AllRight(g, d, p2, npassed, nb))
       case TChoice(p1, p2) =>
         && AllRight(g, d, p1, npassed, nb)
         && (var v := VerifyRule(g, d, p1, npassed, nb); v.Accepted? ==> AllRight(g, d, p2, npassed, v.nb))
       case _ => true
  }

  /** Every answer on the way is right exactly when no nested grammar hides the accumulator. */
  lemma {:induction false} AnswersExact(g: seq<Tree>, d: nat, t: Tree, npassed: nat, nb: bool)
    requires npassed <= MAXRULES
    ensures AllRight(g, d, t, npassed, nb) <==> GrammarsShow(g, d, t, npassed, nb)
    decreases MAXRULES - npassed, t
  {
    if GrammarsShow(g, d, t, npassed, nb) { VerifyRuleExact(g, d, t, npassed, nb); }
    match t
    case TNot(p) => AnswersExact(g, d, p, npassed, true);
    case TAnd(p) => AnswersExact(g, d, p, npassed, true);
    case TRep(p) => AnswersExact(g, d, p, npassed, true);
    case TCall(r) => if npassed < MAXRULES && r < |g| { AnswersExact(g, d, g[r], npassed + 1, nb); }
    case TSeq(p1, p2) =>
      AnswersExact(g, d, p1, npassed, false);
      if VerifyRule(g, d, p1, npassed, false) == Accepted(true) { AnswersExact(g, d, p2, npassed, nb); }
    case TChoice(p1, p2) =>
      AnswersExact(g, d, p1, npassed, nb);
      var v := VerifyRule(g, d, p1, npassed, nb);
      if v.Accepted? { AnswersExact(g, d, p2, npassed, v.nb); }
    case _ =>
  }

  /** A later choice can still make the answer for the whole right. */
  lemma RightAgain(d: nat)
    ensures var t := TChoice(TNot(TChar(97)), TChoice(TGrammar([TAny]), TTrue));
            Right([], d, t, 0, false) && !AllRight([], d, t, 0, false)
  {
    var inner := TChoice(TGrammar([TAny]), TTrue);
    var t := TChoice(TNot(TChar(97)), inner);
    assert !Nullable([TAny], d, [TAny][0]);
    assert !Nullable([], d, TGrammar([TAny]));
    assert !GrammarsShow([], d, TGrammar([TAny]), 0, true);
    assert VerifyRule([], d, TNot(TChar(97)), 0, false) == Accepted(true);
    assert !GrammarsShow([], d, inner, 0, true);
    AnswersExact([], d, t, 0, false);
  }

  // ---------- Bounded patterns stop ----------

  /** How deep grammars are nested in `t`. */
  function Height(t: Tree): nat
    decreases t
  {
    match t
    case TRep(p) => Height(p)
    case TNot(p) => Height(p)
    case TAnd(p) => Height(p)
    case TBehind(p, _) => Height(p)
    case TSeq(p1, p2) => Max(Height(p1), Height(p2))
    case TChoice(p1, p2) => Max(Height(p1), Height(p2))
    case TGrammar(rs) => 1 + RulesHeight(rs, |rs|)
    case _ => 0
  }

  function Max(a: nat, b: nat): nat
  {
    if a < b then b else a
  }

  /** The nesting of the first `n` rules. */
  function RulesHeight(rs: seq<Tree>, n: nat): (h: nat)
    requires n <= |rs|
    ensures forall r | 0 <= r < n :: Height(rs[r]) <= h
    decreases rs, n
  {
    if n == 0 then 0 else Max(RulesHeight(rs, n - 1), Height(rs[n - 1]))
  }

  /** Rules in scope, the budget they were built with, ranks for their look-behinds and a bound for their nesting. */
  datatype Rules = Rules(g: seq<Tree>, w: nat, rank: seq<nat>, h: nat)

  /** What the checks and the constructors establish about the rules of a grammar. */
  ghost predicate Safe(R: Rules)
  {
    && RulesWellFormed(R.g, R.w) && RulesRanked(R.rank, R.g)
    && (forall r | 0 <= r < |R.g| && Live(R.g, r) :: LeftBounded(R.g, MAXRULES, R.w, R.g[r]))
    && (forall r | 0 <= r < |R.g| :: GrammarsBounded(R.w, R.g[r]) && Height(R.g[r]) <= R.h)
  }

  /** What holds for every part of a rule: `k` bounds the rank of the rules it reaches. */
  ghost predicate PartOf(R: Rules, k: nat, t: Tree)
  {
    && WellFormed(R.g, R.w, t) && CallsLive(R.g, t) && GrammarsBounded(R.w, t) && Height(t) <= R.h
    && Ranked(R.rank, k, t)
  }

  lemma SafeRule(R: Rules, k: nat, r: nat)
    requires Safe(R) && r < |R.g| && Live(R.g, r) && r < |R.rank| && R.rank[r] <= k
    ensures PartOf(R, k, R.g[r]) && LeftBounded(R.g, MAXRULES, R.w, R.g[r])
  {
    LiveRuleCalls(R.g, R.w, r);
    RankedMore(R.rank, R.rank[r], k, R.g[r]);
  }

  /** The rules of a nested grammar are safe in their own right. */
  lemma NestedSafe(w: nat, rs: seq<Tree>) returns (R: Rules)
    requires WellFormed([], w, TGrammar(rs)) && GrammarsBounded(w, TGrammar(rs))
    ensures R.g == rs && R.w == w && R.h == RulesHeight(rs, |rs|) && Safe(R)
  {
    var rank: seq<nat> :| RulesRanked(rank, rs);
    R := Rules(rs, w, rank, RulesHeight(rs, |rs|));
  }

  /** From anywhere in a rule, one more call than from its start. */
  lemma {:induction false} BoundedAnywhere(g: seq<Tree>, w: nat, t: Tree)
    requires forall r | 0 <= r < |g| && Live(g, r) :: LeftBounded(g, MAXRULES, w, g[r])
    requires CallsLive(g, t)
    ensures LeftBounded(g, MAXRULES + 1, w, t)
  {
    match t
    case TRep(p) => BoundedAnywhere(g, w, p);
    case TNot(p) => BoundedAnywhere(g, w, p);
    case TAnd(p) => BoundedAnywhere(g, w, p);
    case TSeq(p1, p2) => BoundedAnywhere(g, w, p1); BoundedAnywhere(g, w, p2);
    case TChoice(p1, p2) => BoundedAnywhere(g, w, p1); BoundedAnywhere(g, w, p2);
    case TCall(r) => assert Live(g, r);
    case _ =>
  }

  /** A match that consumes nothing comes from a pattern that is nullable on the left. */
  lemma {:induction false} LeftNullableSound(g: seq<Tree>, b: nat, w: nat, t: Tree, s: Subject, i: nat, fuel: nat)
    requires i <= |s| && Peg(g, t, s, i, fuel) == Match(i)
    ensures LeftNullable(g, b, w, t)
    decreases b, fuel
  {
    match t
    case TSeq(p1, p2) =>
      LeftNullableSound(g, b, w, p1, s, i, fuel - 1);
      LeftNullableSound(g, b, w, p2, s, i, fuel - 1);
    case TChoice(p1, p2) =>
      if Peg(g, p1, s, i, fuel - 1).Fail? { LeftNullableSound(g, b, w, p2, s, i, fuel - 1); }
      else { LeftNullableSound(g, b, w, p1, s, i, fuel - 1); }
    case TCall(r) => if b > 0 && r < |g| { LeftNullableSound(g, b - 1, w, g[r], s, i, fuel - 1); }
    case TGrammar(_) => NullableSound(g, w, t, s, i, fuel);
    case _ =>
  }

  /** Fuel that is enough for both of two matches, and one more. */
  lemma TwoParts(g: seq<Tree>, p: Tree, s: Subject, i: nat, f: nat, q: Tree, j: nat, f': nat) returns (fuel: nat)
    requires i <= |s| && j <= |s| && !Peg(g, p, s, i, f).Timeout? && !Peg(g, q, s, j, f').Timeout?
    ensures fuel > 0 && Peg(g, p, s, i, fuel - 1) == Peg(g, p, s, i, f)
    ensures Peg(g, q, s, j, fuel - 1) == Peg(g, q, s, j, f')
  {
    fuel := (if f >= f' then f else f') + 1;
    PegMonotone(g, p, s, i, f, fuel - 1);
    PegMonotone(g, q, s, j, f', fuel - 1);
  }

  /** The rules of a grammar stop from their first one. */
  lemma {:induction false} GrammarStops(w: nat, h: nat, rs: seq<Tree>, s: Subject, i: nat) returns (fuel: nat)
    requires WellFormed([], w, TGrammar(rs)) && GrammarsBounded(w, TGrammar(rs))
    requires RulesHeight(rs, |rs|) <= h && i <= |s|
    ensures !Peg(rs, rs[0], s, i, fuel).Timeout?
    decreases h, 2, 0, 0, 0, TTrue, 0
  {
    var R := NestedSafe(w, rs);
    R := R.(h := h);
    SafeRule(R, R.rank[0], 0);
    fuel := Stops(R, R.rank[0], MAXRULES, rs[0], s, i);
  }

  lemma CallFreeChildren(g: seq<Tree>, w: nat, h: nat, t: Tree)
    requires CallFree(g, w, h, t)
    ensures t.TRep? || t.TNot? || t.TAnd? || t.TBehind? ==> CallFree(g, w, h, t.p)
    ensures t.TRep? ==> !Nullable(g, w, t.p)
    ensures t.TSeq? || t.TChoice? ==> CallFree(g, w, h, t.p1) && CallFree(g, w, h, t.p2)
    ensures !t.TCall?
    ensures t.TGrammar? ==> h > 0 && RulesHeight(t.rules, |t.rules|) <= h - 1
    ensures t.TGrammar? ==> WellFormed([], w, t) && GrammarsBounded(w, t)
  {
  }

  ghost predicate CallFree(g: seq<Tree>, w: nat, h: nat, t: Tree)
  {
    WellFormed(g, w, t) && Calls(t) == {} && GrammarsBounded(w, t) && Height(t) <= h
  }

  lemma {:induction false} CallFreeRep(g: seq<Tree>, w: nat, h: nat, t: Tree, s: Subject, i: nat) returns (fuel: nat)
    requires CallFree(g, w, h, t) && i <= |s| && t.TRep?
    ensures !Peg(g, t, s, i, fuel).Timeout?
    decreases h, 0, 0, 0, 0, t, |s| - i, 0
  {
    CallFreeChildren(g, w, h, t);
    hide CallFree, Nullable;
    var p := t.p;
    var f := CallFreeStops(g, w, h, p, s, i);
    var r := Peg(g, p, s, i, f);
    if r.Match? {
      if r.pos == i { NullableSound(g, w, p, s, i, f); }
      var f' := CallFreeStops(g, w, h, t, s, r.pos);
      fuel := TwoParts(g, p, s, i, f, t, r.pos, f');
    } else { fuel := f + 1; }
  }

  lemma {:induction false} CallFreeSeq(g: seq<Tree>, w: nat, h: nat, t: Tree, s: Subject, i: nat) returns (fuel: nat)
    requires CallFree(g, w, h, t) && i <= |s| && t.TSeq?
    ensures !Peg(g, t, s, i, fuel).Timeout?
    decreases h, 0, 0, 0, 0, t, |s| - i, 0
  {
    CallFreeChildren(g, w, h, t);
    hide CallFree;
    var TSeq(p1, p2) := t;
    var f := CallFreeStops(g, w, h, p1, s, i);
    var r := Peg(g, p1, s, i, f);
    if r.Match? {
      var f' := CallFreeStops(g, w, h, p2, s, r.pos);
      fuel := TwoParts(g, p1, s, i, f, p2, r.pos, f');
    } else { fuel := f + 1; }
  }

  /** Patterns that call no rule in scope stop, wherever they start. */
  lemma {:induction false} CallFreeStops(g: seq<Tree>, w: nat, h: nat, t: Tree, s: Subject, i: nat) returns (fuel: nat)
    requires CallFree(g, w, h, t) && i <= |s|
    ensures !Peg(g, t, s, i, fuel).Timeout?
    decreases h, 0, 0, 0, 0, t, |s| - i, 1
  {
    fuel := 1;
    CallFreeChildren(g, w, h, t);
    hide WellFormed, Calls, GrammarsBounded, Nullable;
    match t
    case TRep(_) => fuel := CallFreeRep(g, w, h, t, s, i);
    case TSeq(_, _) => fuel := CallFreeSeq(g, w, h, t, s, i);
    case TChoice(p1, p2) =>
      var f := CallFreeStops(g, w, h, p1, s, i);
      var f' := CallFreeStops(g, w, h, p2, s, i);
      fuel := TwoParts(g, p1, s, i, f, p2, i, f');
    case TNot(p) =>
      var f := CallFreeStops(g, w, h, p, s, i);
      fuel := f + 1;
    case TAnd(p) =>
      var f := CallFreeStops(g, w, h, p, s, i);
      fuel := f + 1;
    case TBehind(p, n) =>
      if n <= i {
        var f := CallFreeStops(g, w, h, p, s, i - n);
        fuel := f + 1;
      }
    case TGrammar(rs) =>
      var f := GrammarStops(w, h - 1, rs, s, i);
      fuel := f + 1;
    case _ =>
  }

  /** What holds for a part of a rule holds for its parts. */
  lemma PartChildren(R: Rules, k: nat, t: Tree)
    requires PartOf(R, k, t)
    ensures t.TRep? || t.TNot? || t.TAnd? ==> PartOf(R, k, t.p)
    ensures t.TRep? ==> !Nullable(R.g, R.w, t.p)
    ensures t.TSeq? || t.TChoice? ==> PartOf(R, k, t.p1) && PartOf(R, k, t.p2)
    ensures t.TBehind? && Calls(t.p) != {} ==> k > 0 && PartOf(R, k - 1, t.p)
    ensures t.TBehind? ==> WellFormed(R.g, R.w, t.p) && GrammarsBounded(R.w, t.p) && Height(t.p) <= R.h
    ensures t.TCall? ==> Live(R.g, t.rule) && t.rule < |R.rank| && R.rank[t.rule] <= k
  {
    if t.TBehind? {} else if t.TSeq? || t.TChoice? {} else {}
  }

  lemma PartGrammar(R: Rules, k: nat, t: Tree)
    requires PartOf(R, k, t) && t.TGrammar?
    ensures R.h > 0 && RulesHeight(t.rules, |t.rules|) <= R.h - 1 && WellFormed([], R.w, t) && GrammarsBounded(R.w, t)
  {
  }

  /**
   * Matching stops: each step leaves a grammar or the scope of a look-behind, or consumes, or makes one of a
   * bounded number of calls, or goes into a part.
   */
  lemma {:induction false} Stops(R: Rules, k: nat, b: nat, t: Tree, s: Subject, i: nat) returns (fuel: nat)
    requires Safe(R) && PartOf(R, k, t) && LeftBounded(R.g, b, R.w, t) && i <= |s|
    ensures !Peg(R.g, t, s, i, fuel).Timeout?
    decreases R.h, 1, k, |s| - i, b, t, 1
  {
    fuel := 1;
    hide Safe, PartOf, WellFormed, CallsLive, GrammarsBounded, Ranked, Nullable, LeftNullable;
    PartChildren(R, k, t);
    match t
    case TRep(_) => fuel := RepStops(R, k, b, t, s, i);
    case TSeq(_, _) => fuel := SeqStops(R, k, b, t, s, i);
    case TChoice(_, _) => fuel := ChoiceStops(R, k, b, t, s, i);
    case TNot(p) =>
      var f := Stops(R, k, b, p, s, i);
      fuel := f + 1;
    case TAnd(p) =>
      var f := Stops(R, k, b, p, s, i);
      fuel := f + 1;
    case TBehind(_, _) => fuel := BehindStops(R, k, b, t, s, i);
    case TCall(r) =>
      SafeRule(R, k, r);
      var f := Stops(R, k, b - 1, R.g[r], s, i);
      fuel := f + 1;
    case TGrammar(rs) =>
      PartGrammar(R, k, t);
      var f := GrammarStops(R.w, R.h - 1, rs, s, i);
      fuel := f + 1;
    case _ =>
  }

  lemma {:induction false} RepStops(R: Rules, k: nat, b: nat, t: Tree, s: Subject, i: nat) returns (fuel: nat)
    requires Safe(R) && PartOf(R, k, t) && LeftBounded(R.g, b, R.w, t) && i <= |s| && t.TRep?
    ensures !Peg(R.g, t, s, i, fuel).Timeout?
    decreases R.h, 1, k, |s| - i, b, t, 0
  {
    hide Safe, PartOf, Nullable, LeftNullable;
    var p := t.p;
    PartChildren(R, k, t);
    var f := Stops(R, k, b, p, s, i);
    var r := Peg(R.g, p, s, i, f);
    if r.Match? {
      if r.pos == i { NullableSound(R.g, R.w, p, s, i, f); }
      var f' := StopsAnywhere(R, k, t, s, r.pos);
      fuel := TwoParts(R.g, p, s, i, f, t, r.pos, f');
    } else { fuel := f + 1; }
  }

  lemma {:induction false} ChoiceStops(R: Rules, k: nat, b: nat, t: Tree, s: Subject, i: nat) returns (fuel: nat)
    requires Safe(R) && PartOf(R, k, t) && LeftBounded(R.g, b, R.w, t) && i <= |s| && t.TChoice?
    ensures !Peg(R.g, t, s, i, fuel).Timeout?
    decreases R.h, 1, k, |s| - i, b, t, 0
  {
    hide Safe, PartOf, LeftNullable;
    var TChoice(p1, p2) := t;
    PartChildren(R, k, t);
    var f := Stops(R, k, b, p1, s, i);
    var f' := Stops(R, k, b, p2, s, i);
    fuel := TwoParts(R.g, p1, s, i, f, p2, i, f');
  }

  lemma {:induction false} BehindStops(R: Rules, k: nat, b: nat, t: Tree, s: Subject, i: nat) returns (fuel: nat)
    requires Safe(R) && PartOf(R, k, t) && i <= |s| && t.TBehind?
    ensures !Peg(R.g, t, s, i, fuel).Timeout?
    decreases R.h, 1, k, |s| - i, b, t, 0
  {
    hide Safe, PartOf;
    var TBehind(p, n) := t;
    PartChildren(R, k, t);
    fuel := 1;
    if n <= i {
      var f;
      if Calls(p) == {} { f := CallFreeStops(R.g, R.w, R.h, p, s, i - n); }
      else { f := StopsAnywhere(R, k - 1, p, s, i - n); }
      fuel := f + 1;
    }
  }

  lemma {:induction false} SeqStops(R: Rules, k: nat, b: nat, t: Tree, s: Subject, i: nat) returns (fuel: nat)
    requires Safe(R) && PartOf(R, k, t) && LeftBounded(R.g, b, R.w, t) && i <= |s| && t.TSeq?
    ensures !Peg(R.g, t, s, i, fuel).Timeout?
    decreases R.h, 1, k, |s| - i, b, t, 0
  {
    hide Safe, PartOf, LeftNullable;
    var TSeq(p1, p2) := t;
    PartChildren(R, k, t);
    var f := Stops(R, k, b, p1, s, i);
    var r := Peg(R.g, p1, s, i, f);
    if r.Match? {
      var f';
      if r.pos == i {
        LeftNullableSound(R.g, b, R.w, p1, s, i, f);
        f' := Stops(R, k, b, p2, s, i);
      } else {
        f' := StopsAnywhere(R, k, p2, s, r.pos);
      }
      fuel := TwoParts(R.g, p1, s, i, f, p2, r.pos, f');
    } else { fuel := f + 1; }
  }

  /** Away from the start of a rule, one more call can be made. */
  lemma {:induction false} StopsAnywhere(R: Rules, k: nat, t: Tree, s: Subject, i: nat) returns (fuel: nat)
    requires Safe(R) && PartOf(R, k, t) && i <= |s|
    ensures !Peg(R.g, t, s, i, fuel).Timeout?
    decreases R.h, 1, k, |s| - i, MAXRULES + 2, t, 0
  {
    BoundedAnywhere(R.g, R.w, t);
    fuel := Stops(R, k, MAXRULES + 1, t, s, i);
  }

  /** A well-formed pattern with bounded grammars matches or fails on every subject, in finitely many steps. */
  lemma PatternStops(w: nat, t: Tree, s: Subject, i: nat) returns (r: Result)
    requires WellFormed([], w, t) && GrammarsBounded(w, t) && i <= |s|
    ensures Means([], t, s, i, r)
  {
    CallsInRange([], w, t);
    assert Calls(t) == {};
    var fuel := CallFreeStops([], w, Height(t), t, s, i);
    r := Peg([], t, s, i, fuel);
  }

  // ---------- Accepted grammars are bounded ----------

  /** Every grammar nested in `t` passed its own check when it was built. */
  ghost predicate Built(d: nat, t: Tree)
    decreases t
  {
    match t
    case TRep(p) => Built(d, p)
    case TNot(p) => Built(d, p)
    case TAnd(p) => Built(d, p)
    case TBehind(p, _) => Built(d, p)
    case TSeq(p1, p2) => Built(d, p1) && Built(d, p2)
    case TChoice(p1, p2) => Built(d, p1) && Built(d, p2)
    case TGrammar(rs) => VerifyGrammar(rs, d) && Constructed(rs, d)
    case _ => true
  }

  /** Rules as the constructors make them, with neither of the two shapes that the check gets wrong. */
  ghost predicate Constructed(rs: seq<Tree>, d: nat)
    decreases rs
  {
    && BehindsDescend(rs)
    && (forall r | 0 <= r < |rs| :: Linkable(|rs|, rs[r]) && BehindsMeasured(rs, d, rs[r]) && Built(d, rs[r]))
    && (forall r | 0 <= r < |rs| && Live(rs, r) :: GrammarsShow(rs, d, rs[r], 0, false))
  }

  lemma {:induction false} LoopsChecked(g: seq<Tree>, d: nat, t: Tree)
    requires !CheckLoops(g, d, t) && BehindsMeasured(g, d, t) && Built(d, t) && Linkable(|g|, t)
    ensures WellFormed(g, d, t)
    decreases t, 1
  {
    match t
    case TRep(p) => LoopsChecked(g, d, p);
    case TNot(p) => LoopsChecked(g, d, p);
    case TAnd(p) => LoopsChecked(g, d, p);
    case TBehind(p, _) => LoopsChecked(g, d, p);
    case TSeq(p1, p2) => LoopsChecked(g, d, p1); LoopsChecked(g, d, p2);
    case TChoice(p1, p2) => LoopsChecked(g, d, p1); LoopsChecked(g, d, p2);
    case TGrammar(rs) => VerifiedSafe(rs, d);
    case _ =>
  }

  lemma {:induction false} BuiltBounded(d: nat, t: Tree)
    requires Built(d, t)
    ensures GrammarsBounded(d, t)
    decreases t, 1
  {
    match t
    case TRep(p) => BuiltBounded(d, p);
    case TNot(p) => BuiltBounded(d, p);
    case TAnd(p) => BuiltBounded(d, p);
    case TBehind(p, _) => BuiltBounded(d, p);
    case TSeq(p1, p2) => BuiltBounded(d, p1); BuiltBounded(d, p2);
    case TChoice(p1, p2) => BuiltBounded(d, p1); BuiltBounded(d, p2);
    case TGrammar(rs) => VerifiedSafe(rs, d);
    case _ =>
  }

  /** A grammar that passes the checks is well formed and bounded, and so are the grammars nested in it. */
  lemma {:induction false} VerifiedSafe(rs: seq<Tree>, d: nat)
    requires VerifyGrammar(rs, d) && Constructed(rs, d)
    ensures WellFormed([], d, TGrammar(rs)) && GrammarsBounded(d, TGrammar(rs))
    decreases TGrammar(rs), 0
  {
    forall r | 0 <= r < |rs| && Live(rs, r)
      ensures WellFormed(rs, d, rs[r]) && LeftBounded(rs, MAXRULES, d, rs[r])
    {
      LoopsChecked(rs, d, rs[r]);
      VerifyRuleExact(rs, d, rs[r], 0, false);
    }
    forall r | 0 <= r < |rs| ensures GrammarsBounded(d, rs[r]) { BuiltBounded(d, rs[r]); }
  }

  /** Every accepted grammar matches or fails on every subject from every position, in finitely many steps. */
  lemma VerifiedGrammarStops(rs: seq<Tree>, d: nat, s: Subject, i: nat) returns (r: Result)
    requires VerifyGrammar(rs, d) && Constructed(rs, d) && i <= |s|
    ensures Means([], TGrammar(rs), s, i, r)
  {
    VerifiedSafe(rs, d);
    r := PatternStops(d, TGrammar(rs), s, i);
  }

  // ---------- The two shapes the check gets wrong ----------

  /** S <- G* S, with G a nested grammar for one character: the answer for G hides that the repetition is nullable. */
  function NestedCulprit(): Tree
  {
    TSeq(TRep(TGrammar([TAny])), TCall(0))
  }

  /** S <- behind(not S) any: calls inside a look-behind are not followed. */
  function BehindCulprit(): Tree
  {
    TSeq(TBehind(TNot(TCall(0)), 0), TAny)
  }

  /** The check accepts a left-recursive rule behind a nested grammar, and it never stops. */
  lemma {:induction false} NestedGrammarMissed(d: nat, fuel: nat)
    ensures VerifyGrammar([NestedCulprit()], d)
    ensures Peg([], TGrammar([NestedCulprit()]), [], 0, fuel).Timeout?
  {
    var t := NestedCulprit();
    var g := [t];
    assert t.p1 == TRep(TGrammar([TAny])) && t.p2 == TCall(0);
    assert !Nullable(g, d, TGrammar([TAny]));
    assert VerifyRule(g, d, TGrammar([TAny]), 0, true) == Accepted(false);
    assert VerifyRule(g, d, t.p1, 0, false) == Accepted(false);
    assert !CheckLoops(g, d, TGrammar([TAny])) && !CheckLoops(g, d, TCall(0));
    assert !CheckLoops(g, d, t.p1);
    if fuel > 0 { NestedLoops(fuel - 1); }
  }

  lemma {:induction false} NestedLoops(fuel: nat)
    ensures Peg([NestedCulprit()], NestedCulprit(), [], 0, fuel).Timeout?
    decreases fuel
  {
    if fuel > 1 {
      var g, t := [NestedCulprit()], NestedCulprit();
      NestedLoops(fuel - 2);
      assert Peg(g, t.p2, [], 0, fuel - 1) == Peg(g, g[0], [], 0, fuel - 2);
      if fuel > 3 {
        assert Peg(g, TGrammar([TAny]), [], 0, fuel - 2) == Fail;
        assert Peg(g, t.p1, [], 0, fuel - 1) == Match(0);
      } else {
        assert Peg(g, TGrammar([TAny]), [], 0, fuel - 2).Timeout?;
        assert Peg(g, t.p1, [], 0, fuel - 1).Timeout?;
      }
    }
  }

  /** The check accepts a rule that calls itself from a look-behind, and it never stops. */
  lemma {:induction false} BehindCallMissed(d: nat, fuel: nat)
    ensures VerifyGrammar([BehindCulprit()], d)
    ensures Peg([], TGrammar([BehindCulprit()]), [], 0, fuel).Timeout?
  {
    var t := BehindCulprit();
    var g := [t];
    assert VerifyRule(g, d, t, 0, false) == Accepted(false);
    assert !CheckLoops(g, d, t.p1.p.p) && !CheckLoops(g, d, t.p1.p) && !CheckLoops(g, d, t.p1);
    if fuel > 0 { BehindLoops(fuel - 1); }
  }

  lemma {:induction false} BehindLoops(fuel: nat)
    ensures Peg([BehindCulprit()], BehindCulprit(), [], 0, fuel).Timeout?
    decreases fuel
  {
    if fuel > 3 {
      var g, t := [BehindCulprit()], BehindCulprit();
      BehindLoops(fuel - 4);
      assert Peg(g, t.p1.p.p, [], 0, fuel - 3) == Peg(g, g[0], [], 0, fuel - 4);
      assert Peg(g, t.p1.p, [], 0, fuel - 2).Timeout?;
      assert Peg(g, t.p1, [], 0, fuel - 1).Timeout?;
    } else if fuel > 0 {
      var g, t := [BehindCulprit()], BehindCulprit();
      if fuel > 1 {
        if fuel > 2 { assert Peg(g, t.p1.p.p, [], 0, fuel - 3).Timeout?; }
        assert Peg(g, t.p1.p, [], 0, fuel - 2).Timeout?;
      }
      assert Peg(g, t.p1, [], 0, fuel - 1).Timeout?;
    }
  }
}
