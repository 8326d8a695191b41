/** Repetition p^n: which bodies are refused, and what is gained by it. */
module PegLoops {
  import opened PegTree
  import opened PegAnalysis
  import opened PegVerify
  import opened PegBuild

  datatype Option = None | Some(t: Tree)

  /** nullable, on a pattern that is in no grammar yet: an open call is not nullable. */
  predicate OpenNullable(d: nat, t: Tree)
  {
    match t
    case TChar(_) => false
    case TSet(_) => false
    case TAny => false
    case TFalse => false
    case TSeq(p1, p2) => OpenNullable(d, p1) && OpenNullable(d, p2)
    case TChoice(p1, p2) => OpenNullable(d, p2) || OpenNullable(d, p1)
    case TCall(_) => false
    case TGrammar(_) => Nullable([], d, t)
    case _ => true
  }

  /** lp_star. */
  function LpStar(d: nat, p: Tree, n: int): Option
  {
    if n >= 0 then (if OpenNullable(d, p) then None else Some(AtLeast(p, n))) else Some(AtMost(p, -n))
  }

  // ---------- Refusing is right ----------

  lemma {:induction false} OpenInside(g: seq<Tree>, d: nat, t: Tree)
    requires OpenNullable(d, t)
    ensures Nullable(g, d, t)
  {
    match t
    case TSeq(p1, p2) => OpenInside(g, d, p1); OpenInside(g, d, p2);
    case TChoice(p1, p2) => if OpenNullable(d, p2) { OpenInside(g, d, p2); } else { OpenInside(g, d, p1); }
    case _ =>
  }

  /** A bound for the rules that are called. */
  function CallBound(t: Tree): nat
  {
    match t
    case TSeq(p1, p2) => Max(CallBound(p1), CallBound(p2))
    case TChoice(p1, p2) => Max(CallBound(p1), CallBound(p2))
    case TCall(r) => r + 1
    case _ => 0
  }

  lemma {:induction false} InsideOpen(g: seq<Tree>, d: nat, t: Tree)
    requires d > 0 && CallBound(t) <= |g| && forall r | 0 <= r < |g| :: g[r] == TFalse
    requires Nullable(g, d, t)
    ensures OpenNullable(d, t)
  {
    match t
    case TSeq(p1, p2) => InsideOpen(g, d, p1); InsideOpen(g, d, p2);
    case TChoice(p1, p2) => if Nullable(g, d, p2) { InsideOpen(g, d, p2); } else { InsideOpen(g, d, p1); }
    case _ =>
  }

  /** Whether `p` is nullable once it is put in the grammar `g`. */
  predicate NullableIn(g: seq<Tree>, d: nat, p: Tree)
  {
    Nullable(g, d, p)
  }

  /** A body is refused exactly when it would be nullable in every grammar it could be put in. */
  lemma RefusedExact(d: nat, p: Tree, n: int)
    requires d > 0
    ensures LpStar(d, p, n) == None <==> n >= 0 && forall g: seq<Tree> :: NullableIn(g, d, p)
  {
    if OpenNullable(d, p) {
      forall g: seq<Tree> ensures NullableIn(g, d, p) { OpenInside(g, d, p); }
    } else {
      var g: seq<Tree> := seq(CallBound(p), _ => TFalse);
      assert !NullableIn(g, d, p) by {
        if Nullable(g, d, p) { InsideOpen(g, d, p); }
      }
    }
  }

  ghost predicate EndsAt(g: seq<Tree>, p: Tree, s: Subject, i: nat)
  {
    exists r :: Means(g, p, s, i, r)
  }

  /** Every match of `p` on `s` ends. */
  ghost predicate Ends(g: seq<Tree>, p: Tree, s: Subject)
  {
    forall i: nat | i <= |s| :: EndsAt(g, p, s, i)
  }

  ghost predicate NeverEmpty(g: seq<Tree>, p: Tree, s: Subject)
  {
    forall i: nat :: !Means(g, p, s, i, Match(i))
  }

  /** From where the body matches the empty string, it matches any number of times and stays there. */
  lemma {:induction false} StaysThere(g: seq<Tree>, p: Tree, s: Subject, i: nat, k: nat, j: nat)
    requires Means(g, p, s, i, Match(i)) && Times(g, p, s, i, k, j)
    ensures j == i
    decreases k
  {
    hide Means;
    if k > 0 {
      var m: nat :| Means(g, p, s, i, Match(m)) && Times(g, p, s, m, k - 1, j);
      MeansUnique(g, p, s, i, Match(i), Match(m));
      StaysThere(g, p, s, i, k - 1, j);
    }
  }

  lemma NoEnd(g: seq<Tree>, p: Tree, n: nat, s: Subject, i: nat, r: Result)
    requires Means(g, p, s, i, Match(i))
    ensures !Means(g, AtLeast(p, n), s, i, r)
  {
    hide Means, Times;
    if Means(g, AtLeast(p, n), s, i, r) {
      var k, j := AtLeastTimes(g, p, n, s, i, r);
      StaysThere(g, p, s, i, k, j);
      MeansUnique(g, p, s, i, Match(i), Fail);
    }
  }

  /** A body that always ends and never matches the empty string fails after some matches. */
  lemma {:induction false} RunsOut(g: seq<Tree>, p: Tree, s: Subject, i: nat) returns (k: nat, j: nat)
    requires i <= |s| && Ends(g, p, s) && NeverEmpty(g, p, s)
    ensures Times(g, p, s, i, k, j) && Means(g, p, s, j, Fail)
    decreases |s| - i
  {
    hide Means;
    assert EndsAt(g, p, s, i);
    var r :| Means(g, p, s, i, r);
    MeansWhere(g, p, s, i, r);
    if r.Match? {
      k, j := RunsOut(g, p, s, r.pos);
      k := k + 1;
    } else {
      k, j := 0, i;
    }
  }

  lemma MeansWhere(g: seq<Tree>, p: Tree, s: Subject, i: nat, r: Result)
    requires Means(g, p, s, i, r)
    ensures r == Fail || (r.Match? && i <= r.pos <= |s|)
  {
  }

  /** When every match of the body ends, p^n always ends exactly when the body never matches the empty string. */
  lemma LoopExact(g: seq<Tree>, p: Tree, n: nat, s: Subject)
    requires Ends(g, p, s)
    ensures Ends(g, AtLeast(p, n), s) <==> NeverEmpty(g, p, s)
  {
    hide Means;
    if NeverEmpty(g, p, s) {
      forall i: nat | i <= |s| ensures EndsAt(g, AtLeast(p, n), s, i) {
        var k, j := RunsOut(g, p, s, i);
        AtLeastMeans(g, p, n, s, i, k, j);
      }
    } else {
      var i: nat :| Means(g, p, s, i, Match(i));
      MeansWhere(g, p, s, i, Match(i));
      assert Ends(g, AtLeast(p, n), s) ==> EndsAt(g, AtLeast(p, n), s, i);
      forall r ensures !Means(g, AtLeast(p, n), s, i, r) { NoEnd(g, p, n, s, i, r); }
    }
  }

  /** p^n matches as often as it can, but at most -n times; it fails when that is less than n times. */
  lemma StarMeans(g: seq<Tree>, d: nat, p: Tree, n: int, s: Subject, i: nat, k: nat, j: nat)
    requires LpStar(d, p, n).Some? && Times(g, p, s, i, k, j)
    requires n < 0 ==> k <= -n
    requires n >= 0 || k < -n ==> Means(g, p, s, j, Fail)
    ensures Means(g, LpStar(d, p, n).t, s, i, if k < n then Fail else Match(j))
  {
    hide Means, Times;
    if n >= 0 { AtLeastMeans(g, p, n, s, i, k, j); } else { AtMostMeans(g, p, -n, s, i, k, j); }
  }

  /** Whenever p^n has a meaning, it is of that kind. */
  lemma StarTimes(g: seq<Tree>, d: nat, p: Tree, n: int, s: Subject, i: nat, r: Result) returns (k: nat, j: nat)
    requires LpStar(d, p, n).Some? && Means(g, LpStar(d, p, n).t, s, i, r)
    ensures Times(g, p, s, i, k, j) && (n < 0 ==> k <= -n) && (n >= 0 || k < -n ==> Means(g, p, s, j, Fail))
    ensures r == if k < n then Fail else Match(j)
  {
    hide Means, Times;
    if n >= 0 { k, j := AtLeastTimes(g, p, n, s, i, r); } else { k, j := AtMostTimes(g, p, -n, s, i, r); }
  }

  // ---------- What accepting is worth ----------

  lemma NotNullable(g: seq<Tree>, d: nat, p: Tree, s: Subject)
    requires !Nullable(g, d, p)
    ensures NeverEmpty(g, p, s)
  {
    forall i: nat ensures !Means(g, p, s, i, Match(i)) {
      if Means(g, p, s, i, Match(i)) {
        var f := FuelOf(g, p, s, i, Match(i));
        NullableSound(g, d, p, s, i, f);
      }
    }
  }

  /** Without calls, the rules in scope do not matter. */
  lemma {:induction false} ClosedSame(g: seq<Tree>, d: nat, t: Tree)
    requires WellFormed([], d, t)
    ensures WellFormed(g, d, t) && Calls(t) == {}
    ensures Nullable(g, d, t) == Nullable([], d, t) == OpenNullable(d, t)
    ensures FixedLen(g, d, t) == FixedLen([], d, t)
  {
    match t
    case TRep(p) => ClosedSame(g, d, p);
    case TNot(p) => ClosedSame(g, d, p);
    case TAnd(p) => ClosedSame(g, d, p);
    case TBehind(p, _) => ClosedSame(g, d, p);
    case TSeq(p1, p2) => ClosedSame(g, d, p1); ClosedSame(g, d, p2);
    case TChoice(p1, p2) => ClosedSame(g, d, p1); ClosedSame(g, d, p2);
    case _ =>
  }

  lemma ClosedEnds(g: seq<Tree>, d: nat, t: Tree, s: Subject)
    requires WellFormed([], d, t) && GrammarsBounded(d, t)
    ensures Ends(g, t, s)
  {
    ClosedSame(g, d, t);
    forall i: nat | i <= |s| ensures EndsAt(g, t, s, i) {
      var fuel := CallFreeStops(g, d, Height(t), t, s, i);
      Shown(g, t, s, i, fuel);
    }
  }

  lemma {:induction false} AtMostClosed(d: nat, p: Tree, n: nat)
    requires WellFormed([], d, p) && GrammarsBounded(d, p) && n > 0
    ensures WellFormed([], d, AtMost(p, n)) && GrammarsBounded(d, AtMost(p, n))
    decreases n
  {
    if n > 1 { AtMostClosed(d, p, n - 1); }
  }

  /**
   * A pattern without calls that is accepted always ends, in any grammar, and a body that may be repeated for ever
   * never matches the empty string.
   */
  lemma AcceptedEnds(g: seq<Tree>, d: nat, p: Tree, n: int, s: Subject)
    requires WellFormed([], d, p) && GrammarsBounded(d, p) && LpStar(d, p, n).Some?
    ensures Ends(g, LpStar(d, p, n).t, s)
    ensures n >= 0 ==> NeverEmpty(g, p, s)
  {
    if n >= 0 {
      ClosedSame(g, d, p);
      NotNullable(g, d, p, s);
      ClosedEnds(g, d, p, s);
      LoopExact(g, p, n, s);
    } else {
      AtMostClosed(d, p, -n);
      ClosedEnds(g, d, AtMost(p, -n), s);
    }
  }

  /** `TRep(p)` is part of `t`, outside the grammars nested in it. */
  predicate HasLoop(t: Tree, p: Tree)
  {
    match t
    case TRep(q) => q == p || HasLoop(q, p)
    case TNot(q) => HasLoop(q, p)
    case TAnd(q) => HasLoop(q, p)
    case TBehind(q, _) => HasLoop(q, p)
    case TSeq(p1, p2) => HasLoop(p1, p) || HasLoop(p2, p)
    case TChoice(p1, p2) => HasLoop(p1, p) || HasLoop(p2, p)
    case _ => false
  }

  /** A loop in `t` whose body is nullable. */
  predicate EmptyLoop(g: seq<Tree>, d: nat, t: Tree, p: Tree)
  {
    HasLoop(t, p) && Nullable(g, d, p)
  }

  /** checkloops finds a loop exactly when some body is nullable, now that its calls can be followed. */
  lemma {:induction false} LoopsFound(g: seq<Tree>, d: nat, t: Tree)
    ensures CheckLoops(g, d, t) <==> exists p :: EmptyLoop(g, d, t, p)
  {
    match t
    case TRep(q) =>
      LoopsFound(g, d, q);
      assert forall p :: EmptyLoop(g, d, t, p) == (EmptyLoop(g, d, q, p) || (p == q && Nullable(g, d, q)));
      assert EmptyLoop(g, d, t, q) <== Nullable(g, d, q);
    case TNot(q) => LoopsFound(g, d, q); assert forall p :: EmptyLoop(g, d, t, p) == EmptyLoop(g, d, q, p);
    case TAnd(q) => LoopsFound(g, d, q); assert forall p :: EmptyLoop(g, d, t, p) == EmptyLoop(g, d, q, p);
    case TBehind(q, _) => LoopsFound(g, d, q); assert forall p :: EmptyLoop(g, d, t, p) == EmptyLoop(g, d, q, p);
    case TSeq(p1, p2) =>
      LoopsFound(g, d, p1);
      LoopsFound(g, d, p2);
      assert forall p :: EmptyLoop(g, d, t, p) == (EmptyLoop(g, d, p1, p) || EmptyLoop(g, d, p2, p));
    case TChoice(p1, p2) =>
      LoopsFound(g, d, p1);
      LoopsFound(g, d, p2);
      assert forall p :: EmptyLoop(g, d, t, p) == (EmptyLoop(g, d, p1, p) || EmptyLoop(g, d, p2, p));
    case _ =>
  }

  /** In a rule that passes checkloops, no repeated body matches the empty string, whatever rules it calls. */
  lemma CheckedLoops(g: seq<Tree>, d: nat, t: Tree, p: Tree, s: Subject)
    requires !CheckLoops(g, d, t) && HasLoop(t, p)
    ensures NeverEmpty(g, p, s)
    ensures Ends(g, p, s) ==> forall n: nat :: Ends(g, AtLeast(p, n), s)
  {
    LoopsFound(g, d, t);
    assert !EmptyLoop(g, d, t, p);
    NotNullable(g, d, p, s);
    if Ends(g, p, s) {
      forall n: nat ensures Ends(g, AtLeast(p, n), s) { LoopExact(g, p, n, s); }
    }
  }

  /** A repeated open call is accepted; in a grammar it is refused exactly when the rule called is nullable. */
  lemma OpenCallLater(g: seq<Tree>, d: nat, r: nat, n: nat)
    requires d > 0 && r < |g|
    ensures LpStar(d, TCall(r), n) == Some(AtLeast(TCall(r), n))
    ensures CheckLoops(g, d, AtLeast(TCall(r), n)) <==> Nullable(g, d - 1, g[r])
    decreases n
  {
    if n > 0 { OpenCallLater(g, d, r, n - 1); }
  }

  // ---------- What the check of a grammar accepts ----------

  /** No repeated body of `t` is nullable. */
  ghost predicate NoEmptyLoop(g: seq<Tree>, d: nat, t: Tree)
  {
    forall p :: !EmptyLoop(g, d, t, p)
  }

  /**
   * A grammar is accepted exactly when it has few enough rules, every rule that can run makes few enough calls
   * before it consumes something, and no such rule has an empty loop; when no nested grammar hides the accumulator.
   */
  lemma VerifyExact(rs: seq<Tree>, d: nat)
    requires forall r | 0 <= r < |rs| && Live(rs, r) :: GrammarsShow(rs, d, rs[r], 0, false)
    ensures VerifyGrammar(rs, d) <==>
            && 0 < |rs| <= MAXRULES
            && (forall r | 0 <= r < |rs| && Live(rs, r) :: LeftBounded(rs, MAXRULES, d, rs[r]))
            && (forall r | 0 <= r < |rs| && Live(rs, r) :: NoEmptyLoop(rs, d, rs[r]))
  {
    forall r | 0 <= r < |rs| && Live(rs, r)
      ensures VerifyRule(rs, d, rs[r], 0, false).Accepted? <==> LeftBounded(rs, MAXRULES, d, rs[r])
      ensures CheckLoops(rs, d, rs[r]) <==> !NoEmptyLoop(rs, d, rs[r])
    {
      VerifyRuleExact(rs, d, rs[r], 0, false);
      LoopsFound(rs, d, rs[r]);
    }
  }

  /** Rules that each call the next one, but for the last. */
  function Chain(n: nat): (rs: seq<Tree>)
    ensures |rs| == n
  {
    seq(n, r requires 0 <= r < n => if r + 1 < n then TCall(r + 1) else TAny)
  }

  lemma {:induction false} ChainFrom(n: nat, d: nat, r: nat, npassed: nat)
    requires r < n && npassed <= MAXRULES
    ensures VerifyRule(Chain(n), d, Chain(n)[r], npassed, false).Accepted? <==> npassed + (n - 1 - r) <= 250
    decreases n - r
  {
    if r + 1 < n && npassed < MAXRULES { ChainFrom(n, d, r + 1, npassed + 1); }
  }

  /** Of chains of rules, those of up to 250 rules are accepted; a rule may make 250 calls in a row. */
  lemma ChainExact(n: nat, d: nat)
    requires n > 0
    ensures VerifyGrammar(Chain(n), d) <==> n <= 250
    ensures VerifyRule(Chain(n), d, Chain(n)[0], 0, false).Accepted? <==> n - 1 <= 250
  {
    forall r | 0 <= r < n
      ensures VerifyRule(Chain(n), d, Chain(n)[r], 0, false).Accepted? <==> n - 1 - r <= 250
      ensures !CheckLoops(Chain(n), d, Chain(n)[r])
    {
      ChainFrom(n, d, r, 0);
    }
  }

  /** A grammar with a nullable rule is accepted: S <- 'a' S / ''. */
  lemma NullableAccepted(d: nat)
    ensures VerifyGrammar([TChoice(TSeq(TChar(97), TCall(0)), TTrue)], d)
  {
    var rs := [TChoice(TSeq(TChar(97), TCall(0)), TTrue)];
    assert VerifyRule(rs, d, TSeq(TChar(97), TCall(0)), 0, false) == Accepted(false);
    assert VerifyRule(rs, d, rs[0], 0, false) == Accepted(true);
    assert !CheckLoops(rs, d, TSeq(TChar(97), TCall(0)));
  }
}
