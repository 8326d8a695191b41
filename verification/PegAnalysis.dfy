/** The conservative analyses of lpcode.c, and that each of them is right about the meaning of a tree. */
module PegAnalysis {
  import opened PegTree

  /** Whether the pattern may match without consuming. `d` bounds the calls followed. */
  predicate Nullable(g: seq<Tree>, d: nat, t: Tree)
    decreases d, t
  {
    match t
    case TChar(_) => false
    case TSet(_) => false
    case TAny => false
    case TFalse => false
    case TRep(_) => true
    case TTrue => true
    case TNot(_) => true
    case TBehind(_, _) => true
    case TAnd(_) => true
    case TSeq(p1, p2) => Nullable(g, d, p1) && Nullable(g, d, p2)
    case TChoice(p1, p2) => Nullable(g, d, p2) || Nullable(g, d, p1)
    case TCall(r) => d == 0 || r >= |g| || Nullable(g, d - 1, g[r])
    case TGrammar(rs) => |rs| == 0 || Nullable(rs, d, rs[0])
  }

  /** Whether the pattern can never fail. */
  predicate Nofail(g: seq<Tree>, d: nat, t: Tree)
    decreases d, t
  {
    match t
    case TChar(_) => false
    case TSet(_) => false
    case TAny => false
    case TFalse => false
    case TRep(_) => true
    case TTrue => true
    case TNot(_) => false
    case TBehind(_, _) => false
    case TAnd(p) => Nofail(g, d, p)
    case TSeq(p1, p2) => Nofail(g, d, p1) && Nofail(g, d, p2)
    case TChoice(p1, p2) => Nofail(g, d, p2) || Nofail(g, d, p1)
    case TCall(r) => d > 0 && r < |g| && Nofail(g, d - 1, g[r])
    case TGrammar(rs) => |rs| > 0 && Nofail(rs, d, rs[0])
  }

  /** Number of characters of every match, or -1 when it is not fixed. */
  function FixedLen(g: seq<Tree>, d: nat, t: Tree): (n: int)
    ensures n >= -1
    decreases d, t
  {
    match t
    case TChar(_) => 1
    case TSet(_) => 1
    case TAny => 1
    case TFalse => 0
    case TTrue => 0
    case TNot(_) => 0
    case TAnd(_) => 0
    case TBehind(_, _) => 0
    case TRep(_) => -1
    case TSeq(p1, p2) =>
      var n1 := FixedLen(g, d, p1);
      if n1 < 0 then -1 else
      var n2 := FixedLen(g, d, p2);
      if n2 < 0 then -1 else n1 + n2
    case TChoice(p1, p2) =>
      var n1 := FixedLen(g, d, p1);
      var n2 := FixedLen(g, d, p2);
      if n1 != n2 || n1 < 0 then -1 else n1
    case TCall(r) => if d == 0 || r >= |g| then -1 else FixedLen(g, d - 1, g[r])
    case TGrammar(rs) => if |rs| == 0 then -1 else FixedLen(rs, d, rs[0])
  }

  /** The first set of `t` when what follows it starts with `follow`, and whether the empty subject is accepted. */
  function First(g: seq<Tree>, d: nat, t: Tree, follow: Charset): (Charset, bool)
    decreases d, t
  {
    match t
    case TChar(c) => ({c}, false)
    case TSet(cs) => (cs, false)
    case TAny => (FULL, false)
    case TTrue => (follow, true)
    case TFalse => ({}, false)
    case TChoice(p1, p2) =>
      var (f1, e1) := First(g, d, p1, follow);
      var (f2, e2) := First(g, d, p2, follow);
      (f1 + f2, e1 || e2)
    case TSeq(p1, p2) =>
      if !Nullable(g, d, p1) then First(g, d, p1, FULL)
      else
        var (f2, e2) := First(g, d, p2, follow);
        var (f1, e1) := First(g, d, p1, f2);
        (f1, e1 && e2)
    case TRep(p) => (First(g, d, p, follow).0 + follow, true)
    case TAnd(p) =>
      var (f, e) := First(g, d, p, follow);
      (f * follow, e)
    case TNot(p) => if ToCharset(p).0 then (FULL - ToCharset(p).1, true) else (follow, true)
    case TBehind(_, _) => (follow, true)
    case TCall(r) => if d == 0 || r >= |g| then (FULL, true) else First(g, d - 1, g[r], follow)
    case TGrammar(rs) => if |rs| == 0 then (FULL, true) else First(rs, d, rs[0], follow)
  }

  /** Whether failure depends only on the next character. */
  predicate HeadFail(g: seq<Tree>, d: nat, t: Tree)
    decreases d, t
  {
    match t
    case TChar(_) => true
    case TSet(_) => true
    case TAny => true
    case TFalse => true
    case TTrue => false
    case TRep(_) => false
    case TNot(_) => false
    case TBehind(_, _) => false
    case TAnd(p) => HeadFail(g, d, p)
    case TSeq(p1, p2) => Nofail(g, d, p2) && HeadFail(g, d, p1)
    case TChoice(p1, p2) => HeadFail(g, d, p1) && HeadFail(g, d, p2)
    case TCall(r) => d > 0 && r < |g| && HeadFail(g, d - 1, g[r])
    case TGrammar(rs) => |rs| > 0 && HeadFail(rs, d, rs[0])
  }

  /** Whether code generation for `t` looks at its follow set. */
  predicate NeedFollow(t: Tree)
  {
    match t
    case TChoice(_, _) => true
    case TRep(_) => true
    case TSeq(_, p2) => NeedFollow(p2)
    case _ => false
  }

  /** Every call of `t` has one of `n` rules, also inside nested grammars. */
  predicate Linkable(n: nat, t: Tree)
    decreases t
  {
    match t
    case TRep(p) => Linkable(n, p)
    case TNot(p) => Linkable(n, p)
    case TAnd(p) => Linkable(n, p)
    case TBehind(p, _) => Linkable(n, p)
    case TSeq(p1, p2) => Linkable(n, p1) && Linkable(n, p2)
    case TChoice(p1, p2) => Linkable(n, p1) && Linkable(n, p2)
    case TCall(r) => r < n
    case TGrammar(rs) => |rs| > 0 && forall r | 0 <= r < |rs| :: Linkable(|rs|, rs[r])
    case _ => true
  }

  /** What construction guarantees: loops consume, look-behinds know their length, calls have a rule. */
  predicate WellFormed(g: seq<Tree>, d: nat, t: Tree)
    decreases t
  {
    match t
    case TRep(p) => !Nullable(g, d, p) && WellFormed(g, d, p)
    case TSeq(p1, p2) => WellFormed(g, d, p1) && WellFormed(g, d, p2)
    case TChoice(p1, p2) => WellFormed(g, d, p1) && WellFormed(g, d, p2)
    case TNot(p) => WellFormed(g, d, p)
    case TAnd(p) => WellFormed(g, d, p)
    case TBehind(p, n) => FixedLen(g, d, p) == n && WellFormed(g, d, p)
    case TCall(r) => r < |g|
    case TGrammar(rs) => Linkable(0, t) && forall r | 0 <= r < |rs| && Live(rs, r) :: WellFormed(rs, d, rs[r])
    case _ => true
  }

  /** Every live rule is well formed. */
  predicate RulesWellFormed(g: seq<Tree>, d: nat)
  {
    forall r | 0 <= r < |g| && Live(g, r) :: WellFormed(g, d, g[r])
  }

  /** The calls of `t` go to live rules. */
  predicate CallsLive(g: seq<Tree>, t: Tree)
  {
    forall r | r in Calls(t) :: Live(g, r)
  }

  lemma LiveRuleCalls(g: seq<Tree>, d: nat, r: nat)
    requires r < |g| && Live(g, r) && RulesWellFormed(g, d)
    ensures WellFormed(g, d, g[r]) && CallsLive(g, g[r])
  {
    CallsInRange(g, d, g[r]);
  }

  lemma {:induction false} CallsInRange(g: seq<Tree>, d: nat, t: Tree)
    requires WellFormed(g, d, t)
    ensures forall r | r in Calls(t) :: r < |g|
  {
    match t
    case TRep(p) => CallsInRange(g, d, p);
    case TNot(p) => CallsInRange(g, d, p);
    case TAnd(p) => CallsInRange(g, d, p);
    case TBehind(p, _) => CallsInRange(g, d, p);
    case TSeq(p1, p2) => CallsInRange(g, d, p1); CallsInRange(g, d, p2);
    case TChoice(p1, p2) => CallsInRange(g, d, p1); CallsInRange(g, d, p2);
    case _ =>
  }

  // ---------- Soundness against the meaning of patterns ----------

  /** A match that consumes nothing comes from a nullable pattern. */
  lemma {:induction false} NullableSound(g: seq<Tree>, d: nat, t: Tree, s: Subject, i: nat, fuel: nat)
    requires i <= |s| && Peg(g, t, s, i, fuel) == Match(i)
    ensures Nullable(g, d, t)
    decreases d, fuel
  {
    match t
    case TSeq(p1, p2) =>
      NullableSound(g, d, p1, s, i, fuel - 1);
      NullableSound(g, d, p2, s, i, fuel - 1);
    case TChoice(p1, p2) =>
      if Peg(g, p1, s, i, fuel - 1).Fail? { NullableSound(g, d, p2, s, i, fuel - 1); }
      else { NullableSound(g, d, p1, s, i, fuel - 1); }
    case TCall(r) => if d > 0 && r < |g| { NullableSound(g, d - 1, g[r], s, i, fuel - 1); }
    case TGrammar(rs) => if |rs| > 0 { NullableSound(rs, d, rs[0], s, i, fuel - 1); }
    case _ =>
  }

  /** A nofail pattern never fails. */
  lemma {:induction false} NofailSound(g: seq<Tree>, d: nat, t: Tree, s: Subject, i: nat, fuel: nat)
    requires i <= |s| && Nofail(g, d, t)
    ensures !Peg(g, t, s, i, fuel).Fail?
    decreases d, fuel
  {
    if fuel > 0 {
      match t
      case TRep(p) =>
        var r := Peg(g, p, s, i, fuel - 1);
        if r.Match? { NofailSound(g, d, t, s, r.pos, fuel - 1); }
      case TAnd(p) => NofailSound(g, d, p, s, i, fuel - 1);
      case TSeq(p1, p2) =>
        NofailSound(g, d, p1, s, i, fuel - 1);
        var r := Peg(g, p1, s, i, fuel - 1);
        if r.Match? { NofailSound(g, d, p2, s, r.pos, fuel - 1); }
      case TChoice(p1, p2) =>
        if Nofail(g, d, p2) { NofailSound(g, d, p2, s, i, fuel - 1); }
        else { NofailSound(g, d, p1, s, i, fuel - 1); }
      case TCall(r) => NofailSound(g, d - 1, g[r], s, i, fuel - 1);
      case TGrammar(rs) => NofailSound(rs, d, rs[0], s, i, fuel - 1);
      case _ =>
    }
  }

  /** A fixed length is the length of every match. */
  lemma {:induction false} FixedLenSound(g: seq<Tree>, d: nat, t: Tree, s: Subject, i: nat, fuel: nat)
    requires i <= |s| && FixedLen(g, d, t) >= 0 && Peg(g, t, s, i, fuel).Match?
    ensures Peg(g, t, s, i, fuel).pos == i + FixedLen(g, d, t)
    decreases d, fuel
  {
    match t
    case TSeq(p1, p2) =>
      FixedLenSound(g, d, p1, s, i, fuel - 1);
      FixedLenSound(g, d, p2, s, Peg(g, p1, s, i, fuel - 1).pos, fuel - 1);
    case TChoice(p1, p2) =>
      if Peg(g, p1, s, i, fuel - 1).Fail? { FixedLenSound(g, d, p2, s, i, fuel - 1); }
      else { FixedLenSound(g, d, p1, s, i, fuel - 1); }
    case TCall(r) => FixedLenSound(g, d - 1, g[r], s, i, fuel - 1);
    case TGrammar(rs) => FixedLenSound(rs, d, rs[0], s, i, fuel - 1);
    case _ =>
  }

  /** The next character is outside `cs`. */
  predicate Outside(s: Subject, i: nat, cs: Charset)
  {
    i < |s| && s[i] !in cs
  }

  /** A next character outside the first set leaves only an empty match, itself outside the follow set. */
  lemma {:induction false} FirstSound(g: seq<Tree>, w: nat, d: nat, t: Tree, follow: Charset, s: Subject, i: nat,
          fuel: nat)
    requires WellFormed(g, w, t) && CallsLive(g, t) && RulesWellFormed(g, w)
    requires i <= |s| && Outside(s, i, First(g, d, t, follow).0)
    requires Peg(g, t, s, i, fuel).Match?
    ensures Peg(g, t, s, i, fuel) == Match(i) && Outside(s, i, follow)
    decreases d, fuel
  {
    match t
    case TSeq(p1, p2) =>
      if !Nullable(g, d, p1) {
        FirstSound(g, w, d, p1, FULL, s, i, fuel - 1);
      } else {
        FirstSound(g, w, d, p1, First(g, d, p2, follow).0, s, i, fuel - 1);
        FirstSound(g, w, d, p2, follow, s, i, fuel - 1);
      }
    case TChoice(p1, p2) =>
      if Peg(g, p1, s, i, fuel - 1).Fail? { FirstSound(g, w, d, p2, follow, s, i, fuel - 1); }
      else { FirstSound(g, w, d, p1, follow, s, i, fuel - 1); }
    case TRep(p) =>
      if Peg(g, p, s, i, fuel - 1).Match? {
        FirstSound(g, w, d, p, follow, s, i, fuel - 1);
        NullableSound(g, w, p, s, i, fuel - 1);
        assert false;
      }
    case TAnd(p) =>
      if s[i] in follow { FirstSound(g, w, d, p, follow, s, i, fuel - 1); }
    case TCall(r) =>
      if d > 0 {
        LiveRuleCalls(g, w, r);
        FirstSound(g, w, d - 1, g[r], follow, s, i, fuel - 1);
      }
    case TGrammar(rs) =>
      LiveRuleCalls(rs, w, 0);
      FirstSound(rs, w, d, rs[0], follow, s, i, fuel - 1);
    case _ =>
  }

  /** Without the empty-subject flag, the pattern fails at the end of the subject. */
  lemma {:induction false} FirstFlagSound(g: seq<Tree>, d: nat, t: Tree, follow: Charset, s: Subject, fuel: nat)
    requires !First(g, d, t, follow).1
    ensures !Peg(g, t, s, |s|, fuel).Match?
    decreases d, fuel
  {
    if fuel > 0 {
      match t
      case TSeq(p1, p2) =>
        var f2 := First(g, d, p2, follow);
        if !Nullable(g, d, p1) { FirstFlagSound(g, d, p1, FULL, s, fuel - 1); }
        else if !f2.1 { FirstFlagSound(g, d, p2, follow, s, fuel - 1); }
        else { FirstFlagSound(g, d, p1, f2.0, s, fuel - 1); }
      case TChoice(p1, p2) =>
        FirstFlagSound(g, d, p1, follow, s, fuel - 1);
        FirstFlagSound(g, d, p2, follow, s, fuel - 1);
      case TAnd(p) => FirstFlagSound(g, d, p, follow, s, fuel - 1);
      case TCall(r) => FirstFlagSound(g, d - 1, g[r], follow, s, fuel - 1);
      case TGrammar(rs) => FirstFlagSound(rs, d, rs[0], follow, s, fuel - 1);
      case _ =>
    }
  }

  lemma {:induction false} NofailIsNullable(g: seq<Tree>, d: nat, t: Tree)
    requires Nofail(g, d, t)
    ensures Nullable(g, d, t)
    decreases d, t
  {
    match t
    case TSeq(p1, p2) => NofailIsNullable(g, d, p1); NofailIsNullable(g, d, p2);
    case TChoice(p1, p2) =>
      if Nofail(g, d, p2) { NofailIsNullable(g, d, p2); } else { NofailIsNullable(g, d, p1); }
    case TCall(r) => NofailIsNullable(g, d - 1, g[r]);
    case TGrammar(rs) => NofailIsNullable(rs, d, rs[0]);
    case _ =>
  }

  lemma {:induction false} NofailFirst(g: seq<Tree>, d: nat, t: Tree)
    requires Nofail(g, d, t)
    ensures First(g, d, t, FULL).0 == FULL
    decreases d, t
  {
    match t
    case TSeq(p1, p2) =>
      NofailIsNullable(g, d, p1);
      NofailFirst(g, d, p1);
      NofailFirst(g, d, p2);
    case TChoice(p1, p2) =>
      if Nofail(g, d, p2) { NofailFirst(g, d, p2); } else { NofailFirst(g, d, p1); }
    case TAnd(p) => NofailFirst(g, d, p);
    case TCall(r) => NofailFirst(g, d - 1, g[r]);
    case TGrammar(rs) => NofailFirst(rs, d, rs[0]);
    case _ =>
  }

  lemma {:induction false} HeadFailFlag(g: seq<Tree>, d: nat, t: Tree, follow: Charset)
    requires HeadFail(g, d, t)
    ensures !First(g, d, t, follow).1
    decreases d, t
  {
    match t
    case TSeq(p1, p2) =>
      HeadFailFlag(g, d, p1, if Nullable(g, d, p1) then First(g, d, p2, follow).0 else FULL);
    case TChoice(p1, p2) => HeadFailFlag(g, d, p1, follow); HeadFailFlag(g, d, p2, follow);
    case TAnd(p) => HeadFailFlag(g, d, p, follow);
    case TCall(r) => HeadFailFlag(g, d - 1, g[r], follow);
    case TGrammar(rs) => HeadFailFlag(rs, d, rs[0], follow);
    case _ =>
  }

  /** A headfail pattern succeeds whenever the next character is in its first set. */
  lemma {:induction false} HeadFailSound(g: seq<Tree>, d: nat, t: Tree, s: Subject, i: nat, fuel: nat)
    requires HeadFail(g, d, t) && i < |s| && s[i] in First(g, d, t, FULL).0
    ensures !Peg(g, t, s, i, fuel).Fail?
    decreases d, fuel
  {
    if fuel > 0 {
      match t
      case TSeq(p1, p2) =>
        NofailFirst(g, d, p2);
        HeadFailSound(g, d, p1, s, i, fuel - 1);
        var r := Peg(g, p1, s, i, fuel - 1);
        if r.Match? { NofailSound(g, d, p2, s, r.pos, fuel - 1); }
      case TChoice(p1, p2) =>
        if s[i] in First(g, d, p1, FULL).0 { HeadFailSound(g, d, p1, s, i, fuel - 1); }
        else { HeadFailSound(g, d, p2, s, i, fuel - 1); }
      case TAnd(p) => HeadFailSound(g, d, p, s, i, fuel - 1);
      case TCall(r) => HeadFailSound(g, d - 1, g[r], s, i, fuel - 1);
      case TGrammar(rs) => HeadFailSound(rs, d, rs[0], s, i, fuel - 1);
      case _ =>
    }
  }

  /** A headfail pattern fails exactly when there is no next character in its first set. */
  lemma HeadFailExact(g: seq<Tree>, w: nat, d: nat, t: Tree, s: Subject, i: nat, fuel: nat)
    requires WellFormed(g, w, t) && CallsLive(g, t) && RulesWellFormed(g, w)
    requires HeadFail(g, d, t) && i <= |s| && !Peg(g, t, s, i, fuel).Timeout?
    ensures Peg(g, t, s, i, fuel).Fail? <==> !(i < |s| && s[i] in First(g, d, t, FULL).0)
  {
    if i == |s| {
      HeadFailFlag(g, d, t, FULL);
      FirstFlagSound(g, d, t, FULL, s, fuel);
    } else if s[i] in First(g, d, t, FULL).0 {
      HeadFailSound(g, d, t, s, i, fuel);
    } else if Peg(g, t, s, i, fuel).Match? {
      FirstSound(g, w, d, t, FULL, s, i, fuel);
    }
  }
}
