/** The constructors of patterns and the final adjustment of trees, none of which changes what a pattern means. */
module PegBuild {
  import opened PegTree
  import opened PegAnalysis

  /** Two trees mean the same in every grammar they can be put in. */
  ghost predicate Equivalent(t: Tree, t': Tree)
  {
    forall g: seq<Tree>, s: Subject, i: nat, r: Result :: Means(g, t, s, i, r) <==> Means(g, t', s, i, r)
  }

  // ---------- Meanings of trees from those of their parts ----------

  lemma Shown(g: seq<Tree>, t: Tree, s: Subject, i: nat, fuel: nat)
    requires i <= |s| && !Peg(g, t, s, i, fuel).Timeout?
    ensures Means(g, t, s, i, Peg(g, t, s, i, fuel))
  {
  }

  lemma FuelOf(g: seq<Tree>, t: Tree, s: Subject, i: nat, r: Result) returns (fuel: nat)
    requires Means(g, t, s, i, r)
    ensures fuel > 0 && i <= |s| && !r.Timeout? && forall f | f >= fuel :: Peg(g, t, s, i, f) == r
    ensures r.Match? ==> i <= r.pos <= |s|
  {
    fuel :| Peg(g, t, s, i, fuel) == r;
    forall f | f >= fuel ensures Peg(g, t, s, i, f) == r { PegMonotone(g, t, s, i, fuel, f); }
  }

  /** A sequence from the meanings of its parts. */
  lemma SeqMeans(g: seq<Tree>, p: Tree, q: Tree, s: Subject, i: nat, r1: Result, r: Result)
    requires Means(g, p, s, i, r1)
    requires if r1.Match? then Means(g, q, s, r1.pos, r) else r == Fail
    ensures Means(g, TSeq(p, q), s, i, r)
  {
    var f := FuelOf(g, p, s, i, r1);
    if r1.Match? {
      var f' := FuelOf(g, q, s, r1.pos, r);
      assert Peg(g, TSeq(p, q), s, i, f + f' + 1) == r;
    } else {
      assert Peg(g, TSeq(p, q), s, i, f + 1) == r;
    }
  }

  lemma SeqParts(g: seq<Tree>, p: Tree, q: Tree, s: Subject, i: nat, r: Result) returns (r1: Result)
    requires Means(g, TSeq(p, q), s, i, r)
    ensures Means(g, p, s, i, r1) && if r1.Match? then Means(g, q, s, r1.pos, r) else r == Fail
  {
    var f := FuelOf(g, TSeq(p, q), s, i, r);
    assert Peg(g, TSeq(p, q), s, i, f) == r;
    r1 := Peg(g, p, s, i, f - 1);
    Shown(g, p, s, i, f - 1);
    if r1.Match? { Shown(g, q, s, r1.pos, f - 1); }
  }

  /** A choice from the meanings of its parts. */
  lemma ChoiceMeans(g: seq<Tree>, p: Tree, q: Tree, s: Subject, i: nat, r1: Result, r: Result)
    requires Means(g, p, s, i, r1)
    requires if r1.Match? then r == r1 else Means(g, q, s, i, r)
    ensures Means(g, TChoice(p, q), s, i, r)
  {
    var f := FuelOf(g, p, s, i, r1);
    if r1.Match? {
      assert Peg(g, TChoice(p, q), s, i, f + 1) == r;
    } else {
      var f' := FuelOf(g, q, s, i, r);
      assert Peg(g, TChoice(p, q), s, i, f + f' + 1) == r;
    }
  }

  lemma ChoiceParts(g: seq<Tree>, p: Tree, q: Tree, s: Subject, i: nat, r: Result) returns (r1: Result)
    requires Means(g, TChoice(p, q), s, i, r)
    ensures Means(g, p, s, i, r1) && if r1.Match? then r == r1 else Means(g, q, s, i, r)
  {
    var f := FuelOf(g, TChoice(p, q), s, i, r);
    assert Peg(g, TChoice(p, q), s, i, f) == r;
    r1 := Peg(g, p, s, i, f - 1);
    Shown(g, p, s, i, f - 1);
    if !r1.Match? { Shown(g, q, s, i, f - 1); }
  }

  /** What a tree without parts means. */
  function Plain(t: Tree, s: Subject, i: nat): Result
    requires i <= |s| && (ToCharset(t).0 || t.TTrue? || t.TFalse?)
  {
    if t.TTrue? then Match(i)
    else if t.TFalse? then Fail
    else if i < |s| && s[i] in ToCharset(t).1 then Match(i + 1)
    else Fail
  }

  lemma PlainMeans(g: seq<Tree>, t: Tree, s: Subject, i: nat, r: Result)
    requires ToCharset(t).0 || t.TTrue? || t.TFalse?
    ensures Means(g, t, s, i, r) <==> i <= |s| && r == Plain(t, s, i)
  {
    if i <= |s| { assert Peg(g, t, s, i, 1) == Plain(t, s, i); }
    if Means(g, t, s, i, r) { var f := FuelOf(g, t, s, i, r); assert Peg(g, t, s, i, f) == r; }
  }

  lemma NotMeans(g: seq<Tree>, p: Tree, s: Subject, i: nat, r: Result)
    ensures Means(g, TNot(p), s, i, r) <==>
            || (r == Match(i) && Means(g, p, s, i, Fail))
            || (r == Fail && exists j: nat :: Means(g, p, s, i, Match(j)))
  {
    if Means(g, TNot(p), s, i, r) {
      var f := FuelOf(g, TNot(p), s, i, r);
      assert Peg(g, TNot(p), s, i, f) == r;
      Shown(g, p, s, i, f - 1);
    }
    if Means(g, p, s, i, Fail) {
      var f := FuelOf(g, p, s, i, Fail);
      assert Peg(g, TNot(p), s, i, f + 1) == Match(i);
    }
    if j: nat :| Means(g, p, s, i, Match(j)) {
      var f := FuelOf(g, p, s, i, Match(j));
      assert Peg(g, TNot(p), s, i, f + 1) == Fail;
    }
  }

  // ---------- Sequence, choice and difference ----------

  /** lp_seq. */
  function LpSeq(t1: Tree, t2: Tree): Tree
  {
    if t1.TFalse? || t2.TTrue? then t1 else if t1.TTrue? then t2 else TSeq(t1, t2)
  }

  lemma LpSeqRight(t1: Tree, t2: Tree)
    ensures Equivalent(LpSeq(t1, t2), TSeq(t1, t2))
  {
    forall g: seq<Tree>, s: Subject, i: nat, r: Result
      ensures Means(g, LpSeq(t1, t2), s, i, r) <==> Means(g, TSeq(t1, t2), s, i, r)
    {
      if t1.TFalse? || t2.TTrue? || t1.TTrue? { SeqDropped(g, t1, t2, s, i, r); }
    }
  }

  lemma SeqDropped(g: seq<Tree>, t1: Tree, t2: Tree, s: Subject, i: nat, r: Result)
    requires t1.TFalse? || t2.TTrue? || t1.TTrue?
    ensures Means(g, LpSeq(t1, t2), s, i, r) <==> Means(g, TSeq(t1, t2), s, i, r)
  {
    if Means(g, TSeq(t1, t2), s, i, r) {
      var r1 := SeqParts(g, t1, t2, s, i, r);
      if t1.TFalse? || t1.TTrue? { PlainMeans(g, t1, s, i, r1); }
      if t2.TTrue? && r1.Match? { PlainMeans(g, t2, s, r1.pos, r); }
    }
    if Means(g, LpSeq(t1, t2), s, i, r) {
      if t1.TFalse? {
        PlainMeans(g, t1, s, i, r);
        SeqMeans(g, t1, t2, s, i, r, r);
      } else if t2.TTrue? {
        var _ := FuelOf(g, t1, s, i, r);
        if r.Match? { PlainMeans(g, t2, s, r.pos, r); }
        SeqMeans(g, t1, t2, s, i, r, r);
      } else {
        PlainMeans(g, t1, s, i, Match(i));
        SeqMeans(g, t1, t2, s, i, Match(i), r);
      }
    }
  }

  /** lp_choice; calls are still open, so that `nofail` knows nothing of them. */
  function LpChoice(d: nat, t1: Tree, t2: Tree): Tree
  {
    if ToCharset(t1).0 && ToCharset(t2).0 then TSet(ToCharset(t1).1 + ToCharset(t2).1)
    else if Nofail([], d, t1) || t2.TFalse? then t1
    else if t1.TFalse? then t2
    else TChoice(t1, t2)
  }

  /** What never fails while its calls are open never fails in any grammar. */
  lemma {:induction false} NofailInside(g: seq<Tree>, d: nat, t: Tree)
    requires Nofail([], d, t)
    ensures Nofail(g, d, t)
    decreases t
  {
    match t
    case TAnd(p) => NofailInside(g, d, p);
    case TSeq(p1, p2) => NofailInside(g, d, p1); NofailInside(g, d, p2);
    case TChoice(p1, p2) => if Nofail([], d, p2) { NofailInside(g, d, p2); } else { NofailInside(g, d, p1); }
    case _ =>
  }

  lemma LpChoiceRight(d: nat, t1: Tree, t2: Tree)
    ensures Equivalent(LpChoice(d, t1, t2), TChoice(t1, t2))
  {
    forall g: seq<Tree>, s: Subject, i: nat, r: Result
      ensures Means(g, LpChoice(d, t1, t2), s, i, r) <==> Means(g, TChoice(t1, t2), s, i, r)
    {
      if ToCharset(t1).0 && ToCharset(t2).0 { ChoiceOfSets(g, t1, t2, s, i, r); }
      else if Nofail([], d, t1) || t2.TFalse? || t1.TFalse? { ChoiceDropped(g, d, t1, t2, s, i, r); }
    }
  }

  lemma ChoiceOfSets(g: seq<Tree>, t1: Tree, t2: Tree, s: Subject, i: nat, r: Result)
    requires ToCharset(t1).0 && ToCharset(t2).0
    ensures Means(g, TSet(ToCharset(t1).1 + ToCharset(t2).1), s, i, r) <==> Means(g, TChoice(t1, t2), s, i, r)
  {
    var both := TSet(ToCharset(t1).1 + ToCharset(t2).1);
    PlainMeans(g, both, s, i, r);
    if i <= |s| {
      var r1, r2 := Plain(t1, s, i), Plain(t2, s, i);
      PlainMeans(g, t1, s, i, r1);
      PlainMeans(g, t2, s, i, r2);
      ChoiceMeans(g, t1, t2, s, i, r1, if r1.Match? then r1 else r2);
      if Means(g, TChoice(t1, t2), s, i, r) { MeansUnique(g, TChoice(t1, t2), s, i, r, if r1.Match? then r1 else r2); }
    }
  }

  lemma ChoiceDropped(g: seq<Tree>, d: nat, t1: Tree, t2: Tree, s: Subject, i: nat, r: Result)
    requires !(ToCharset(t1).0 && ToCharset(t2).0) && (Nofail([], d, t1) || t2.TFalse? || t1.TFalse?)
    ensures Means(g, LpChoice(d, t1, t2), s, i, r) <==> Means(g, TChoice(t1, t2), s, i, r)
  {
    if Means(g, TChoice(t1, t2), s, i, r) {
      var r1 := ChoiceParts(g, t1, t2, s, i, r);
      if Nofail([], d, t1) { NeverFails(g, d, t1, s, i, r1); }
      else if t2.TFalse? { PlainMeans(g, t2, s, i, r); }
      else { PlainMeans(g, t1, s, i, r1); }
    }
    if Means(g, LpChoice(d, t1, t2), s, i, r) {
      if Nofail([], d, t1) {
        NeverFails(g, d, t1, s, i, r);
        ChoiceMeans(g, t1, t2, s, i, r, r);
      } else if t2.TFalse? {
        PlainMeans(g, t2, s, i, Fail);
        ChoiceMeans(g, t1, t2, s, i, r, r);
      } else {
        PlainMeans(g, t1, s, i, Fail);
        ChoiceMeans(g, t1, t2, s, i, Fail, r);
      }
    }
  }

  lemma NeverFails(g: seq<Tree>, d: nat, t: Tree, s: Subject, i: nat, r: Result)
    requires Nofail([], d, t) && Means(g, t, s, i, r)
    ensures r.Match?
  {
    var f := FuelOf(g, t, s, i, r);
    NofailInside(g, d, t);
    NofailSound(g, d, t, s, i, f);
    assert Peg(g, t, s, i, f) == r;
  }

  /** lp_sub. */
  function LpSub(t1: Tree, t2: Tree): Tree
  {
    if ToCharset(t1).0 && ToCharset(t2).0 then TSet(ToCharset(t1).1 - ToCharset(t2).1) else TSeq(TNot(t2), t1)
  }

  lemma LpSubRight(t1: Tree, t2: Tree)
    ensures Equivalent(LpSub(t1, t2), TSeq(TNot(t2), t1))
  {
    forall g: seq<Tree>, s: Subject, i: nat, r: Result
      ensures Means(g, LpSub(t1, t2), s, i, r) <==> Means(g, TSeq(TNot(t2), t1), s, i, r)
    {
      if ToCharset(t1).0 && ToCharset(t2).0 { SubOfSets(g, t1, t2, s, i, r); }
    }
  }

  lemma SubOfSets(g: seq<Tree>, t1: Tree, t2: Tree, s: Subject, i: nat, r: Result)
    requires ToCharset(t1).0 && ToCharset(t2).0
    ensures Means(g, LpSub(t1, t2), s, i, r) <==> Means(g, TSeq(TNot(t2), t1), s, i, r)
  {
    PlainMeans(g, LpSub(t1, t2), s, i, r);
    if i <= |s| {
      var r1, r2 := Plain(t1, s, i), Plain(t2, s, i);
      PlainMeans(g, t1, s, i, r1);
      PlainMeans(g, t2, s, i, r2);
      var look := if r2.Match? then Fail else Match(i);
      NotMeans(g, t2, s, i, look);
      SeqMeans(g, TNot(t2), t1, s, i, look, if r2.Match? then Fail else r1);
      if Means(g, TSeq(TNot(t2), t1), s, i, r) {
        MeansUnique(g, TSeq(TNot(t2), t1), s, i, r, if r2.Match? then Fail else r1);
      }
    }
  }

  // ---------- Repetition ----------

  /** The tree of p^n for n >= 0: at least n times. */
  function AtLeast(p: Tree, n: nat): Tree
  {
    if n == 0 then TRep(p) else TSeq(p, AtLeast(p, n - 1))
  }

  /** The tree of p^-n: at most n times. */
  function AtMost(p: Tree, n: nat): Tree
    requires n > 0
  {
    if n == 1 then TChoice(p, TTrue) else TChoice(TSeq(p, AtMost(p, n - 1)), TTrue)
  }

  /** `p` matches `k` times in a row from `i` to `j`. */
  ghost predicate Times(g: seq<Tree>, p: Tree, s: Subject, i: nat, k: nat, j: nat)
    decreases k
  {
    if k == 0 then i == j <= |s| else exists m: nat :: Means(g, p, s, i, Match(m)) && Times(g, p, s, m, k - 1, j)
  }

  lemma {:induction false} RepMeans(g: seq<Tree>, p: Tree, s: Subject, i: nat, k: nat, j: nat)
    requires Times(g, p, s, i, k, j) && Means(g, p, s, j, Fail)
    ensures Means(g, TRep(p), s, i, Match(j))
    decreases k
  {
    if k == 0 {
      var f := FuelOf(g, p, s, i, Fail);
      assert Peg(g, TRep(p), s, i, f + 1) == Match(i);
    } else {
      var m: nat :| Means(g, p, s, i, Match(m)) && Times(g, p, s, m, k - 1, j);
      RepMeans(g, p, s, m, k - 1, j);
      var f := FuelOf(g, p, s, i, Match(m));
      var f' := FuelOf(g, TRep(p), s, m, Match(j));
      assert Peg(g, TRep(p), s, i, f + f' + 1) == Match(j);
    }
  }

  lemma RepStep(g: seq<Tree>, p: Tree, s: Subject, i: nat, fuel: nat)
    requires i <= |s| && !Peg(g, TRep(p), s, i, fuel).Timeout?
    ensures fuel > 0
    ensures var r, r1 := Peg(g, TRep(p), s, i, fuel), Peg(g, p, s, i, fuel - 1);
            && Means(g, p, s, i, r1)
            && if r1.Match? then r == Peg(g, TRep(p), s, r1.pos, fuel - 1) else r == Match(i)
  {
  }

  lemma {:induction false} RepTimes(g: seq<Tree>, p: Tree, s: Subject, i: nat, fuel: nat) returns (k: nat)
    requires i <= |s| && !Peg(g, TRep(p), s, i, fuel).Timeout?
    ensures Peg(g, TRep(p), s, i, fuel).Match?
    ensures var j := Peg(g, TRep(p), s, i, fuel).pos; Times(g, p, s, i, k, j) && Means(g, p, s, j, Fail)
    decreases fuel
  {
    hide Peg, Means;
    RepStep(g, p, s, i, fuel);
    var r := Peg(g, p, s, i, fuel - 1);
    if r.Match? {
      k := RepTimes(g, p, s, r.pos, fuel - 1);
      k := k + 1;
    } else {
      k := 0;
      MeansFails(g, p, s, i, r);
    }
  }

  lemma MeansFails(g: seq<Tree>, p: Tree, s: Subject, i: nat, r: Result)
    requires Means(g, p, s, i, r) && !r.Match?
    ensures r == Fail
  {
  }

  /** p^n matches as often as it can, and fails when that is less than `n` times. */
  lemma {:induction false} AtLeastMeans(g: seq<Tree>, p: Tree, n: nat, s: Subject, i: nat, k: nat, j: nat)
    requires Times(g, p, s, i, k, j) && Means(g, p, s, j, Fail)
    ensures Means(g, AtLeast(p, n), s, i, if k >= n then Match(j) else Fail)
    decreases n
  {
    hide Peg, Means;
    if n == 0 {
      RepMeans(g, p, s, i, k, j);
    } else if k == 0 {
      SeqMeans(g, p, AtLeast(p, n - 1), s, i, Fail, Fail);
    } else {
      var m: nat :| Means(g, p, s, i, Match(m)) && Times(g, p, s, m, k - 1, j);
      AtLeastMeans(g, p, n - 1, s, m, k - 1, j);
      SeqMeans(g, p, AtLeast(p, n - 1), s, i, Match(m), if k >= n then Match(j) else Fail);
    }
  }

  /** Whenever p^n has a meaning, there is a number of times that `p` matches before it fails. */
  lemma {:induction false} AtLeastTimes(g: seq<Tree>, p: Tree, n: nat, s: Subject, i: nat, r: Result)
    returns (k: nat, j: nat)
    requires Means(g, AtLeast(p, n), s, i, r)
    ensures Times(g, p, s, i, k, j) && Means(g, p, s, j, Fail) && r == if k >= n then Match(j) else Fail
    decreases n
  {
    hide Peg, Means;
    if n == 0 {
      var f := FuelOf(g, TRep(p), s, i, r);
      k := RepTimes(g, p, s, i, f);
      j := r.pos;
    } else {
      var r1 := SeqParts(g, p, AtLeast(p, n - 1), s, i, r);
      if r1.Match? {
        k, j := AtLeastTimes(g, p, n - 1, s, r1.pos, r);
        k := k + 1;
      } else {
        var _ := FuelOf(g, p, s, i, r1);
        k, j := 0, i;
      }
    }
  }

  /** p^-n matches as often as it can, but not more than `n` times, and never fails. */
  lemma {:induction false} AtMostMeans(g: seq<Tree>, p: Tree, n: nat, s: Subject, i: nat, k: nat, j: nat)
    requires n > 0 && Times(g, p, s, i, k, j) && k <= n && (k < n ==> Means(g, p, s, j, Fail))
    ensures Means(g, AtMost(p, n), s, i, Match(j))
    decreases n
  {
    hide Peg, Means;
    if k == 0 {
      PlainMeans(g, TTrue, s, i, Match(i));
      if n == 1 {
        ChoiceMeans(g, p, TTrue, s, i, Fail, Match(i));
      } else {
        SeqMeans(g, p, AtMost(p, n - 1), s, i, Fail, Fail);
        ChoiceMeans(g, TSeq(p, AtMost(p, n - 1)), TTrue, s, i, Fail, Match(i));
      }
    } else {
      var m: nat :| Means(g, p, s, i, Match(m)) && Times(g, p, s, m, k - 1, j);
      if n == 1 {
        ChoiceMeans(g, p, TTrue, s, i, Match(m), Match(m));
      } else {
        AtMostMeans(g, p, n - 1, s, m, k - 1, j);
        SeqMeans(g, p, AtMost(p, n - 1), s, i, Match(m), Match(j));
        ChoiceMeans(g, TSeq(p, AtMost(p, n - 1)), TTrue, s, i, Match(j), Match(j));
      }
    }
  }

  /** Whenever p^-n has a meaning, it is to match, after as many matches of `p` as there are, but not more than `n`. */
  lemma {:induction false} AtMostTimes(g: seq<Tree>, p: Tree, n: nat, s: Subject, i: nat, r: Result)
    returns (k: nat, j: nat)
    requires n > 0 && Means(g, AtMost(p, n), s, i, r)
    ensures Times(g, p, s, i, k, j) && k <= n && (k < n ==> Means(g, p, s, j, Fail)) && r == Match(j)
    decreases n
  {
    hide Peg, Means;
    var _ := FuelOf(g, AtMost(p, n), s, i, r);
    var body := if n == 1 then p else TSeq(p, AtMost(p, n - 1));
    var r1 := ChoiceParts(g, body, TTrue, s, i, r);
    var _ := FuelOf(g, body, s, i, r1);
    if n == 1 {
      if r1.Match? { k, j := 1, r1.pos; OneTime(g, p, s, i, j); }
      else { k, j := 0, i; PlainMeans(g, TTrue, s, i, r); }
    } else {
      var r2 := SeqParts(g, p, AtMost(p, n - 1), s, i, r1);
      var _ := FuelOf(g, p, s, i, r2);
      if r2.Match? {
        k, j := AtMostTimes(g, p, n - 1, s, r2.pos, r1);
        k := k + 1;
      } else {
        k, j := 0, i;
        PlainMeans(g, TTrue, s, i, r);
      }
    }
  }

  lemma OneTime(g: seq<Tree>, p: Tree, s: Subject, i: nat, j: nat)
    requires Means(g, p, s, i, Match(j)) && j <= |s|
    ensures Times(g, p, s, i, 1, j)
  {
    assert Times(g, p, s, j, 0, j);
  }

  // ---------- Right association ----------

  /** `t` in front of a sequence that is already fixed. */
  function SeqInto(t: Tree, rest: Tree): Tree
    decreases t, 1
  {
    match t
    case TSeq(p, q) => SeqInto(p, SeqInto(q, rest))
    case _ => TSeq(Fix(t), rest)
  }

  function ChoiceInto(t: Tree, rest: Tree): Tree
    decreases t, 1
  {
    match t
    case TChoice(p, q) => ChoiceInto(p, ChoiceInto(q, rest))
    case _ => TChoice(Fix(t), rest)
  }

  /** finalfix: sequences and choices become right associative everywhere outside nested grammars. */
  function Fix(t: Tree): Tree
    decreases t, 0
  {
    match t
    case TSeq(p, q) => SeqInto(p, Fix(q))
    case TChoice(p, q) => ChoiceInto(p, Fix(q))
    case TRep(p) => TRep(Fix(p))
    case TNot(p) => TNot(Fix(p))
    case TAnd(p) => TAnd(Fix(p))
    case TBehind(p, n) => TBehind(Fix(p), n)
    case _ => t
  }

  function FixAll(g: seq<Tree>): (r: seq<Tree>)
    ensures |r| == |g|
  {
    seq(|g|, i requires 0 <= i < |g| => Fix(g[i]))
  }

  predicate Binary(t: Tree)
  {
    t.TSeq? || t.TChoice?
  }

  predicate LeftNested(t: Tree)
  {
    (t.TSeq? && t.p1.TSeq?) || (t.TChoice? && t.p1.TChoice?)
  }

  /** One turn of the loop of correctassociativity. */
  function Rotated(t: Tree): Tree
    requires LeftNested(t)
  {
    if t.TSeq? then TSeq(t.p1.p1, TSeq(t.p1.p2, t.p2)) else TChoice(t.p1.p1, TChoice(t.p1.p2, t.p2))
  }

  /** Turning the loop once more does not change what comes out. */
  lemma RotatedSame(t: Tree)
    requires LeftNested(t)
    ensures Fix(Rotated(t)) == Fix(t)
  {
  }

  /** No sequence and no choice is left-nested. */
  predicate RightNested(t: Tree)
  {
    match t
    case TSeq(p, q) => !p.TSeq? && RightNested(p) && RightNested(q)
    case TChoice(p, q) => !p.TChoice? && RightNested(p) && RightNested(q)
    case TRep(p) => RightNested(p)
    case TNot(p) => RightNested(p)
    case TAnd(p) => RightNested(p)
    case TBehind(p, _) => RightNested(p)
    case _ => true
  }

  lemma {:induction false} FixNests(t: Tree)
    ensures RightNested(Fix(t)) && (Fix(t).TSeq? <==> t.TSeq?) && (Fix(t).TChoice? <==> t.TChoice?)
    decreases t, 0
  {
    match t
    case TSeq(p, q) => FixNests(q); SeqNests(p, Fix(q));
    case TChoice(p, q) => FixNests(q); ChoiceNests(p, Fix(q));
    case TRep(p) => FixNests(p);
    case TNot(p) => FixNests(p);
    case TAnd(p) => FixNests(p);
    case TBehind(p, _) => FixNests(p);
    case _ =>
  }

  lemma {:induction false} SeqNests(t: Tree, rest: Tree)
    requires RightNested(rest)
    ensures RightNested(SeqInto(t, rest)) && SeqInto(t, rest).TSeq?
    decreases t, 1
  {
    if t.TSeq? {
      SeqNests(t.p2, rest);
      SeqNests(t.p1, SeqInto(t.p2, rest));
    } else {
      FixNests(t);
    }
  }

  lemma {:induction false} ChoiceNests(t: Tree, rest: Tree)
    requires RightNested(rest)
    ensures RightNested(ChoiceInto(t, rest)) && ChoiceInto(t, rest).TChoice?
    decreases t, 1
  {
    if t.TChoice? {
      ChoiceNests(t.p2, rest);
      ChoiceNests(t.p1, ChoiceInto(t.p2, rest));
    } else {
      FixNests(t);
    }
  }

  // ---------- Fixing keeps the meaning ----------

  /** What a tree matches, the fixed tree matches among the fixed rules. */
  lemma {:induction false} FixForward(g: seq<Tree>, t: Tree, s: Subject, i: nat, fuel: nat)
    requires i <= |s| && !Peg(g, t, s, i, fuel).Timeout?
    ensures Means(FixAll(g), Fix(t), s, i, Peg(g, t, s, i, fuel))
    decreases fuel, t, 0
  {
    var g' := FixAll(g);
    var r := Peg(g, t, s, i, fuel);
    if t.TSeq? {
      var r1 := Peg(g, t.p1, s, i, fuel - 1);
      if r1.Match? { FixForward(g, t.p2, s, r1.pos, fuel - 1); }
      SeqForward(g, t.p1, Fix(t.p2), s, i, fuel - 1, r);
    } else if t.TChoice? {
      var r1 := Peg(g, t.p1, s, i, fuel - 1);
      if r1.Fail? { FixForward(g, t.p2, s, i, fuel - 1); }
      ChoiceForward(g, t.p1, Fix(t.p2), s, i, fuel - 1, r);
    } else if t.TRep? || t.TNot? || t.TAnd? || t.TBehind? {
      BodyForward(g, t, s, i, fuel);
    } else if t.TCall? && t.rule < |g| {
      FixForward(g, g[t.rule], s, i, fuel - 1);
      var f := FuelOf(g', Fix(g[t.rule]), s, i, r);
      assert Peg(g', TCall(t.rule), s, i, f + 1) == r;
    } else if t.TGrammar? && |t.rules| > 0 {
      assert Peg(g', t, s, i, fuel) == r;
    } else {
      assert Peg(g', t, s, i, 1) == r;
    }
  }

  lemma {:induction false} BodyForward(g: seq<Tree>, t: Tree, s: Subject, i: nat, fuel: nat)
    requires i <= |s| && !Peg(g, t, s, i, fuel).Timeout? && (t.TRep? || t.TNot? || t.TAnd? || t.TBehind?)
    ensures Means(FixAll(g), Fix(t), s, i, Peg(g, t, s, i, fuel))
    decreases fuel, t, -1
  {
    var g', r, t' := FixAll(g), Peg(g, t, s, i, fuel), Fix(t);
    var at := if t.TBehind? then i - t.n else i;
    if at < 0 {
      assert Peg(g', t', s, i, 1) == r;
    } else {
      var r1 := Peg(g, t.p, s, at, fuel - 1);
      FixForward(g, t.p, s, at, fuel - 1);
      var f := FuelOf(g', Fix(t.p), s, at, r1);
      if t.TRep? && r1.Match? {
        FixForward(g, t, s, r1.pos, fuel - 1);
        var f' := FuelOf(g', t', s, r1.pos, r);
        assert Peg(g', t', s, i, f + f' + 1) == r;
      } else {
        assert Peg(g', t', s, i, f + 1) == r;
      }
    }
  }

  /** `r` is what comes of `t` when what follows it means the rest. */
  lemma {:induction false} SeqForward(g: seq<Tree>, t: Tree, rest: Tree, s: Subject, i: nat, fuel: nat, r: Result)
    requires i <= |s| && !Peg(g, t, s, i, fuel).Timeout?
    requires var r1 := Peg(g, t, s, i, fuel);
             if r1.Match? then Means(FixAll(g), rest, s, r1.pos, r) else r == Fail
    ensures Means(FixAll(g), SeqInto(t, rest), s, i, r)
    decreases fuel, t, 1
  {
    if t.TSeq? {
      var r1 := Peg(g, t.p1, s, i, fuel - 1);
      if r1.Match? { SeqForward(g, t.p2, rest, s, r1.pos, fuel - 1, r); }
      SeqForward(g, t.p1, SeqInto(t.p2, rest), s, i, fuel - 1, r);
    } else {
      FixForward(g, t, s, i, fuel);
      SeqMeans(FixAll(g), Fix(t), rest, s, i, Peg(g, t, s, i, fuel), r);
    }
  }

  lemma {:induction false} ChoiceForward(g: seq<Tree>, t: Tree, rest: Tree, s: Subject, i: nat, fuel: nat, r: Result)
    requires i <= |s| && !Peg(g, t, s, i, fuel).Timeout?
    requires var r1 := Peg(g, t, s, i, fuel);
             if r1.Match? then r == r1 else Means(FixAll(g), rest, s, i, r)
    ensures Means(FixAll(g), ChoiceInto(t, rest), s, i, r)
    decreases fuel, t, 1
  {
    if t.TChoice? {
      var r1 := Peg(g, t.p1, s, i, fuel - 1);
      if r1.Fail? { ChoiceForward(g, t.p2, rest, s, i, fuel - 1, r); }
      ChoiceForward(g, t.p1, ChoiceInto(t.p2, rest), s, i, fuel - 1, r);
    } else {
      FixForward(g, t, s, i, fuel);
      ChoiceMeans(FixAll(g), Fix(t), rest, s, i, Peg(g, t, s, i, fuel), r);
    }
  }

  /** What the fixed tree matches, the tree matches. */
  lemma {:induction false} FixBack(g: seq<Tree>, t: Tree, s: Subject, i: nat, fuel: nat)
    requires i <= |s| && !Peg(FixAll(g), Fix(t), s, i, fuel).Timeout?
    ensures Means(g, t, s, i, Peg(FixAll(g), Fix(t), s, i, fuel))
    decreases fuel, t, 0
  {
    var g' := FixAll(g);
    var r := Peg(g', Fix(t), s, i, fuel);
    if t.TSeq? {
      var r1, f := SeqBack(g, t.p1, Fix(t.p2), s, i, fuel);
      if r1.Match? { FixBack(g, t.p2, s, r1.pos, f); }
      SeqMeans(g, t.p1, t.p2, s, i, r1, r);
    } else if t.TChoice? {
      var r1, f := ChoiceBack(g, t.p1, Fix(t.p2), s, i, fuel);
      if r1.Fail? { FixBack(g, t.p2, s, i, f); }
      ChoiceMeans(g, t.p1, t.p2, s, i, r1, r);
    } else if t.TRep? || t.TNot? || t.TAnd? || t.TBehind? {
      BodyBack(g, t, s, i, fuel);
    } else if t.TCall? && t.rule < |g| {
      FixBack(g, g[t.rule], s, i, fuel - 1);
      var f := FuelOf(g, g[t.rule], s, i, r);
      assert Peg(g, t, s, i, f + 1) == r;
    } else if t.TGrammar? && |t.rules| > 0 {
      assert Peg(g, t, s, i, fuel) == r;
    } else {
      assert Peg(g, t, s, i, 1) == r;
    }
  }

  lemma {:induction false} BodyBack(g: seq<Tree>, t: Tree, s: Subject, i: nat, fuel: nat)
    requires i <= |s| && !Peg(FixAll(g), Fix(t), s, i, fuel).Timeout? && (t.TRep? || t.TNot? || t.TAnd? || t.TBehind?)
    ensures Means(g, t, s, i, Peg(FixAll(g), Fix(t), s, i, fuel))
    decreases fuel, t, -1
  {
    var g', t' := FixAll(g), Fix(t);
    var r := Peg(g', t', s, i, fuel);
    var at := if t.TBehind? then i - t.n else i;
    if at < 0 {
      assert Peg(g, t, s, i, 1) == r;
    } else {
      var r1 := Peg(g', Fix(t.p), s, at, fuel - 1);
      FixBack(g, t.p, s, at, fuel - 1);
      var f := FuelOf(g, t.p, s, at, r1);
      if t.TRep? && r1.Match? {
        FixBack(g, t, s, r1.pos, fuel - 1);
        var f' := FuelOf(g, t, s, r1.pos, r);
        assert Peg(g, t, s, i, f + f' + 1) == r;
      } else {
        assert Peg(g, t, s, i, f + 1) == r;
      }
    }
  }

  /** The result of the tree in front of the fixed rest, and the fuel there was for the rest. */
  lemma {:induction false} SeqBack(g: seq<Tree>, t: Tree, rest: Tree, s: Subject, i: nat, fuel: nat)
    returns (r1: Result, f: nat)
    requires i <= |s| && !Peg(FixAll(g), SeqInto(t, rest), s, i, fuel).Timeout?
    ensures Means(g, t, s, i, r1) && (r1.Match? ==> i <= r1.pos <= |s|) && f < fuel
    ensures Peg(FixAll(g), SeqInto(t, rest), s, i, fuel)
         == if r1.Match? then Peg(FixAll(g), rest, s, r1.pos, f) else Fail
    decreases fuel, t, 1
  {
    if t.TSeq? {
      var r2;
      r2, f := SeqBack(g, t.p1, SeqInto(t.p2, rest), s, i, fuel);
      if r2.Match? {
        r1, f := SeqBack(g, t.p2, rest, s, r2.pos, f);
      } else {
        r1 := Fail;
      }
      SeqMeans(g, t.p1, t.p2, s, i, r2, r1);
    } else {
      r1, f := Peg(FixAll(g), Fix(t), s, i, fuel - 1), fuel - 1;
      FixBack(g, t, s, i, fuel - 1);
    }
  }

  lemma {:induction false} ChoiceBack(g: seq<Tree>, t: Tree, rest: Tree, s: Subject, i: nat, fuel: nat)
    returns (r1: Result, f: nat)
    requires i <= |s| && !Peg(FixAll(g), ChoiceInto(t, rest), s, i, fuel).Timeout?
    ensures Means(g, t, s, i, r1) && f < fuel
    ensures Peg(FixAll(g), ChoiceInto(t, rest), s, i, fuel)
         == if r1.Match? then r1 else Peg(FixAll(g), rest, s, i, f)
    decreases fuel, t, 1
  {
    if t.TChoice? {
      var r2;
      r2, f := ChoiceBack(g, t.p1, ChoiceInto(t.p2, rest), s, i, fuel);
      if r2.Match? {
        r1 := r2;
      } else {
        r1, f := ChoiceBack(g, t.p2, rest, s, i, f);
      }
      ChoiceMeans(g, t.p1, t.p2, s, i, r2, r1);
    } else {
      r1, f := Peg(FixAll(g), Fix(t), s, i, fuel - 1), fuel - 1;
      FixBack(g, t, s, i, fuel - 1);
    }
  }

  /** finalfix changes no meaning: a tree among its rules and the fixed tree among the fixed rules match the same. */
  lemma FixRight(g: seq<Tree>, t: Tree, s: Subject, i: nat, r: Result)
    ensures Means(FixAll(g), Fix(t), s, i, r) <==> Means(g, t, s, i, r)
  {
    if Means(g, t, s, i, r) {
      var f := FuelOf(g, t, s, i, r);
      FixForward(g, t, s, i, f);
    }
    if Means(FixAll(g), Fix(t), s, i, r) {
      var f := FuelOf(FixAll(g), Fix(t), s, i, r);
      FixBack(g, t, s, i, f);
    }
  }

  // ---------- Trees in arrays ----------

  datatype Tag = SeqTag | ChoiceTag | RepTag | NotTag | AndTag | BehindTag(n: nat)

  /** A node of a tree: without siblings, with one behind it, or with a second one `ps` nodes further on. */
  datatype Node = Leaf(t: Tree) | One(tag: Tag) | Two(tag: Tag, ps: nat)

  function Layout(t: Tree): (r: seq<Node>)
    ensures |r| > 0
  {
    match t
    case TSeq(p, q) => [Two(SeqTag, 1 + |Layout(p)|)] + Layout(p) + Layout(q)
    case TChoice(p, q) => [Two(ChoiceTag, 1 + |Layout(p)|)] + Layout(p) + Layout(q)
    case TRep(p) => [One(RepTag)] + Layout(p)
    case TNot(p) => [One(NotTag)] + Layout(p)
    case TAnd(p) => [One(AndTag)] + Layout(p)
    case TBehind(p, n) => [One(BehindTag(n))] + Layout(p)
    case _ => [Leaf(t)]
  }

  /** The tree of `t` lies at `at`. */
  predicate Lies(a: seq<Node>, at: nat, t: Tree)
  {
    at + |Layout(t)| <= |a| && a[at..at + |Layout(t)|] == Layout(t)
  }

  function TagOf(t: Tree): Tag
    requires Binary(t)
  {
    if t.TSeq? then SeqTag else ChoiceTag
  }

  /** A node with two parts behind it. */
  function Joined(x: Node, p: seq<Node>, q: seq<Node>): (r: seq<Node>)
    ensures |r| == 1 + |p| + |q|
  {
    [x] + p + q
  }

  lemma RotatedLayout(t: Tree)
    requires LeftNested(t)
    ensures var tag, l11, l12, l2 := TagOf(t), Layout(t.p1.p1), Layout(t.p1.p2), Layout(t.p2);
            && Layout(t) == Joined(Two(tag, 2 + |l11| + |l12|), Joined(Two(tag, 1 + |l11|), l11, l12), l2)
            && Layout(Rotated(t)) == Joined(Two(tag, 1 + |l11|), l11, Joined(Two(tag, 1 + |l12|), l12, l2))
  {
    hide *;
    RotatedShape(t);
    var t' := Rotated(t);
    BinaryLayout(t);
    BinaryLayout(t.p1);
    BinaryLayout(t');
    BinaryLayout(t'.p2);
  }

  lemma RotatedShape(t: Tree)
    requires LeftNested(t)
    ensures Binary(t) && Binary(t.p1)
    ensures var t' := Rotated(t);
            && Binary(t') && Binary(t'.p2) && t'.p1 == t.p1.p1 && t'.p2.p1 == t.p1.p2 && t'.p2.p2 == t.p2
            && TagOf(t') == TagOf(t'.p2) == TagOf(t.p1) == TagOf(t)
  {
  }

  lemma BinaryLayout(t: Tree)
    requires Binary(t)
    ensures Layout(t) == Joined(Two(TagOf(t), 1 + |Layout(t.p1)|), Layout(t.p1), Layout(t.p2))
  {
  }

  lemma SubSlice(a: seq<Node>, at: nat, n: nat, i: nat, j: nat)
    requires at + n <= |a| && i <= j <= n
    ensures a[at..at + n][i..j] == a[at + i..at + j]
  {
    var l, r := a[at..at + n][i..j], a[at + i..at + j];
    assert |l| == |r|;
    forall k | 0 <= k < |l| ensures l[k] == r[k] { assert l[k] == a[at..at + n][i + k] == a[at + (i + k)]; }
  }

  /** The parts of a stretch of the array. */
  lemma Stretch(a: seq<Node>, at: nat, x: Node, y: Node, p: seq<Node>, q: seq<Node>, r: seq<Node>)
    requires at + 2 + |p| + |q| + |r| <= |a| && a[at..at + 2 + |p| + |q| + |r|] == Joined(x, Joined(y, p, q), r)
    ensures a[at] == x && a[at + 1] == y
    ensures a[at + 2..at + 2 + |p|] == p && a[at + 2 + |p|..at + 2 + |p| + |q| + |r|] == q + r
  {
    hide Joined;
    var n := 2 + |p| + |q| + |r|;
    var whole := a[at..at + n];
    assert a[at] == whole[0] && a[at + 1] == whole[1];
    SubSlice(a, at, n, 2, 2 + |p|);
    SubSlice(a, at, n, 2 + |p|, n);
    var parts := Joined(x, Joined(y, p, q), r);
    PartsOf(x, y, p, q, r);
    assert whole == parts;
  }

  lemma PartsOf(x: Node, y: Node, p: seq<Node>, q: seq<Node>, r: seq<Node>)
    ensures var parts := Joined(x, Joined(y, p, q), r);
            && |parts| == 2 + |p| + |q| + |r| && parts[0] == x && parts[1] == y
            && parts[2..2 + |p|] == p && parts[2 + |p|..2 + |p| + |q| + |r|] == q + r
  {
  }

  /** Putting the parts together again. */
  lemma Rejoined(a: seq<Node>, at: nat, x: Node, p: seq<Node>, y: Node, q: seq<Node>, r: seq<Node>)
    requires at + 2 + |p| + |q| + |r| <= |a| && a[at] == x && a[at + 1 + |p|] == y
    requires a[at + 1..at + 1 + |p|] == p
    requires a[at + 2 + |p|..at + 2 + |p| + |q| + |r|] == q + r
    ensures a[at..at + 2 + |p| + |q| + |r|] == Joined(x, p, Joined(y, q, r))
  {
  }

  /** Whether two nodes are of the same kind with two siblings. */
  predicate SameKind(x: Node, y: Node)
  {
    x.Two? && y.Two? && x.tag == y.tag
  }

  /** The first node says whether a tree has two parts, and the one behind it whether the first part is of its kind. */
  lemma TagsShow(a: seq<Node>, at: nat, t: Tree)
    requires Lies(a, at, t)
    ensures a[at].Two? <==> Binary(t)
    ensures Binary(t) ==> at + 1 < |a| && (SameKind(a[at + 1], a[at]) <==> LeftNested(t))
  {
    assert a[at] == Layout(t)[0];
    if Binary(t) {
      assert a[at + 1] == Layout(t)[1] == Layout(t.p1)[0];
    }
  }

  /** correctassociativity on the array. */
  method CorrectAssociativity(a: array<Node>, at: nat, ghost t: Tree) returns (ghost t': Tree)
    requires Lies(a[..], at, t) && Binary(t)
    modifies a
    ensures Lies(a[..], at, t') && Binary(t') && !LeftNested(t') && Fix(t') == Fix(t) && |Layout(t')| == |Layout(t)|
    ensures forall k | 0 <= k < a.Length && !(at <= k < at + |Layout(t)|) :: a[k] == old(a[k])
  {
    hide Layout, Fix;
    t' := t;
    TagsShow(a[..], at, t);
    while SameKind(a[at + 1], a[at])
      invariant Lies(a[..], at, t') && Binary(t') && Fix(t') == Fix(t) && |Layout(t')| == |Layout(t)|
      invariant forall k | 0 <= k < a.Length && !(at <= k < at + |Layout(t)|) :: a[k] == old(a[k])
      invariant at + 1 < a.Length && (SameKind(a[at + 1], a[at]) <==> LeftNested(t'))
      decreases |Layout(t'.p1)|
    {
      t' := Rotate(a, at, t');
      TagsShow(a[..], at, t');
    }
  }

  /** One turn of the loop. */
  method Rotate(a: array<Node>, at: nat, ghost t: Tree) returns (ghost t': Tree)
    requires Lies(a[..], at, t) && LeftNested(t)
    modifies a
    ensures t' == Rotated(t) && Lies(a[..], at, t') && Fix(t') == Fix(t) && |Layout(t')| == |Layout(t)|
    ensures |Layout(t'.p1)| < |Layout(t.p1)|
    ensures forall k | 0 <= k < a.Length && !(at <= k < at + |Layout(t)|) :: a[k] == old(a[k])
  {
    hide *;
    RotatedShape(t);
    RotatedSame(t);
    RotatedLayout(t);
    ShorterPart(t);
    t' := Rotated(t);
    ghost var l11, l12, l2 := Layout(t.p1.p1), Layout(t.p1.p2), Layout(t.p2);
    ghost var was, tag := a[..], TagOf(t);
    LiesThere(was, at, t, Two(tag, 2 + |l11| + |l12|), Two(tag, 1 + |l11|), l11, l12, l2);
    var n1size := a[at].ps - 1;
    var n11size := a[at + 1].ps - 1;
    var n12size := n1size - n11size - 1;
    MoveBack(a, at + 1, n11size);
    a[at] := Two(a[at].tag, n11size + 1);
    a[at + 1 + n11size] := Two(a[at].tag, n12size + 1);
    SameSlice(was, a[..], at + 2 + |l11|, at + 2 + |l11| + |l12| + |l2|);
    Rejoined(a[..], at, a[at], l11, a[at + 1 + n11size], l12, l2);
    LiesNow(a[..], at, t');
  }

  lemma SameSlice(a: seq<Node>, b: seq<Node>, i: nat, j: nat)
    requires |a| == |b| && i <= j <= |a| && forall k | i <= k < j :: b[k] == a[k]
    ensures b[i..j] == a[i..j]
  {
  }

  /** memmove by one node. */
  method MoveBack(a: array<Node>, at: nat, n: nat)
    requires at + n < a.Length
    modifies a
    ensures a[at..at + n] == old(a[at + 1..at + 1 + n])
    ensures forall k | 0 <= k < a.Length && !(at <= k < at + n) :: a[k] == old(a[k])
  {
    forall k | 0 <= k < n { a[at + k] := a[at + 1 + k]; }
  }

  lemma LiesThere(a: seq<Node>, at: nat, t: Tree, x: Node, y: Node, p: seq<Node>, q: seq<Node>, r: seq<Node>)
    requires Lies(a, at, t) && Layout(t) == Joined(x, Joined(y, p, q), r)
    ensures var n := 2 + |p| + |q| + |r|;
            && |Layout(t)| == n && at + n <= |a| && a[at] == x && a[at + 1] == y
            && a[at + 2..at + 2 + |p|] == p && a[at + 2 + |p|..at + n] == q + r
  {
    hide Layout, Joined;
    Stretch(a, at, x, y, p, q, r);
  }

  lemma LiesNow(a: seq<Node>, at: nat, t: Tree)
    requires at + |Layout(t)| <= |a| && a[at..at + |Layout(t)|] == Layout(t)
    ensures Lies(a, at, t)
  {
  }

  lemma ShorterPart(t: Tree)
    requires LeftNested(t)
    ensures |Layout(t.p1.p1)| < |Layout(t.p1)|
  {
  }

  /** finalfix on the array. */
  method FinalFix(a: array<Node>, at: nat, ghost t: Tree)
    requires Lies(a[..], at, t)
    modifies a
    ensures |Layout(Fix(t))| == |Layout(t)| && Lies(a[..], at, Fix(t))
    ensures forall k | 0 <= k < a.Length && !(at <= k < at + |Layout(t)|) :: a[k] == old(a[k])
    decreases |Layout(t)|
  {
    hide *;
    LiesInside(a[..], at, t);
    TagsShow(a[..], at, t);
    if a[at].Two? {
      ghost var t1 := CorrectAssociativity(a, at, t);
      PartsLie(a[..], at, t1);
      FixParts(t1);
      var ps := a[at].ps;
      ghost var mid := a[..];
      FinalFix(a, at + 1, t1.p1);
      StillLies(mid, a[..], at + ps, t1.p2);
      ghost var half := a[..];
      FinalFix(a, at + ps, t1.p2);
      StillLies(half, a[..], at + 1, Fix(t1.p1));
      PartsJoin(mid, a[..], at, t1);
    } else if a[at].One? {
      OnePart(a[..], at, t);
      FinalFix(a, at + 1, t.p);
      OneJoin(a[..], at, t);
    } else {
      LeafStays(a[..], at, t);
    }
  }

  lemma LiesInside(a: seq<Node>, at: nat, t: Tree)
    requires Lies(a, at, t)
    ensures |Layout(t)| > 0 && at + |Layout(t)| <= |a| && a[at..at + |Layout(t)|] == Layout(t)
  {
  }

  /** The two parts of a tree lie behind its first node. */
  lemma PartsLie(a: seq<Node>, at: nat, t: Tree)
    requires Lies(a, at, t) && Binary(t)
    ensures t.TSeq? || t.TChoice?
    ensures var n1, n2 := |Layout(t.p1)|, |Layout(t.p2)|;
            && at < |a| && a[at] == Two(TagOf(t), 1 + n1) && |Layout(t)| == 1 + n1 + n2
            && Lies(a, at + 1, t.p1) && Lies(a, at + 1 + n1, t.p2)
  {
    hide *;
    TwoParts(t);
    BinaryLayout(t);
    LiesInside(a, at, t);
    var l1, l2 := Layout(t.p1), Layout(t.p2);
    SplitTwo(a, at, Two(TagOf(t), 1 + |l1|), l1, l2);
    LiesNow(a, at + 1, t.p1);
    LiesNow(a, at + 1 + |l1|, t.p2);
  }

  lemma TwoParts(t: Tree)
    requires Binary(t)
    ensures t.TSeq? || t.TChoice?
  {
  }

  lemma SplitTwo(a: seq<Node>, at: nat, x: Node, p: seq<Node>, q: seq<Node>)
    requires at + 1 + |p| + |q| <= |a| && a[at..at + 1 + |p| + |q|] == Joined(x, p, q)
    ensures a[at] == x && a[at + 1..at + 1 + |p|] == p && a[at + 1 + |p|..at + 1 + |p| + |q|] == q
  {
    var n := 1 + |p| + |q|;
    assert a[at] == a[at..at + n][0];
    SubSlice(a, at, n, 1, 1 + |p|);
    SubSlice(a, at, n, 1 + |p|, n);
    var parts := Joined(x, p, q);
    assert parts[1..1 + |p|] == p && parts[1 + |p|..n] == q;
  }

  lemma StillLies(a: seq<Node>, b: seq<Node>, at: nat, t: Tree)
    requires Lies(a, at, t) && |b| == |a| && forall k | at <= k < at + |Layout(t)| && k < |a| :: b[k] == a[k]
    ensures Lies(b, at, t)
  {
    hide Layout;
    SameSlice(a, b, at, at + |Layout(t)|);
  }

  lemma FixParts(t: Tree)
    requires Binary(t) && !LeftNested(t)
    ensures t.TSeq? || t.TChoice?
    ensures var t' := Fix(t);
            && (t'.TSeq? || t'.TChoice?) && Binary(t') && TagOf(t') == TagOf(t)
            && t'.p1 == Fix(t.p1) && t'.p2 == Fix(t.p2)
  {
  }

  /** Fixed parts behind the unchanged first node are the fixed tree. */
  lemma PartsJoin(a: seq<Node>, b: seq<Node>, at: nat, t: Tree)
    requires Binary(t) && !LeftNested(t) && Lies(a, at, t) && |b| == |a| && at < |a| && b[at] == a[at]
    requires |Layout(Fix(t.p1))| == |Layout(t.p1)| && |Layout(Fix(t.p2))| == |Layout(t.p2)|
    requires Lies(b, at + 1, Fix(t.p1)) && Lies(b, at + 1 + |Layout(t.p1)|, Fix(t.p2))
    ensures |Layout(Fix(t))| == |Layout(t)| && Lies(b, at, Fix(t))
  {
    hide *;
    PartsLie(a, at, t);
    FixParts(t);
    BinaryLayout(Fix(t));
    LiesInside(b, at + 1, Fix(t.p1));
    LiesInside(b, at + 1 + |Layout(t.p1)|, Fix(t.p2));
    TwoSlices(b, at, Layout(Fix(t.p1)), Layout(Fix(t.p2)));
    LiesNow(b, at, Fix(t));
  }

  lemma TwoSlices(b: seq<Node>, at: nat, p: seq<Node>, q: seq<Node>)
    requires at + 1 + |p| + |q| <= |b| && b[at + 1..at + 1 + |p|] == p && b[at + 1 + |p|..at + 1 + |p| + |q|] == q
    ensures b[at..at + 1 + |p| + |q|] == Joined(b[at], p, q)
  {
  }

  lemma OnePart(a: seq<Node>, at: nat, t: Tree)
    requires Lies(a, at, t) && at < |a| && a[at].One?
    ensures (t.TRep? || t.TNot? || t.TAnd? || t.TBehind?) && Lies(a, at + 1, t.p) && |Layout(t)| == 1 + |Layout(t.p)|
    ensures a[at] == Layout(t)[0]
  {
    var n := |Layout(t)|;
    assert a[at] == a[at..at + n][0] == Layout(t)[0];
    OneLayout(t);
    hide Layout;
    SubSlice(a, at, n, 1, n);
  }

  lemma OneLayout(t: Tree)
    requires Layout(t)[0].One?
    ensures t.TRep? || t.TNot? || t.TAnd? || t.TBehind?
    ensures Layout(t)[1..] == Layout(t.p) && |Layout(t)| == 1 + |Layout(t.p)|
  {
  }

  lemma OneJoin(b: seq<Node>, at: nat, t: Tree)
    requires t.TRep? || t.TNot? || t.TAnd? || t.TBehind?
    requires at < |b| && b[at] == Layout(t)[0] && Lies(b, at + 1, Fix(t.p)) && |Layout(Fix(t.p))| == |Layout(t.p)|
    ensures |Layout(Fix(t))| == |Layout(t)| && Lies(b, at, Fix(t))
  {
    hide *;
    OneFixed(t);
    LiesInside(b, at + 1, Fix(t.p));
    var n := |Layout(Fix(t.p))|;
    assert b[at..at + 1 + n] == [b[at]] + b[at + 1..at + 1 + n];
    LiesNow(b, at, Fix(t));
  }

  lemma OneFixed(t: Tree)
    requires t.TRep? || t.TNot? || t.TAnd? || t.TBehind?
    ensures |Layout(t)| == 1 + |Layout(t.p)| && Layout(Fix(t)) == [Layout(t)[0]] + Layout(Fix(t.p))
  {
  }

  lemma LeafStays(a: seq<Node>, at: nat, t: Tree)
    requires Lies(a, at, t) && at < |a| && !a[at].One? && !a[at].Two?
    ensures Fix(t) == t
  {
    assert a[at] == a[at..at + |Layout(t)|][0];
  }
}
