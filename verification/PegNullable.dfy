/** What the analyses for nullable patterns and patterns that never fail say, exactly. */
module PegNullable {
  import opened PegTree
  import opened PegAnalysis

  /** The pattern with every predicate taken to match. */
  function Assumed(t: Tree): Tree
  {
    match t
    case TRep(p) => TRep(Assumed(p))
    case TSeq(p1, p2) => TSeq(Assumed(p1), Assumed(p2))
    case TChoice(p1, p2) => TChoice(Assumed(p1), Assumed(p2))
    case TNot(_) => TTrue
    case TAnd(_) => TTrue
    case TBehind(_, _) => TTrue
    case TGrammar(rs) => TGrammar(seq(|rs|, i requires 0 <= i < |rs| => Assumed(rs[i])))
    case _ => t
  }

  function AllAssumed(g: seq<Tree>): (r: seq<Tree>)
    ensures |r| == |g| && forall i | 0 <= i < |g| :: r[i] == Assumed(g[i])
  {
    seq(|g|, i requires 0 <= i < |g| => Assumed(g[i]))
  }

  /** Rules whose calls all go to rules. */
  predicate RulesLinked(g: seq<Tree>)
  {
    forall r | 0 <= r < |g| :: Linkable(|g|, g[r])
  }

  /** A pattern is taken to be nullable exactly when it matches the empty subject, every predicate taken to match. */
  lemma {:induction false} NullableExact(g: seq<Tree>, d: nat, t: Tree, fuel: nat)
    requires Linkable(|g|, t) && RulesLinked(g) && fuel <= d
    requires !Peg(AllAssumed(g), Assumed(t), [], 0, fuel).Timeout?
    ensures Nullable(g, d, t) <==> Peg(AllAssumed(g), Assumed(t), [], 0, fuel) == Match(0)
    decreases fuel
  {
    match t
    case TRep(p) =>
      if Peg(AllAssumed(g), Assumed(p), [], 0, fuel - 1).Match? { NullableExact(g, d, t, fuel - 1); }
    case TSeq(p1, p2) =>
      NullableExact(g, d, p1, fuel - 1);
      if Peg(AllAssumed(g), Assumed(p1), [], 0, fuel - 1).Match? { NullableExact(g, d, p2, fuel - 1); }
    case TChoice(p1, p2) =>
      NullableExact(g, d, p1, fuel - 1);
      if Peg(AllAssumed(g), Assumed(p1), [], 0, fuel - 1).Fail? { NullableExact(g, d, p2, fuel - 1); }
    case TCall(r) => NullableExact(g, d - 1, g[r], fuel - 1);
    case TGrammar(rs) =>
      assert Assumed(t) == TGrammar(AllAssumed(rs));
      NullableExact(rs, d, rs[0], fuel - 1);
    case _ =>
  }

  /** The pattern with negative predicates and look-behinds taken to fail. */
  function Doubted(t: Tree): Tree
  {
    match t
    case TRep(p) => TRep(Doubted(p))
    case TSeq(p1, p2) => TSeq(Doubted(p1), Doubted(p2))
    case TChoice(p1, p2) => TChoice(Doubted(p1), Doubted(p2))
    case TNot(_) => TFalse
    case TAnd(p) => TAnd(Doubted(p))
    case TBehind(_, _) => TFalse
    case TGrammar(rs) => TGrammar(seq(|rs|, i requires 0 <= i < |rs| => Doubted(rs[i])))
    case _ => t
  }

  function AllDoubted(g: seq<Tree>): (r: seq<Tree>)
    ensures |r| == |g| && forall i | 0 <= i < |g| :: r[i] == Doubted(g[i])
  {
    seq(|g|, i requires 0 <= i < |g| => Doubted(g[i]))
  }

  /**
   * A pattern is taken never to fail exactly when it matches the empty subject, negative predicates and look-behinds
   * taken to fail.
   */
  lemma {:induction false} NofailExact(g: seq<Tree>, d: nat, t: Tree, fuel: nat)
    requires Linkable(|g|, t) && RulesLinked(g) && fuel <= d
    requires !Peg(AllDoubted(g), Doubted(t), [], 0, fuel).Timeout?
    ensures Nofail(g, d, t) <==> Peg(AllDoubted(g), Doubted(t), [], 0, fuel) == Match(0)
    decreases fuel
  {
    match t
    case TRep(p) =>
      if Peg(AllDoubted(g), Doubted(p), [], 0, fuel - 1).Match? { NofailExact(g, d, t, fuel - 1); }
    case TAnd(p) => NofailExact(g, d, p, fuel - 1);
    case TSeq(p1, p2) =>
      NofailExact(g, d, p1, fuel - 1);
      if Peg(AllDoubted(g), Doubted(p1), [], 0, fuel - 1).Match? { NofailExact(g, d, p2, fuel - 1); }
    case TChoice(p1, p2) =>
      NofailExact(g, d, p1, fuel - 1);
      if Peg(AllDoubted(g), Doubted(p1), [], 0, fuel - 1).Fail? { NofailExact(g, d, p2, fuel - 1); }
    case TCall(r) => NofailExact(g, d - 1, g[r], fuel - 1);
    case TGrammar(rs) =>
      assert Doubted(t) == TGrammar(AllDoubted(rs));
      NofailExact(rs, d, rs[0], fuel - 1);
    case _ =>
  }
}
