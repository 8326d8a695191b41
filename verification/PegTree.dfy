/** Pattern trees of LPeg and what they mean: parsing expression grammars over byte subjects. */
module PegTree {

  type Char = c: int | 0 <= c < 256

  type Charset = set<Char>

  const FULL: Charset := set c: Char | 0 <= c < 256

  type Subject = seq<Char>

  /** A capture-free tree. TCall(r) names a rule of the innermost enclosing grammar. */
  datatype Tree =
    | TChar(c: Char)
    | TSet(cs: Charset)
    | TAny
    | TTrue
    | TFalse
    | TRep(p: Tree)
    | TSeq(p1: Tree, p2: Tree)
    | TChoice(p1: Tree, p2: Tree)
    | TNot(p: Tree)
    | TAnd(p: Tree)
    | TBehind(p: Tree, n: nat)
    | TCall(rule: nat)
    | TGrammar(rules: seq<Tree>)

  /** The charset of a tree that always looks at exactly one character. */
  function ToCharset(t: Tree): (r: (bool, Charset))
  {
    match t
    case TChar(c) => (true, {c})
    case TSet(cs) => (true, cs)
    case TAny => (true, FULL)
    case _ => (false, {})
  }

  /** Rules called from `t`, not looking into grammars nested in it. */
  function Calls(t: Tree): set<nat>
  {
    match t
    case TRep(p) => Calls(p)
    case TNot(p) => Calls(p)
    case TAnd(p) => Calls(p)
    case TBehind(p, _) => Calls(p)
    case TSeq(p1, p2) => Calls(p1) + Calls(p2)
    case TChoice(p1, p2) => Calls(p1) + Calls(p2)
    case TCall(r) => {r}
    case _ => {}
  }

  /** The rules of a grammar that can ever run: the initial one and those called from some rule. */
  predicate Live(g: seq<Tree>, r: nat)
  {
    r < |g| && (r == 0 || exists k :: 0 <= k < |g| && r in Calls(g[k]))
  }

  // ---------- Meaning ----------

  /** Result of matching at one position. Timeout says only that the fuel was too small. */
  datatype Result = Timeout | Fail | Match(pos: nat)

  /** The textbook meaning of a parsing expression at position `i` of `s`, with rules `g` in scope. */
  ghost function Peg(g: seq<Tree>, t: Tree, s: Subject, i: nat, fuel: nat): (r: Result)
    requires i <= |s|
    ensures r.Match? ==> i <= r.pos <= |s|
    decreases fuel
  {
    if fuel == 0 then Timeout else
    match t
    case TChar(c) => if i < |s| && s[i] == c then Match(i + 1) else Fail
    case TSet(cs) => if i < |s| && s[i] in cs then Match(i + 1) else Fail
    case TAny => if i < |s| then Match(i + 1) else Fail
    case TTrue => Match(i)
    case TFalse => Fail
    case TRep(p) =>
      (match Peg(g, p, s, i, fuel - 1)
       case Timeout => Timeout
       case Fail => Match(i)
       case Match(j) => Peg(g, t, s, j, fuel - 1))
    case TSeq(p1, p2) =>
      (match Peg(g, p1, s, i, fuel - 1)
       case Timeout => Timeout
       case Fail => Fail
       case Match(j) => Peg(g, p2, s, j, fuel - 1))
    case TChoice(p1, p2) =>
      (match Peg(g, p1, s, i, fuel - 1)
       case Timeout => Timeout
       case Fail => Peg(g, p2, s, i, fuel - 1)
       case Match(j) => Match(j))
    case TNot(p) =>
      (match Peg(g, p, s, i, fuel - 1)
       case Timeout => Timeout
       case Fail => Match(i)
       case Match(_) => Fail)
    case TAnd(p) =>
      (match Peg(g, p, s, i, fuel - 1)
       case Timeout => Timeout
       case Fail => Fail
       case Match(_) => Match(i))
    case TBehind(p, n) =>
      if n > i then Fail else
      (match Peg(g, p, s, i - n, fuel - 1)
       case Timeout => Timeout
       case Fail => Fail
       case Match(_) => Match(i))
    case TCall(r) => if r < |g| then Peg(g, g[r], s, i, fuel - 1) else Fail
    case TGrammar(rs) => if |rs| > 0 then Peg(rs, rs[0], s, i, fuel - 1) else Fail
  }

  /** Matching `t` at `i` ends, with result `r`. */
  ghost predicate Means(g: seq<Tree>, t: Tree, s: Subject, i: nat, r: Result)
  {
    i <= |s| && !r.Timeout? && exists fuel: nat :: Peg(g, t, s, i, fuel) == r
  }

  /** More fuel never changes an answer. */
  lemma {:induction false} PegMonotone(g: seq<Tree>, t: Tree, s: Subject, i: nat, fuel: nat, fuel': nat)
    requires i <= |s| && fuel <= fuel'
    requires !Peg(g, t, s, i, fuel).Timeout?
    ensures Peg(g, t, s, i, fuel') == Peg(g, t, s, i, fuel)
    decreases fuel
  {
    match t
    case TRep(p) =>
      PegMonotone(g, p, s, i, fuel - 1, fuel' - 1);
      var r := Peg(g, p, s, i, fuel - 1);
      if r.Match? { PegMonotone(g, t, s, r.pos, fuel - 1, fuel' - 1); }
    case TSeq(p1, p2) =>
      PegMonotone(g, p1, s, i, fuel - 1, fuel' - 1);
      var r := Peg(g, p1, s, i, fuel - 1);
      if r.Match? { PegMonotone(g, p2, s, r.pos, fuel - 1, fuel' - 1); }
    case TChoice(p1, p2) =>
      PegMonotone(g, p1, s, i, fuel - 1, fuel' - 1);
      if Peg(g, p1, s, i, fuel - 1).Fail? { PegMonotone(g, p2, s, i, fuel - 1, fuel' - 1); }
    case TNot(p) => PegMonotone(g, p, s, i, fuel - 1, fuel' - 1);
    case TAnd(p) => PegMonotone(g, p, s, i, fuel - 1, fuel' - 1);
    case TBehind(p, n) => if n <= i { PegMonotone(g, p, s, i - n, fuel - 1, fuel' - 1); }
    case TCall(r) => if r < |g| { PegMonotone(g, g[r], s, i, fuel - 1, fuel' - 1); }
    case TGrammar(rs) => if |rs| > 0 { PegMonotone(rs, rs[0], s, i, fuel - 1, fuel' - 1); }
    case _ =>
  }

  /** A pattern has at most one meaning at a position. */
  lemma MeansUnique(g: seq<Tree>, t: Tree, s: Subject, i: nat, r: Result, r': Result)
    requires Means(g, t, s, i, r) && Means(g, t, s, i, r')
    ensures r == r'
  {
    var f: nat :| Peg(g, t, s, i, f) == r;
    var f': nat :| Peg(g, t, s, i, f') == r';
    if f <= f' { PegMonotone(g, t, s, i, f, f'); } else { PegMonotone(g, t, s, i, f', f); }
  }
}
