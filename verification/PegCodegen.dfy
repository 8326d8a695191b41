/** What code generation emits for a tree: the specification of the compiler in lpcode.c. */
module PegCodegen {
  import opened PegTree
  import opened PegAnalysis
  import opened PegMachine

  datatype CharsetKind = EmptySet | SingleChar(c: Char) | AllChars | OtherSet

  /** The least member of `cs` from `c` on, or 256. */
  function Least(cs: Charset, c: nat): (r: nat)
    requires c <= 256
    ensures c <= r <= 256
    ensures r < 256 ==> r in cs
    ensures forall x: Char | c <= x < r :: x !in cs
    decreases 256 - c
  {
    if c == 256 || c in cs then c else Least(cs, c + 1)
  }

  function CharsetType(cs: Charset): CharsetKind
  {
    if cs == {} then EmptySet
    else if cs == FULL then AllChars
    else
      var c := Least(cs, 0);
      if c < 256 && cs == {c} then SingleChar(c) else OtherSet
  }

  /** What a test earlier in the code has established about the next character. */
  datatype Guard = NoGuard | GuardChar(c: Char) | GuardSet(cs: Charset)

  function GuardOf(cs: Charset): Guard
  {
    match CharsetType(cs)
    case SingleChar(c) => GuardChar(c)
    case OtherSet => GuardSet(cs)
    case _ => NoGuard
  }

  predicate GuardHolds(tt: Guard, s: Subject, i: nat)
  {
    match tt
    case NoGuard => true
    case GuardChar(c) => i < |s| && s[i] == c
    case GuardSet(cs) => i < |s| && s[i] in cs
  }

  /** `n` filler slots. */
  function Pads(n: nat): (r: Code)
    ensures |r| == n && forall k | 0 <= k < n :: r[k] == IPad
  {
    seq(n, _ => IPad)
  }

  /** An instruction together with its filler slots. */
  function Emit(x: Instr): (r: Code)
    requires !x.IPad?
    ensures |r| == SizeI(x) && r[0] == x && forall k | 1 <= k < |r| :: r[k] == IPad
  {
    [x] + Pads(SizeI(x) - 1)
  }

  function CharCode(c: Char, tt: Guard): Code
  {
    if tt == GuardChar(c) then [IAny] else [IChar(c)]
  }

  function SetCode(cs: Charset, tt: Guard): Code
  {
    match CharsetType(cs)
    case SingleChar(c) => CharCode(c, tt)
    case OtherSet => if tt == GuardSet(cs) then [IAny] else Emit(ISet(cs))
    case EmptySet => [IFail]
    case AllChars => [IAny]
  }

  /** The test instruction for `cs`, jumping by `off` when the next character is outside it. */
  function TestInstr(cs: Charset, off: int): (x: Instr)
    ensures !x.IPad? && SizeI(x) == TestLen(cs, false)
  {
    match CharsetType(cs)
    case EmptySet => IJmp(off)
    case AllChars => ITestAny(off)
    case SingleChar(c) => ITestChar(c, off)
    case OtherSet => ITestSet(cs, off)
  }

  /** A test, or nothing when the empty subject must pass (`e`). */
  function TestCode(cs: Charset, e: bool, off: int): (r: Code)
    ensures |r| == TestLen(cs, e)
  {
    if e then [] else Emit(TestInstr(cs, off))
  }

  function TestLen(cs: Charset, e: bool): nat
  {
    if e then 0 else if CharsetType(cs).OtherSet? then CHARSETINSTSIZE + 1 else 2
  }

  /** The longest look-behind and the longest fixed-length and-predicate coded without a choice. */
  const MAXBEHIND: nat := 255

  function BehindCode(n: nat): Code
  {
    if n > 0 then [IBehind(n)] else []
  }

  /** Following jumps from `q` in `code` ends, after `h` of them, at `q'`. */
  predicate Chain(code: Code, q: int, h: nat, q': int)
    decreases h
  {
    if h == 0 then q == q' && !(0 <= q < |code| && code[q].IJmp?)
    else 0 <= q < |code| && code[q].IJmp? && Chain(code, q + code[q].off, h - 1, q')
  }

  /** Following jumps from `q` stops. */
  ghost predicate ChainEnds(code: Code, q: int)
  {
    exists h: nat, q': int :: Chain(code, q, h, q')
  }

  /** Where following jumps from `q` stops. */
  ghost function FinalTarget(code: Code, q: int): int
  {
    if h: nat, q': int :| Chain(code, q, h, q') then q' else q
  }

  /** A call whose return point leads straight to a return. */
  ghost predicate TailPosition(code: Code, q: int)
  {
    var f := FinalTarget(code, q + 2);
    0 <= f < |code| && code[f].IRet?
  }

  /** The instruction an open call at `q` becomes once the rules of its grammar have positions. */
  ghost function Resolve(code: Code, q: int, pos: seq<int>): Instr
    requires 0 <= q < |code|
  {
    match code[q]
    case IOpenCall(r) =>
      if r >= |pos| then code[q]
      else if TailPosition(code, q) then IJmp(pos[r] - q)
      else ICall(pos[r] - q)
    case x => x
  }

  /** Resolve the open calls of `code` from slot `q` on, in order. */
  ghost function CorrectCalls(code: Code, pos: seq<int>, q: nat): (r: Code)
    ensures |r| == |code|
    decreases |code| - q
  {
    if q >= |code| then code
    else
      var x := Resolve(code, q, pos);
      CorrectCalls(code[q := x], pos, q + SizeI(x))
  }

  // ---------- Code of a tree ----------

  ghost function Gen(g: seq<Tree>, d: nat, t: Tree, opt: bool, tt: Guard, fl: Charset): Code
    decreases t
  {
    match t
    case TChar(c) => CharCode(c, tt)
    case TAny => [IAny]
    case TSet(cs) => SetCode(cs, tt)
    case TTrue => []
    case TFalse => [IFail]
    case TChoice(p1, p2) =>
      var (cs1, e1) := First(g, d, p1, FULL);
      if HeadFail(g, d, p1) || (!e1 && cs1 !! First(g, d, p2, fl).0) then
        ChoiceByTest(cs1, Gen(g, d, p1, false, GuardOf(cs1), fl), Gen(g, d, p2, opt, NoGuard, fl), p2.TTrue?)
      else if opt && p2.TTrue? then
        Emit(IPartialCommit(2)) + Gen(g, d, p1, true, NoGuard, FULL)
      else
        ChoiceByStack(cs1, e1,
                      Gen(g, d, p1, p2.TTrue?, if e1 then NoGuard else GuardOf(cs1), FULL),
                      Gen(g, d, p2, opt, NoGuard, fl))
    case TRep(p) =>
      if ToCharset(p).0 then Emit(ISpan(ToCharset(p).1))
      else
        var (cs, e) := First(g, d, p, FULL);
        if HeadFail(g, d, p) || (!e && cs !! fl) then
          RepByTest(cs, Gen(g, d, p, false, GuardOf(cs), FULL))
        else
          RepByStack(cs, e, opt, Gen(g, d, p, false, NoGuard, FULL))
    case TBehind(p, n) => BehindCode(n) + Gen(g, d, p, false, NoGuard, FULL)
    case TNot(p) =>
      var (cs, e) := First(g, d, p, FULL);
      if HeadFail(g, d, p) then TestCode(cs, e, TestLen(cs, e) + 1) + [IFail]
      else NotByStack(cs, e, Gen(g, d, p, false, NoGuard, FULL))
    case TAnd(p) =>
      var n := FixedLen(g, d, p);
      var c := Gen(g, d, p, false, tt, FULL);
      if 0 <= n <= MAXBEHIND then c + BehindCode(n) else AndByStack(c)
    case TSeq(p1, p2) =>
      var fl1 := if NeedFollow(p1) then First(g, d, p2, fl).0 else FULL;
      var tt2 := if FixedLen(g, d, p1) != 0 then NoGuard else tt;
      Gen(g, d, p1, false, tt, fl1) + Gen(g, d, p2, opt, tt2, fl)
    case TCall(r) => Emit(IOpenCall(r))
    case TGrammar(rs) =>
      var body := RulesCode(rs, d, 0);
      Emit(ICall(4)) + Emit(IJmp(2 + |body|)) + CorrectCalls(body, RulePositions(rs, d, 0, 0), 0)
  }

  /** test L1; p1; jmp L2; L1: p2; L2: */
  function ChoiceByTest(cs1: Charset, c1: Code, c2: Code, emptyp2: bool): (r: Code)
    ensures |r| == TestLen(cs1, false) + |c1| + (if emptyp2 then 0 else 2) + |c2|
  {
    var jmp := if emptyp2 then [] else Emit(IJmp(2 + |c2|));
    TestCode(cs1, false, TestLen(cs1, false) + |c1| + |jmp|) + c1 + jmp + c2
  }

  /** test L1; choice L1; p1; commit L2; L1: p2; L2: */
  function ChoiceByStack(cs1: Charset, e1: bool, c1: Code, c2: Code): (r: Code)
    ensures |r| == TestLen(cs1, e1) + 2 + |c1| + 2 + |c2|
  {
    TestCode(cs1, e1, TestLen(cs1, e1) + 2 + |c1| + 2)
    + Emit(IChoice(2 + |c1| + 2)) + c1 + Emit(ICommit(2 + |c2|)) + c2
  }

  /** L1: test L2; p; jmp L1; L2: */
  function RepByTest(cs: Charset, c: Code): (r: Code)
    ensures |r| == TestLen(cs, false) + |c| + 2
  {
    var tl := TestLen(cs, false);
    TestCode(cs, false, tl + |c| + 2) + c + Emit(IJmp(-(tl + |c|)))
  }

  /** test L2; choice L2 (or partialcommit L1); L1: p; partialcommit L1; L2: */
  function RepByStack(cs: Charset, e: bool, opt: bool, c: Code): (r: Code)
    ensures |r| == TestLen(cs, e) + 2 + |c| + 2
  {
    TestCode(cs, e, TestLen(cs, e) + 2 + |c| + 2)
    + (if opt then Emit(IPartialCommit(2)) else Emit(IChoice(2 + |c| + 2)))
    + c + Emit(IPartialCommit(-|c|))
  }

  /** test L1; choice L1; p; failtwice; L1: */
  function NotByStack(cs: Charset, e: bool, c: Code): (r: Code)
    ensures |r| == TestLen(cs, e) + 2 + |c| + 1
  {
    TestCode(cs, e, TestLen(cs, e) + 2 + |c| + 1) + Emit(IChoice(2 + |c| + 1)) + c + [IFailTwice]
  }

  /** choice L1; p; backcommit L2; L1: fail; L2: */
  function AndByStack(c: Code): (r: Code)
    ensures |r| == 2 + |c| + 3
  {
    Emit(IChoice(2 + |c| + 2)) + c + Emit(IBackCommit(3)) + [IFail]
  }

  /** Code of one rule: its pattern and a return. */
  ghost function RuleCode(rs: seq<Tree>, d: nat, r: nat): Code
    requires r < |rs|
    decreases rs, 0
  {
    Gen(rs, d, rs[r], false, NoGuard, FULL) + [IRet]
  }

  /** Code of the rules from number `r` on, each followed by a return. */
  ghost function RulesCode(rs: seq<Tree>, d: nat, r: nat): Code
    requires r <= |rs|
    decreases rs, 1, |rs| - r
  {
    if r == |rs| then [] else RuleCode(rs, d, r) + RulesCode(rs, d, r + 1)
  }

  /** Positions of the rules from number `r` on, when rule `r` is at `at`. */
  ghost function RulePositions(rs: seq<Tree>, d: nat, r: nat, at: nat): (pos: seq<int>)
    requires r <= |rs|
    ensures |pos| == |rs| - r
    decreases rs, 1, |rs| - r
  {
    if r == |rs| then []
    else [at] + RulePositions(rs, d, r + 1, at + |RuleCode(rs, d, r)|)
  }
}
