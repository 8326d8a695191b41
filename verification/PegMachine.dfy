/** Instructions of the matching machine of lpvm.c and its interpreter. */
module PegMachine {
  import opened PegTree

  /** One code slot. Multi-slot instructions keep their data in the first slot; IPad fills the others. */
  datatype Instr =
    | IAny
    | IChar(c: Char)
    | ISet(cs: Charset)
    | ITestAny(off: int)
    | ITestChar(c: Char, off: int)
    | ITestSet(cs: Charset, off: int)
    | ISpan(cs: Charset)
    | IBehind(n: nat)
    | IRet
    | IEnd
    | IChoice(off: int)
    | IJmp(off: int)
    | ICall(off: int)
    | IOpenCall(rule: nat)
    | ICommit(off: int)
    | IPartialCommit(off: int)
    | IBackCommit(off: int)
    | IFailTwice
    | IFail
    | IPad

  type Code = seq<Instr>

  /** Slots of a charset instruction: one plus 32 bytes in 4-byte slots. */
  const CHARSETINSTSIZE: nat := 9

  /** Number of slots an instruction takes. */
  function SizeI(x: Instr): nat
  {
    match x
    case ISet(_) => CHARSETINSTSIZE
    case ISpan(_) => CHARSETINSTSIZE
    case ITestSet(_, _) => CHARSETINSTSIZE + 1
    case ITestChar(_, _) => 2
    case ITestAny(_) => 2
    case IChoice(_) => 2
    case IJmp(_) => 2
    case ICall(_) => 2
    case IOpenCall(_) => 2
    case ICommit(_) => 2
    case IPartialCommit(_) => 2
    case IBackCommit(_) => 2
    case _ => 1
  }

  /** A saved choice with its subject position, or a return address. */
  datatype Entry = Back(p: int, i: nat) | Ret(p: int)

  datatype Stack = Empty | Frame(top: Entry, rest: Stack)

  /** Address of the machine's own giveup instruction, outside every pattern. */
  const GIVEUP: int := -1

  /** Running, finished, or stopped at one of the interpreter's assertions. */
  datatype Config =
    | Run(p: int, i: nat, k: Stack)
    | Done(result: Result)
    | Stuck

  /** Backtracking: drop pending calls and resume the last choice. */
  function FailTo(k: Stack): Config
  {
    match k
    case Empty => Stuck
    case Frame(Back(p, i), r) => Run(p, i, r)
    case Frame(Ret(_), r) => FailTo(r)
  }

  function SpanEnd(s: Subject, i: nat, cs: Charset): (j: nat)
    ensures i <= j && (i <= |s| ==> j <= |s|)
    decreases |s| - i
  {
    if i < |s| && s[i] in cs then SpanEnd(s, i + 1, cs) else i
  }

  /** What instruction `x` at slot `p` does. */
  function Effect(x: Instr, p: int, s: Subject, i: nat, k: Stack): Config
  {
    match x
    case IEnd => if k.Frame? && k.rest.Empty? then Done(Match(i)) else Stuck
    case IRet => if k.Frame? && k.top.Ret? then Run(k.top.p, i, k.rest) else Stuck
    case IAny => if i < |s| then Run(p + 1, i + 1, k) else FailTo(k)
    case ITestAny(off) => if i < |s| then Run(p + 2, i, k) else Run(p + off, i, k)
    case IChar(x) => if i < |s| && s[i] == x then Run(p + 1, i + 1, k) else FailTo(k)
    case ITestChar(x, off) => if i < |s| && s[i] == x then Run(p + 2, i, k) else Run(p + off, i, k)
    case ISet(cs) => if i < |s| && s[i] in cs then Run(p + CHARSETINSTSIZE, i + 1, k) else FailTo(k)
    case ITestSet(cs, off) =>
      if i < |s| && s[i] in cs then Run(p + 1 + CHARSETINSTSIZE, i, k) else Run(p + off, i, k)
    case IBehind(n) => if n > i then FailTo(k) else Run(p + 1, i - n, k)
    case ISpan(cs) => Run(p + CHARSETINSTSIZE, SpanEnd(s, i, cs), k)
    case IJmp(off) => Run(p + off, i, k)
    case IChoice(off) => Run(p + 2, i, Frame(Back(p + off, i), k))
    case ICall(off) => Run(p + off, i, Frame(Ret(p + 2), k))
    case ICommit(off) => if k.Frame? && k.top.Back? then Run(p + off, i, k.rest) else Stuck
    case IPartialCommit(off) =>
      if k.Frame? && k.top.Back? then Run(p + off, i, Frame(Back(k.top.p, i), k.rest)) else Stuck
    case IBackCommit(off) => if k.Frame? && k.top.Back? then Run(p + off, k.top.i, k.rest) else Stuck
    case IFailTwice => if k.Frame? then FailTo(k.rest) else Stuck
    case IFail => FailTo(k)
    case IOpenCall(_) => Stuck
    case IPad => Stuck
  }

  /** One step of the interpreter. */
  function Step(code: Code, s: Subject, c: Config): Config
    requires c.Run?
  {
    var Run(p, i, k) := c;
    if p == GIVEUP then (if k.Empty? then Done(Fail) else Stuck)
    else if p < 0 || p >= |code| then Stuck
    else Effect(code[p], p, s, i, k)
  }

  /** At most `n` instructions. */
  function Steps(code: Code, s: Subject, c: Config, n: nat): Config
    decreases n
  {
    if n == 0 || !c.Run? then c else Steps(code, s, Step(code, s, c), n - 1)
  }

  ghost predicate Halts(code: Code, s: Subject, c: Config)
  {
    exists n: nat :: !Steps(code, s, c, n).Run?
  }

  /** The final configuration, or Run when the machine never stops. */
  ghost function Out(code: Code, s: Subject, c: Config): (r: Config)
  {
    if n: nat :| !Steps(code, s, c, n).Run? then Steps(code, s, c, n) else Run(0, 0, Empty)
  }

  /** The initial configuration: a giveup choice at the bottom of the stack. */
  function Start(i: nat): Config
  {
    Run(0, i, Frame(Back(GIVEUP, i), Empty))
  }

  lemma {:induction false} StepsUnique(code: Code, s: Subject, c: Config, n: nat, m: nat)
    requires n <= m && !Steps(code, s, c, n).Run?
    ensures Steps(code, s, c, m) == Steps(code, s, c, n)
    decreases n
  {
    if n > 0 && c.Run? { StepsUnique(code, s, Step(code, s, c), n - 1, m - 1); }
  }

  /** The outcome is what any long enough run shows. */
  lemma OutIs(code: Code, s: Subject, c: Config, n: nat)
    requires !Steps(code, s, c, n).Run?
    ensures Out(code, s, c) == Steps(code, s, c, n)
  {
    var m: nat :| !Steps(code, s, c, m).Run? && Out(code, s, c) == Steps(code, s, c, m);
    if n <= m { StepsUnique(code, s, c, n, m); } else { StepsUnique(code, s, c, m, n); }
  }

  /** Taking a step does not change the outcome. */
  lemma Exec(code: Code, s: Subject, p: int, i: nat, k: Stack)
    ensures Out(code, s, Run(p, i, k)) == Out(code, s, Step(code, s, Run(p, i, k)))
  {
    var c := Run(p, i, k);
    var c' := Step(code, s, c);
    if n: nat :| !Steps(code, s, c', n).Run? {
      OutIs(code, s, c', n);
      assert Steps(code, s, c, n + 1) == Steps(code, s, c', n);
      OutIs(code, s, c, n + 1);
    } else {
      forall n: nat ensures Steps(code, s, c, n).Run? {
        if n > 0 { assert Steps(code, s, c, n) == Steps(code, s, c', n - 1); }
      }
    }
  }

  lemma OutDone(code: Code, s: Subject, c: Config)
    requires !c.Run?
    ensures Out(code, s, c) == c
  {
    OutIs(code, s, c, 0);
  }
}
