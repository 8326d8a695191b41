/** The loop of the matching machine: it updates program counter, subject position and stack in place. */
module PegMatch {
  import opened PegTree
  import opened PegMachine

  /** The stack that the entries of the stack array denote; the last one is on top. */
  function StackOf(entries: seq<Entry>): Stack
  {
    if entries == [] then Empty else Frame(entries[|entries| - 1], StackOf(entries[..|entries| - 1]))
  }

  lemma Pushed(entries: seq<Entry>, e: Entry)
    ensures StackOf(entries + [e]) == Frame(e, StackOf(entries))
  {
    assert (entries + [e])[..|entries|] == entries;
  }

  /** Saved positions lie in a subject of length `n`. */
  predicate Within(entries: seq<Entry>, n: nat)
  {
    forall k | 0 <= k < |entries| && entries[k].Back? :: entries[k].i <= n
  }

  /** Remove pending calls and the last choice. */
  method Backtrack(entries: seq<Entry>, ghost n: nat) returns (p: int, i: nat, left: seq<Entry>)
    requires FailTo(StackOf(entries)).Run? && Within(entries, n)
    ensures FailTo(StackOf(entries)) == Run(p, i, StackOf(left)) && i <= n && Within(left, n)
  {
    left := entries;
    while left != [] && left[|left| - 1].Ret?
      invariant FailTo(StackOf(left)) == FailTo(StackOf(entries)) && Within(left, n)
      decreases |left|
    {
      left := left[..|left| - 1];
    }
    assert left != [];
    var e := left[|left| - 1];
    p, i, left := e.p, e.i, left[..|left| - 1];
  }

  /**
   * One round of the interpreter's loop: the instruction at `p0`, provided the machine's assertions hold there.
   * `done` says that the program ends, with result `r`.
   */
  method Execute(code: Code, s: Subject, p0: int, i0: nat, entries0: seq<Entry>)
    returns (done: bool, r: Result, p: int, i: nat, entries: seq<Entry>)
    requires !Step(code, s, Run(p0, i0, StackOf(entries0))).Stuck? && i0 <= |s| && Within(entries0, |s|)
    ensures Step(code, s, Run(p0, i0, StackOf(entries0))) == if done then Done(r) else Run(p, i, StackOf(entries))
    ensures !done ==> i <= |s| && Within(entries, |s|)
  {
    done, r, p, i, entries := false, Fail, p0, i0, entries0;
    if p == GIVEUP { done := true; return; }
    assert 0 <= p < |code|;
    var fail := false;
    match code[p] {
      case IEnd =>
        assert |entries| == 1 by { OneEntry(entries); }
        done, r := true, Result.Match(i);
      case IRet =>
        assert entries != [] && entries[|entries| - 1].Ret?;
        p, entries := entries[|entries| - 1].p, entries[..|entries| - 1];
      case IAny => if i < |s| { p, i := p + 1, i + 1; } else { fail := true; }
      case ITestAny(off) => p := if i < |s| then p + 2 else p + off;
      case IChar(x) => if i < |s| && s[i] == x { p, i := p + 1, i + 1; } else { fail := true; }
      case ITestChar(x, off) => p := if i < |s| && s[i] == x then p + 2 else p + off;
      case ISet(cs) => if i < |s| && s[i] in cs { p, i := p + CHARSETINSTSIZE, i + 1; } else { fail := true; }
      case ITestSet(cs, off) => p := if i < |s| && s[i] in cs then p + 1 + CHARSETINSTSIZE else p + off;
      case IBehind(m) => if m > i { fail := true; } else { p, i := p + 1, i - m; }
      case ISpan(cs) =>
        i := SpanOver(s, i, cs);
        p := p + CHARSETINSTSIZE;
      case IJmp(off) => p := p + off;
      case IChoice(off) =>
        Pushed(entries, Back(p + off, i));
        p, entries := p + 2, entries + [Back(p + off, i)];
      case ICall(off) =>
        Pushed(entries, Ret(p + 2));
        p, entries := p + off, entries + [Ret(p + 2)];
      case ICommit(off) =>
        assert entries != [] && entries[|entries| - 1].Back?;
        p, entries := p + off, entries[..|entries| - 1];
      case IPartialCommit(off) =>
        assert entries != [] && entries[|entries| - 1].Back?;
        Pushed(entries[..|entries| - 1], Back(entries[|entries| - 1].p, i));
        p, entries := p + off, entries[..|entries| - 1] + [Back(entries[|entries| - 1].p, i)];
      case IBackCommit(off) =>
        assert entries != [] && entries[|entries| - 1].Back?;
        p, i, entries := p + off, entries[|entries| - 1].i, entries[..|entries| - 1];
      case IFailTwice =>
        assert entries != [];
        entries := entries[..|entries| - 1];
        fail := true;
      case IFail => fail := true;
      case _ =>
    }
    if fail {
      NotDone(StackOf(entries));
      p, i, entries := Backtrack(entries, |s|);
    }
  }

  /**
   * Run `code` on `s` from `start`. On code that stops short of the machine's assertions, which hold then, the
   * result is the outcome of the machine.
   */
  method Match(code: Code, s: Subject, start: nat) returns (r: Result)
    requires start <= |s| && Out(code, s, Start(start)).Done?
    ensures Done(r) == Out(code, s, Start(start))
  {
    var p: int := 0;
    var i: nat := start;
    var entries := [Back(GIVEUP, start)];
    assert StackOf(entries) == Start(start).k;
    ghost var n := LongEnough(code, s, Start(start));
    ghost var goal := Out(code, s, Start(start));
    hide Out, Steps, Step;
    while true
      invariant i <= |s| && Within(entries, |s|)
      invariant Steps(code, s, Run(p, i, StackOf(entries)), n) == goal
      decreases n
    {
      n := OneStep(code, s, Run(p, i, StackOf(entries)), n, goal);
      var done;
      done, r, p, i, entries := Execute(code, s, p, i, entries);
      if done { return; }
    }
  }

  lemma OneStep(code: Code, s: Subject, c: Config, n: nat, goal: Config) returns (left: nat)
    requires c.Run? && goal.Done? && Steps(code, s, c, n) == goal
    ensures left < n && Steps(code, s, Step(code, s, c), left) == goal
    ensures !Step(code, s, c).Stuck? && (Step(code, s, c).Done? ==> Step(code, s, c) == goal)
  {
    left := n - 1;
    assert Steps(code, s, c, n) == Steps(code, s, Step(code, s, c), left);
  }

  lemma {:induction false} NotDone(k: Stack)
    ensures !FailTo(k).Done?
  {
    if k.Frame? && k.top.Ret? { NotDone(k.rest); }
  }

  lemma LongEnough(code: Code, s: Subject, c: Config) returns (n: nat)
    requires Out(code, s, c).Done?
    ensures Steps(code, s, c, n) == Out(code, s, c)
  {
    n :| !Steps(code, s, c, n).Run? && Out(code, s, c) == Steps(code, s, c, n);
  }

  lemma OneEntry(entries: seq<Entry>)
    requires StackOf(entries).Frame? && StackOf(entries).rest.Empty?
    ensures |entries| == 1
  {
  }

  method SpanOver(s: Subject, start: nat, cs: Charset) returns (i: nat)
    requires start <= |s|
    ensures i == SpanEnd(s, start, cs)
  {
    i := start;
    while i < |s| && s[i] in cs
      invariant start <= i <= |s| && SpanEnd(s, i, cs) == SpanEnd(s, start, cs)
    {
      i := i + 1;
    }
  }
}
