# Verified models of the game server's hard parts

This project models the parts of the server whose correctness is hard to see from the code, and proves what they are
for. `dafny verify dfyconfig.toml` checks all of it.

**LPeg** (`Peg*.dfy`). A pattern is a tree (`PegTree`), and its meaning is that of parsing expression grammars.
`PegAnalysis` holds the conservative analyses of the compiler and proves each of them against that meaning.
`PegMachine` is the instruction set, `PegMatch` the interpreter loop. `PegCodegen` says what code a tree becomes;
`PegLinking`, `PegCompileSound`, `PegPeephole`, `PegJumps` and `PegChains` prove that this code, linked and with its
jumps optimised, stops with exactly the result the pattern means. Part of the optimised code is right only where what
follows is bound to fail outside a set of characters, so the main induction speaks of code followed by any such
continuation. `PegCompiler` is the compiler that appends to and patches the code in place; its methods are proved to
compute the code of `PegCodegen`. `PegVerify` is the check made when a grammar is built, with a proof that accepted
grammars stop. `PegNullable` says exactly when a pattern counts as nullable or as never failing. `PegBudget` shows that
the bound on calls followed, which the recursive functions of this model need, changes no analysis, code or verdict
once it is large enough.

**Scheduler** (`Scheduler.dfy`, `MessageQueue.dfy`). Workers, senders, creators and retirers are threads of a state
machine whose steps are the atomic steps of the program; the ring buffer behind a message queue is a class that refines
a sequence. `Delivery.dfy` reads what was sent and which callbacks ran off the schedule and the places of the threads,
and `Settling.dfy` shows that every run can go on until all of it is done.

**Socket writes** (`SocketWrite.dfy`). Worker threads that write directly under a try-lock, the pipe, the two priority
lists and the socket thread that drains them; a write may accept any prefix of what it is given, block, or fail.
`SocketDelivery.dfy` and `SocketDraining.dfy` do for it what the last two do for the scheduler.

**Decimal conversion** (`BigNat.dfy`, `Bigint.dfy`, `Decimal.dfy`). Word arrays with carries and borrows denote natural
numbers; the digits of a quotient are produced with an estimated quotient digit, a cached chain of powers of five, and
rounding to nearest with ties to even (section 4.3.1 of IEEE 754-2008).

**Ranked skip list** (`SkipList.dfy`) and **timing wheel** (`TimingWheel.dfy`). Heap structures that refine a sorted
sequence and a history of requests and ticks.

**Building patterns** (`PegBuild.dfy`). The constructors of patterns and the final adjustment of trees, which makes
sequences and choices right-associative in the array of nodes, change no meaning. `PegLoops.dfy` is about the bodies
that may be repeated: what is refused at once, what only in a finished grammar, and that repetition then ends.

**Handles and names** (`HandleTable.dfy`), the **reader/writer lock** over them (`RwLock.dfy`), **packets** put together
from chunks (`NetPack.dfy`), the **serialiser** of values (`Seri.dfy`) and the **key exchange** (`KeyExchange.dfy`).

**JSON strings** (`JsonString.dfy`; section 7 of RFC 8259, UTF-8 of section 3 of RFC 3629), the **block cipher** and its
padding (`Des.dfy`; FIPS 46-3), and **shared tables** (`ShareData.dfy`): a table flattened into an array and a hash of
chained slots is read and gone through like the table itself, exactly when its keys survive being cut to 32 bits.

## Findings

- A grammar nested in a rule can hide left recursion from the check (skynet/3rd/lpeg/lptree.c:1036-1037): the branch
  for grammars returns the answer for the grammar and forgets the accumulator. `PegVerify.NestedGrammarMissed` gives
  an accepted grammar that never stops. Under `PegVerify.GrammarsShow` the check is exact (`PegVerify.VerifyRuleExact`),
  and this is also necessary for every answer on the way to be right (`PegVerify.AnswersExact`); for the last answer
  alone it is not, since a later choice can make that right again (`PegVerify.RightAgain`).
- A look-behind can hold calls (skynet/3rd/lpeg/lptree.c:1010): a predicate around a call has fixed length 0.
  `PegVerify.BehindCallMissed` gives an accepted grammar that never stops. Stopping is proved whenever no rule reaches
  itself through a look-behind (`PegVerify.BehindsDescend`).
- The creator of a service writes `init` after giving its reference back (skynet/skynet-src/skynet_server.c:161-166).
  `Scheduler.LateMark` says when the context is still there, and `Scheduler.LateMarkHappens` is a run where it is not.
- A range query between two elements is answered by an element outside the range, where the comment promises NULL
  (lualib-src/lua-zset/skiplist.c:294-313): `SkipList.SpansTooMuch`. `SkipList.List.FirstInRange` and
  `SkipList.List.LastInRange` say exactly when the answer is in the range.
- A context stores its handle only after registration has left the lock
  (skynet/skynet-src/skynet_server.c:155), while another registration may grow the table by the stored handles
  (skynet/skynet-src/skynet_handle.c:57): `HandleTable.EarlyGrowthLoses`, with the exact condition in
  `HandleTable.GrowthExact`.
- The handle 0 is reserved (skynet/skynet-src/skynet_handle.c:251), but it is given once the handle index has wrapped:
  `HandleTable.GivesZero` says exactly when, `HandleTable.ZeroGiven` gives tables.
- `powmodp` does not reduce the base P (skynet/lualib-src/lua-crypt.c:754), so that P to the power 1 is P:
  `KeyExchange.PowMod` names this as the only wrong case. No exchanged key is P.
- Keys of shared tables are cut when they are stored, integers to 32 bits (skynet/lualib-src/lua-sharedata.c:196) and
  tables to the empty string (skynet/lualib-src/lua-sharedata.c:203-207), but counted before
  (skynet/lualib-src/lua-sharedata.c:68-89). Some slot stays unset or some key fills two slots exactly when keys meet
  or a key is moved into the array: `ShareData.Table.constructor`, with `ShareData.MeetingKeys` and
  `ShareData.MovedKey` for two tables. Going through a table gives it back exactly when all keys fit:
  `ShareData.Table.Pairs`, with `ShareData.RenamedKey`. `ShareData.ReadExact` says which keys are read rightly.
- The loop that checks the padding compares its index as an unsigned number (skynet/lualib-src/lua-crypt.c:424), so
  that it does not stop at the start of a single block of zeros: `Des.DesDecode`, with the only such text in
  `Des.ReadsBelow`.
## Model

| member | source | states |
|---|---|---|
| `PegTree.PegMonotone` | skynet/3rd/lpeg/lpvm.c:149-360 | More fuel never changes the meaning of a pattern, so a pattern has a meaning independent of how it is computed |
| `PegTree.MeansUnique` | skynet/3rd/lpeg/lpvm.c:149-360 | A pattern has at most one result at a position |
| `PegAnalysis.NullableSound` | skynet/3rd/lpeg/lpcode.c:196-230 | Only a pattern that `nullable` reports can match without consuming |
| `PegAnalysis.NofailSound` | skynet/3rd/lpeg/lpcode.c:196-230 | A `nofail` pattern never fails |
| `PegAnalysis.FixedLenSound` | skynet/3rd/lpeg/lpcode.c:236-280 | A fixed length is the length of every match |
| `PegAnalysis.FirstSound` | skynet/3rd/lpeg/lpcode.c:294-370 | When the next character is outside the first set, a match is empty and the character is outside the follow set as well |
| `PegAnalysis.FirstFlagSound` | skynet/3rd/lpeg/lpcode.c:294-370 | Without the empty-subject flag the pattern fails at the end of the subject |
| `PegAnalysis.HeadFailSound` | skynet/3rd/lpeg/lpcode.c:377-399 | A `headfail` pattern succeeds whenever the next character is in its first set |
| `PegAnalysis.HeadFailExact` | skynet/3rd/lpeg/lpcode.c:373-399 | A `headfail` pattern fails exactly when there is no next character in its first set |
| `PegMachine.Exec` | skynet/3rd/lpeg/lpvm.c:167-360 | One instruction does not change the outcome of the machine |
| `PegMatch.Backtrack` | skynet/3rd/lpeg/lpvm.c:223-240 | Failing drops pending calls and resumes the last choice |
| `PegMatch.Execute` | skynet/3rd/lpeg/lpvm.c:167-360 | One round of the interpreter loop is one step of the machine |
| `PegMatch.Match` | skynet/3rd/lpeg/lpvm.c:149-360 | The loop over program counter, position and stack array ends with the outcome of the machine |
| `PegCompileSound.GenSound` | skynet/3rd/lpeg/lpcode.c:663-944 | Running the code of a pattern, in any context that fails where the follow set says so, does what the pattern means; covers the test, partial-commit and choice-reusing code |
| `PegCompileSound.CompileSound` | skynet/3rd/lpeg/lpcode.c:1002-1012 | Compiled code before jump optimisation ends exactly as the pattern means, and never at an assertion of the interpreter |
| `PegLinking.CorrectCallsCorrect` | skynet/3rd/lpeg/lpcode.c:844-865 | Linking resolves every open call to a call, or to a jump only where a return follows |
| `PegLinking.GrammarLinks` | skynet/3rd/lpeg/lpcode.c:868-885 | Each rule of a grammar is found linked at its position |
| `PegJumps.PatternInCode` | skynet/3rd/lpeg/lpcode.c:919-944 | Every label of compiled code points to a slot of the code |
| `PegJumps.ThreadedInCode` | skynet/3rd/lpeg/lpcode.c:956-996 | Jump optimisation keeps every label inside the code |
| `PegPeephole.PeepholeThreads` | skynet/3rd/lpeg/lpcode.c:956-996 | The pass only retargets labels along jumps and copies instructions to jumps that lead to them |
| `PegPeephole.PeepholeSound` | skynet/3rd/lpeg/lpcode.c:956-996 | Jump optimisation changes no outcome on any subject |
| `PegChains.StartEnds` | skynet/3rd/lpeg/lpcode.c:641-646 | Chains of jumps lead through nullable parts and left calls only, so they end |
| `PegChains.PatternChainsEnd` | skynet/3rd/lpeg/lpcode.c:641-653 | Every `finaltarget` chain of a compiled pattern is finite |
| `PegChains.CompilerCorrect` | skynet/3rd/lpeg/lpcode.c:1002-1012 | Compiler correctness: on every subject and start, the optimised code of a well-formed pattern with bounded grammars stops, with exactly the result the pattern means |
| `PegChains.VerifiedGrammarRuns` | skynet/3rd/lpeg/lptree.c:1045-1064 | A grammar that passes the checks compiles to code that always stops with its meaning |
| `PegVerify.VerifyRuleExact` | skynet/3rd/lpeg/lptree.c:1002-1043 | verifyrule accepts exactly the patterns whose left calls stay within MAXRULES, and answers whether they are nullable, whenever no nested grammar hides the accumulator |
| `PegVerify.AnswersExact` | skynet/3rd/lpeg/lptree.c:1002-1043 | Every answer the check gives on the way through a pattern is right exactly when no nested grammar hides the accumulator |
| `PegVerify.RightAgain` | skynet/3rd/lpeg/lptree.c:1030-1037 | A pattern in which an answer on the way is wrong and a later choice makes the whole answer right |
| `PegVerify.Stops` | skynet/3rd/lpeg/lptree.c:1002-1064 | Matching inside a grammar stops: a measure over nesting, look-behind rank, subject position and calls |
| `PegVerify.PatternStops` | skynet/3rd/lpeg/lptree.c:952-1064 | Every well-formed pattern with bounded grammars matches or fails in finitely many steps |
| `PegLoops.VerifyExact` | skynet/3rd/lpeg/lptree.c:1045-1064 | A grammar is accepted exactly when it has 1 to MAXRULES rules, every rule that can run stays within MAXRULES left calls, and none has an empty loop, whenever no nested grammar hides the accumulator |
| `PegLoops.ChainExact` | skynet/3rd/lpeg/lptypes.h:60 | Of chains of rules exactly those of up to 250 rules are accepted; 250 calls in a row are |
| `PegLoops.NullableAccepted` | skynet/3rd/lpeg/lptree.c:1045-1064 | A grammar with a nullable rule is accepted |
| `PegNullable.NullableExact` | skynet/3rd/lpeg/lpcode.c:196-230 | A pattern is taken to be nullable exactly when it matches the empty subject, every predicate taken to match |
| `PegNullable.NofailExact` | skynet/3rd/lpeg/lpcode.c:196-230 | A pattern is taken never to fail exactly when it matches the empty subject, negative predicates and look-behinds taken to fail |
| `PegVerify.VerifiedSafe` | skynet/3rd/lpeg/lptree.c:1045-1064 | A grammar accepted by the checks is well formed and bounded, together with the grammars nested in it |
| `PegVerify.VerifiedGrammarStops` | skynet/3rd/lpeg/lptree.c:1045-1064 | Every accepted grammar of sound shape matches or fails on every finite subject |
| `PegVerify.CallFreeDescend` | skynet/3rd/lpeg/lptree.c:1010-1011 | When no look-behind calls a rule, no rule reaches itself through a look-behind |
| `PegVerify.NestedGrammarMissed` | skynet/3rd/lpeg/lptree.c:1036-1037 | The check accepts S <- G* S with a nested grammar G, which never stops |
| `PegVerify.BehindCallMissed` | skynet/3rd/lpeg/lptree.c:1009-1011 | The check accepts a rule that calls itself inside a look-behind, which never stops |
| `PegBudget.NullableIs` | skynet/3rd/lpeg/lpcode.c:196-230 | With enough budget, following calls gives the same nullability as the code |
| `PegBudget.FixedLenIs` | skynet/3rd/lpeg/lpcode.c:133-146 | With a budget for each rule, the fixed length is the one found by marking calls that are being followed |
| `PegBudget.CodeSame` | skynet/3rd/lpeg/lpcode.c:919-944 | The generated code does not depend on the budget once that is enough |
| `PegBudget.VerdictSame` | skynet/3rd/lpeg/lptree.c:1045-1064 | The verdict on a grammar of sound shape does not depend on the budget once that is enough |
| `PegCompiler.CompileState.AddInstruction` | skynet/3rd/lpeg/lpcode.c:483-500 | Appends an instruction with the slots it takes |
| `PegCompiler.CompileState.JumpToThere` | skynet/3rd/lpeg/lpcode.c:543-547 | Sets one label in place |
| `PegCompiler.CompileState.CodeChar` | skynet/3rd/lpeg/lpcode.c:561-568 | Emits IChar, or IAny below an equivalent test |
| `PegCompiler.CompileState.CodeCharset` | skynet/3rd/lpeg/lpcode.c:588-606 | Emits the cheapest instruction for a charset |
| `PegCompiler.CompileState.CodeTestSet` | skynet/3rd/lpeg/lpcode.c:614-636 | Emits a test, or none when the empty subject must pass |
| `PegCompiler.CompileState.CodeChoice` | skynet/3rd/lpeg/lpcode.c:677-710 | Appends the code of a choice |
| `PegCompiler.CompileState.CodeAnd` | skynet/3rd/lpeg/lpcode.c:720-738 | Appends the code of an and-predicate |
| `PegCompiler.CompileState.CodeRep` | skynet/3rd/lpeg/lpcode.c:777-813 | Appends the code of a repetition |
| `PegCompiler.CompileState.CodeNot` | skynet/3rd/lpeg/lpcode.c:823-837 | Appends the code of a not-predicate |
| `PegCompiler.CompileState.CodeBehind` | skynet/3rd/lpeg/lpcode.c:659-663 | Appends the code of a look-behind |
| `PegCompiler.CompileState.CodeSeq1` | skynet/3rd/lpeg/lpcode.c:899-912 | Codes the first part of a sequence and says whether the test still protects the second |
| `PegCompiler.CompileState.LinkCalls` | skynet/3rd/lpeg/lpcode.c:844-861 | Resolves the open calls of the rules in place; its two assertions hold |
| `PegCompiler.CompileState.CodeGrammar` | skynet/3rd/lpeg/lpcode.c:868-884 | Appends the linked code of a grammar |
| `PegCompiler.CompileState.CodeGen` | skynet/3rd/lpeg/lpcode.c:919-944 | The in-place code generator appends exactly the code specified for the tree |
| `PegCompiler.CompileState.Optimize` | skynet/3rd/lpeg/lpcode.c:956-996 | The in-place jump optimisation computes the specified pass; its final assertion holds |
| `PegCompiler.FindTarget` | skynet/3rd/lpeg/lpcode.c:641-646 | The loop that follows jumps ends, inside the code, where the chain ends |
| `PegCompiler.Compile` | skynet/3rd/lpeg/lpcode.c:1002-1012 | The in-place compiler yields the optimised code of the pattern |
| `PegCompiler.MatchPattern` | skynet/3rd/lpeg/lptree.c:1156-1180 | Compiling and running a pattern returns what the pattern means |
| `PegCompiler.MatchGrammar` | skynet/3rd/lpeg/lptree.c:1156-1180 | A grammar accepted by the checks can be compiled and run on every subject, with the meaning of the grammar |
| `Scheduler.StepKeeps` | skynet/skynet-src/skynet_server.c:296-351 | Every step of every thread keeps the invariant of queues, references and owners |
| `Scheduler.OneOwner` | skynet/skynet-src/skynet_server.c:296-351 | In every run each queue is on the global list once, or held by one thread, or neither |
| `Scheduler.CallbackAlone` | skynet/skynet-src/skynet_server.c:296-351 | A callback runs in one thread at a time, on an initialised live service whose queue is not freed |
| `Scheduler.NonEmptyOwned` | skynet/skynet-src/skynet_mq.c:137-209 | A queue with messages is listed or held |
| `Delivery.SendStep` | skynet/skynet-src/skynet_mq.c:190-209 | A thread about to push a message appends it to that queue, whether the queue is on the global list or not, and leaves all other queues alone |
| `Delivery.SentIsPushed` | skynet/skynet-src/skynet_server.c:230-239 | In every run, what a thread sent to a service whose handle it found is what it has pushed to it, in order, but for the message it is about to push; both read off the schedule and the places of the threads |
| `Delivery.CalledInOrder` | skynet/skynet-src/skynet_mq.c:137-250 | In every run, the callback was called with the messages pushed, once each and in push order; until the service is being deleted the rest is what the queue holds |
| `Settling.AllDelivered` | skynet/skynet-src/skynet_server.c:296-351 | Every run can go on until nothing is left to do; then every send that found its handle was pushed, every message of a service that was not retired was delivered once and in order, and every retired service is freed |
| `Scheduler.FreedOnce` | skynet/skynet-src/skynet_mq.c:227-250 | A freed queue is neither listed nor held, and no thread will use or free it again |
| `Scheduler.AssertionsHold` | skynet/skynet-src/skynet_mq.c:219-225 | A queue is marked once, and is not on the list when it is put there |
| `Scheduler.RegisteredUntilRetired` | skynet/skynet-src/skynet_server.c:126-180 | A service is in the handle table from its creation until a step retires it |
| `Scheduler.LateMark` | skynet/skynet-src/skynet_server.c:161-166 | The late mark of a new context hits a live context if it was not retired, and otherwise exactly while another thread has a reference |
| `Scheduler.LateMarkHappens` | skynet/skynet-src/skynet_server.c:161-166 | A run in which the mark comes after the deletion has begun |
| `MessageQueue.Queue.Push` | skynet/skynet-src/skynet_mq.c:189-209 | Appends a message, also when the ring is full and grows |
| `MessageQueue.Queue.Expand` | skynet/skynet-src/skynet_mq.c:174-187 | Doubling the ring keeps the messages in order |
| `MessageQueue.Queue.Pop` | skynet/skynet-src/skynet_mq.c:136-172 | Takes the first message, tracks overload, and says when the ring is empty |
| `MessageQueue.Queue.Length` | skynet/skynet-src/skynet_mq.c:111-125 | The number of messages |
| `SocketWrite.StepKeeps` | skynet/skynet-src/socket_server.c:689-866 | Every step of a worker or the socket thread keeps the invariant of lists, counters and bytes |
| `SocketWrite.NeverInterleaved` | skynet/skynet-src/socket_server.c:549-578 | The bytes on the wire are whole messages and a part of at most one more: the next message in line, which was sent |
| `SocketDelivery.SentInLine` | skynet/skynet-src/socket_server.c:1503-1586 | In every run, the messages a worker was given to send at one priority, read off the schedule, are in line once each and in order, but for the one it still holds; an idle worker holds none |
| `SocketDelivery.HighFirst` | skynet/skynet-src/socket_server.c:807-866 | A high message in the lists waits behind at most one low one; the low list holds low messages only |
| `SocketDraining.WrittenDirectly` | skynet/skynet-src/socket_server.c:1503-1554 | When nothing is on its way, a high message can be written by its worker itself, in full or as far as the write accepts, and nothing goes through the pipe |
| `SocketDraining.AllWritten` | skynet/skynet-src/socket_server.c:689-866 | Every run without a failed write can go on until nothing is on its way; then the bytes written are whole messages, and those of each worker and priority are exactly the ones it was given, in order |
| `SocketWrite.AssertionsHold` | skynet/skynet-src/socket_server.c:685-727 | The assertions of the program hold, and `wb_size` is the number of unsent bytes on both lists |
| `BigNat.LongerIsMore` | lualib-src/lua-cjson/dtoa.c:1035-1064 | A number with more words is larger |
| `BigInt.Bigint.MultAdd` | lualib-src/lua-cjson/dtoa.c:613-667 | b*m + a, in place, growing when a carry is left |
| `BigInt.Mult` | lualib-src/lua-cjson/dtoa.c:806-913 | The product of two big integers |
| `BigInt.Cmp` | lualib-src/lua-cjson/dtoa.c:1035-1066 | The sign of the difference |
| `BigInt.Diff` | lualib-src/lua-cjson/dtoa.c:1069-1160 | The absolute difference and its sign |
| `BigInt.LShift` | lualib-src/lua-cjson/dtoa.c:975-1032 | b * 2^k |
| `BigInt.Estimate` | lualib-src/lua-cjson/dtoa.c:2120-2140 | The quotient of the top words is the quotient or one less |
| `BigInt.Quorem` | lualib-src/lua-cjson/dtoa.c:2120-2241 | Leaves b mod S in place and returns b div S |
| `Decimal.Powers.Extend` | lualib-src/lua-cjson/dtoa.c:917-972 | The chain of cached powers grows by squaring and stays 5^4, 5^8, 5^16, ... |
| `Decimal.Powers.Pow5Mult` | lualib-src/lua-cjson/dtoa.c:917-972 | b * 5^k for every k, with the cached chain extended on demand |
| `Decimal.DShift` | lualib-src/lua-cjson/dtoa.c:2109-2117 | The shift that gives the divisor four leading zero bits |
| `Decimal.Scale` | lualib-src/lua-cjson/dtoa.c:4145-4159 | The divisor times a power of two, with a top word of exactly four leading zero bits |
| `Decimal.Hi0bits` | lualib-src/lua-cjson/dtoa.c:707-735 | The number of leading zero bits of a word |
| `Decimal.RoundOff` | lualib-src/lua-cjson/dtoa.c:4314-4322 | Rounding up: trailing nines go and the digit before them grows; all nines give one with the exponent bumped |
| `Decimal.TrimZeros` | lualib-src/lua-cjson/dtoa.c:4324-4329 | Drops trailing zeros |
| `Decimal.RoundLast` | lualib-src/lua-cjson/dtoa.c:4302-4329 | Rounds by twice the remainder, ties to even |
| `Decimal.QuotientDigits` | lualib-src/lua-cjson/dtoa.c:4284-4329 | The digits of b/S, correctly rounded (ties to even), without trailing zeros, with the exponent bumped when all digits are nines |
| `Decimal.NearestIs` | lualib-src/lua-cjson/dtoa.c:4302-4329 | The correctly rounded number is unique |
| `SkipList.TotalOrder` | lualib-src/lua-zset/skiplist.c:81-89 | Scores and members give a total order |
| `SkipList.CompareExact` | lualib-src/lua-zset/skiplist.c:81-85 | A member comes first exactly when it is a proper prefix or has the smaller byte where the two differ first |
| `SkipList.LessExact` | lualib-src/lua-zset/skiplist.c:102-110 | A lower score comes first; members of equal score come in that byte order |
| `SkipList.InsertLevel` | lualib-src/lua-zset/skiplist.c:91-130 | Inserting keeps every level a sorted sublist with spans equal to rank differences |
| `SkipList.RemoveLevel` | lualib-src/lua-zset/skiplist.c:146-158 | Removing keeps every level and its spans |
| `SkipList.List.Insert` | lualib-src/lua-zset/skiplist.c:91-143 | The heap list with an element inserted is the sorted sequence with it inserted, for any level in 1..32 |
| `SkipList.List.DeleteNode` | lualib-src/lua-zset/skiplist.c:146-164 | Unlinks one node, shrinking the level |
| `SkipList.List.Delete` | lualib-src/lua-zset/skiplist.c:167-191 | Removes the element if it is stored |
| `SkipList.List.DeleteByRank` | lualib-src/lua-zset/skiplist.c:195-221 | Removes exactly the ranks asked for, in order |
| `SkipList.List.GetRank` | lualib-src/lua-zset/skiplist.c:227-248 | The rank of a stored element, when its member is stored once; 0 when its member is not stored; for any score, a rank is that of the member at this or a lower score, and 0 says that the last element not after the one asked for has another member |
| `SkipList.List.GetNodeByRank` | lualib-src/lua-zset/skiplist.c:251-273 | The element of a rank |
| `SkipList.List.RankOfRanked` | lualib-src/lua-zset/skiplist.c:227-273 | The rank of the element of a rank is that rank |
| `SkipList.List.RankedOfRank` | lualib-src/lua-zset/skiplist.c:227-273 | The element of the rank of an element is that element |
| `SkipList.List.IsInRange` | lualib-src/lua-zset/skiplist.c:277-292 | Whether the scores of the list, as one interval, meet the range |
| `SkipList.List.FirstInRange` | lualib-src/lua-zset/skiplist.c:296-313 | The first element at or above min when the list spans the range; it lies in the range exactly when some element does |
| `SkipList.List.LastInRange` | lualib-src/lua-zset/skiplist.c:317-334 | The last element at or below max, likewise |
| `SkipList.SpansTooMuch` | lualib-src/lua-zset/skiplist.c:275-292 | A range between two elements is spanned but holds nothing |
| `TimingWheel.TickMoves` | skynet/skynet-src/skynet_timer.c:119-139 | When the clock ticks, nodes of one list only have to move |
| `TimingWheel.Timer.AddNode` | skynet/skynet-src/skynet_timer.c:75-93 | Links a node into the list where it belongs |
| `TimingWheel.Timer.TimerAdd` | skynet/skynet-src/skynet_timer.c:96-106 | Adding keeps the wheel in step with its history |
| `TimingWheel.Timer.MoveList` | skynet/skynet-src/skynet_timer.c:109-116 | Re-adds the nodes of one list |
| `TimingWheel.Timer.TimerShift` | skynet/skynet-src/skynet_timer.c:119-139 | Advancing the clock, also across its wrap, leaves every node where add_node would put it now |
| `TimingWheel.Timer.TimerExecute` | skynet/skynet-src/skynet_timer.c:160-170 | Dispatches what is due, once, while requests keep coming in |
| `TimingWheel.Timer.TimerUpdate` | skynet/skynet-src/skynet_timer.c:173-185 | One update fires exactly what the history makes due at the new time, in insertion order |
| `TimingWheel.Timer.Timeout` | skynet/skynet-src/skynet_timer.c:212-232 | A delay of zero or less fires at once |
| `TimingWheel.Timer.Serve` | skynet/skynet-src/skynet_timer.c:267-281 | Over any number of rounds, each fires what the whole history makes due at its tick; the history is the requests and ticks of the rounds in order |
| `TimingWheel.WholeRun` | skynet/skynet-src/skynet_timer.c:173-185 | From a new timer, each event fires once for each request of those rounds whose delay ended during the run |
| `TimingWheel.PastFixed` | skynet/skynet-src/skynet_timer.c:173-185 | What happens later does not change what was due |
| `TimingWheel.DueThen` | skynet/skynet-src/skynet_timer.c:96-106 | A request is among what is due when its delay ends |
| `TimingWheel.FiredWhenEnded` | skynet/skynet-src/skynet_timer.c:173-185 | By any tick an event has fired once for each request whose delay has ended |
| `TimingWheel.AllFireOnce` | skynet/skynet-src/skynet_timer.c:173-185 | In time, every event has fired as often as it was asked for |
| `PegBuild.LpSeqRight` | skynet/3rd/lpeg/lptree.c:538-548 | What `lp_seq` builds means the sequence of its arguments, in every grammar it is put in |
| `PegBuild.LpChoiceRight` | skynet/3rd/lpeg/lptree.c:558-573 | What `lp_choice` builds means the choice of its arguments, whatever its open calls will be |
| `PegBuild.LpSubRight` | skynet/3rd/lpeg/lptree.c:634-655 | What `lp_sub` builds means the second pattern must not match and then the first |
| `PegLoops.RefusedExact` | skynet/3rd/lpeg/lptree.c:579-583 | p^n is refused exactly when its body would be nullable in every grammar it could be put in |
| `PegLoops.StarMeans` | skynet/3rd/lpeg/lptree.c:575-609 | What `lp_star` builds matches as often as it can, at most -n times, and fails when that is less than n times |
| `PegLoops.StarTimes` | skynet/3rd/lpeg/lptree.c:575-609 | Whenever what `lp_star` builds has a meaning, it is of that kind |
| `PegLoops.LoopExact` | skynet/3rd/lpeg/lptree.c:579-591 | When every match of the body ends, p^n always ends exactly when the body never matches the empty string |
| `PegLoops.AcceptedEnds` | skynet/3rd/lpeg/lptree.c:575-609 | An accepted body without calls never matches the empty string, and its repetition always ends, in any grammar; so does p^-n |
| `PegLoops.LoopsFound` | skynet/3rd/lpeg/lptree.c:952-970 | The check of a finished grammar finds a loop exactly when some repeated body is nullable, its calls now followed |
| `PegLoops.CheckedLoops` | skynet/3rd/lpeg/lptree.c:952-970 | In a rule that passes the check no repeated body matches the empty string, whatever it calls, so a repetition ends if its body does |
| `PegLoops.OpenCallLater` | skynet/3rd/lpeg/lptree.c:579-583 | A repeated open call is accepted; in a finished grammar it is refused exactly when the rule called is nullable |
| `PegBuild.AtLeastMeans` | skynet/3rd/lpeg/lptree.c:579-591 | p^n matches as often as it can, and fails when that is less than n times |
| `PegBuild.AtLeastTimes` | skynet/3rd/lpeg/lptree.c:579-591 | Whenever p^n has a meaning there is such a number of times |
| `PegBuild.AtMostMeans` | skynet/3rd/lpeg/lptree.c:592-605 | p^-n matches as often as it can, at most n times, and never fails |
| `PegBuild.AtMostTimes` | skynet/3rd/lpeg/lptree.c:592-605 | Whenever p^-n has a meaning, it is of that kind |
| `PegBuild.RotatedSame` | skynet/3rd/lpeg/lptree.c:81-89 | One turn of the rotation does not change the tree that comes out |
| `PegBuild.FixNests` | skynet/3rd/lpeg/lptree.c:100-126 | After the final adjustment no sequence and no choice is left-nested |
| `PegBuild.FixRight` | skynet/3rd/lpeg/lptree.c:100-126 | The final adjustment of a tree and of the rules it calls changes no meaning |
| `PegBuild.CorrectAssociativity` | skynet/3rd/lpeg/lptree.c:78-90 | The rotation in the array of nodes leaves a right-associative tree in the same slots |
| `PegBuild.FinalFix` | skynet/3rd/lpeg/lptree.c:100-126 | The array of nodes then holds the adjusted tree, and nothing outside it changes |
| `RwLock.WriterAlone` | skynet/skynet-src/rwlock.h:17-48 | In every run of any number of threads a writer in its section is alone; `read` counts the threads that read, check or back off |
| `RwLock.NeverStuck` | skynet/skynet-src/rwlock.h:17-48 | Every run can go on until all threads have left the lock |
| `KeyExchange.MulModP` | skynet/lualib-src/lua-crypt.c:716-735 | The product modulo P, although doubling and adding are done in 64-bit words |
| `KeyExchange.PowModP` | skynet/lualib-src/lua-crypt.c:738-749 | The power modulo P, except that an exponent of 1 returns the base as it is |
| `KeyExchange.PowMod` | skynet/lualib-src/lua-crypt.c:752-757 | The power modulo P for every base and exponent but P and 1 |
| `KeyExchange.DhExchange` | skynet/lualib-src/lua-crypt.c:791-812 | What is sent is the power of the generator; 0 is refused |
| `KeyExchange.DhSecret` | skynet/lualib-src/lua-crypt.c:774-787 | The secret is the power of what was received |
| `KeyExchange.SentIsAccepted` | skynet/lualib-src/lua-crypt.c:774-812 | What one side sends is never the 0 that the other side refuses |
| `KeyExchange.KeyExchange` | skynet/lualib-src/lua-crypt.c:774-812 | Both sides end with the same secret |
| `HandleTable.DoubledHolds` | skynet/skynet-src/skynet_handle.c:53-64 | A table of twice the size holds the same contexts, each where its handle says |
| `HandleTable.DoubledNext` | skynet/skynet-src/skynet_handle.c:56-60 | While the table doubles no two contexts meet in a slot |
| `HandleTable.AllProbed` | skynet/skynet-src/skynet_handle.c:42-52 | When no free slot is found, there is none |
| `HandleTable.GivesZero` | skynet/skynet-src/skynet_handle.c:42-52 | The reserved handle 0 is given exactly when slot 0 is free and the slots of all handles up to the end of the handle space are taken |
| `HandleTable.ZeroGiven` | skynet/skynet-src/skynet_handle.c:42-52 | The first table gives the handle 0 once the index has reached the end of the handle space and slot 0 is free |
| `HandleTable.GrowthExact` | skynet/skynet-src/skynet_handle.c:53-64 | Growth finds every context the slot of its given handle exactly when the stored handle fields already have its low bits |
| `HandleTable.EarlyGrowthLoses` | skynet/skynet-src/skynet_handle.c:53-64 | A context that has not stored its handle when the table grows is lost |
| `HandleTable.Storage.Register` | skynet/skynet-src/skynet_handle.c:34-67 | Gives the first free handle from the index on, in a grown table if need be; the new handle is not in use, all others stay |
| `HandleTable.Storage.Grab` | skynet/skynet-src/skynet_handle.c:132-149 | Finds exactly the context registered under a handle |
| `HandleTable.Storage.Retire` | skynet/skynet-src/skynet_handle.c:69-106 | Removes exactly that handle, and its names |
| `HandleTable.Storage.Search` | skynet/skynet-src/skynet_handle.c:208-224 | Binary search finds a name, or the place where it keeps the names sorted |
| `HandleTable.StrCmpExact` | skynet/skynet-src/skynet_handle.c:160-172 | A name comes first exactly when it is a proper prefix or has the smaller character where the two differ first |
| `HandleTable.Storage.FindName` | skynet/skynet-src/skynet_handle.c:151-179 | The handle of a name, or 0 when no such name is stored |
| `HandleTable.Storage.NameHandle` | skynet/skynet-src/skynet_handle.c:181-240 | Adds a name unless it is taken; the array stays strictly sorted |
| `NetPack.ParseCut` | skynet/lualib-src/lua-netpack.c:188-307 | Parsing a stream can stop and go on at any byte |
| `NetPack.Queue.PushData` | skynet/lualib-src/lua-netpack.c:150-167 | Appends a packet to the ring, which grows when it is full |
| `NetPack.Queue.ExpandQueue` | skynet/lualib-src/lua-netpack.c:133-148 | A larger ring with the same packets in the same order |
| `NetPack.Queue.Pop` | skynet/lualib-src/lua-netpack.c:396-411 | Takes the oldest packet out of the ring |
| `NetPack.Queue.FindUncomplete` | skynet/lualib-src/lua-netpack.c:92-114 | Takes out what is unfinished on one connection and leaves the others |
| `NetPack.Queue.PushMore` | skynet/lualib-src/lua-netpack.c:188-215 | Queues the packets of a chunk and keeps what is left |
| `NetPack.Queue.FilterData` | skynet/lualib-src/lua-netpack.c:227-307 | A chunk delivers exactly the packets that the unfinished bytes and the chunk hold together, and keeps the rest |
| `NetPack.Queue.Receive` | skynet/lualib-src/lua-netpack.c:227-411 | In a run over many connections each gets its own packets, in order |
| `NetPack.AnyCut` | skynet/lualib-src/lua-netpack.c:227-307 | Those are the packets of the stream, however it is cut into chunks |
| `NetPack.SentArrives` | skynet/lualib-src/lua-netpack.c:430-453 | What was packed and sent is what arrives, also while the last packet is on its way |
| `JsonString.Utf8Right` | lualib-src/lua-cjson/lua_cjson.c:773-806 | The bytes written for a code point below 0x200000 are as few as can be and decode to it, by an independent reading of UTF-8 |
| `JsonString.JsonAppendString` | lualib-src/lua-cjson/lua_cjson.c:461-485 | Appends the escaped string in quotes; the room asked for once is enough for every unchecked append |
| `JsonString.NextStringToken` | lualib-src/lua-cjson/lua_cjson.c:883-941 | Reads the string or finds it invalid exactly as the reading function says; no unchecked append runs out of room and no read passes the end |
| `JsonString.ReadsSpelled` | lualib-src/lua-cjson/lua_cjson.c:750-941 | However a string is written, with characters as they are, short escapes, hexadecimal escapes of either case and surrogate pairs, it is read as what its parts stand for |
| `JsonString.OnlySpelled` | lualib-src/lua-cjson/lua_cjson.c:750-941 | Only what is written so is read as a string |
| `JsonString.LoneSurrogate` | lualib-src/lua-cjson/lua_cjson.c:817-876 | A surrogate that is not the first or second of a pair is an error |
| `JsonString.PrintedIs` | lualib-src/lua-cjson/lua_cjson.c:151-217 | Printed text writes each character by itself, by its short escape where it has one, and holds no control character |
| `JsonString.RoundTrip` | lualib-src/lua-cjson/lua_cjson.c:461-485 | Reading what was printed gives the string back, whatever its bytes and whatever follows |
| `Des.InitialTable` | skynet/lualib-src/lua-crypt.c:185-214 | The initial permutation sends every bit of the eight bytes of a block where the table of FIPS 46-3 says, both halves rotated by one place |
| `Des.PermutationsInverse` | skynet/lualib-src/lua-crypt.c:203-227 | The final permutation undoes the initial one |
| `Des.RoundsUndone` | skynet/lualib-src/lua-crypt.c:316-340 | Rounds with the subkeys in reverse order undo rounds, whatever the round function |
| `Des.CryptUndone` | skynet/lualib-src/lua-crypt.c:316-340 | A block comes back when it is crypted again with the subkeys in reverse order |
| `Des.DesCrypt` | skynet/lualib-src/lua-crypt.c:316-340 | Two rounds in a turn on two words in place are the rounds of the cipher |
| `Des.DesEncode` | skynet/lualib-src/lua-crypt.c:366-398 | The blocks of the padded text, each crypted |
| `Des.DesDecode` | skynet/lualib-src/lua-crypt.c:401-438 | The text without its padding, or an error for a wrong length or padding, or a read below the buffer |
| `Des.ReadsBelow` | skynet/lualib-src/lua-crypt.c:423-432 | The check of the padding reads below the buffer for one text only: the block that zeros are encrypted to |
| `Des.EncodeDecode` | skynet/lualib-src/lua-crypt.c:366-438 | Decoding gives back the text that was encoded, for every text, key and round function |
| `ShareData.MeetsExact` | skynet/lualib-src/lua-sharedata.c:192-210 | Different keys are stored alike exactly when they are integers equal modulo 2^32, or tables or the empty string |
| `ShareData.RoomLeft` | skynet/lualib-src/lua-sharedata.c:255-263 | An entry that is not in its main slot yet always finds an empty slot, whatever the keys: the assertion holds |
| `ShareData.Table.constructor` | skynet/lualib-src/lua-sharedata.c:277-323 | For tables with any keys: the array holds what the cut entries say, and the slots are filled with different keys and hold the cut table exactly when no keys meet and none is moved into the array |
| `ShareData.Table.FillNoColliding` | skynet/lualib-src/lua-sharedata.c:213-235 | The first pass fills the array, and the main slot of every entry of the hash |
| `ShareData.Table.FillColliding` | skynet/lualib-src/lua-sharedata.c:238-272 | The second pass stores the other entries, each linked in behind its main slot; no entry fills two slots |
| `ShareData.SafeDone` | skynet/lualib-src/lua-sharedata.c:213-272 | When no keys meet and none is moved into the array, the two passes leave every entry in its chain |
| `ShareData.FilledIsSafe` | skynet/lualib-src/lua-sharedata.c:213-272 | When every slot is filled and no key fills two, no keys meet and none was moved into the array |
| `ShareData.MeetingKeys` | skynet/lualib-src/lua-sharedata.c:238-272 | The keys 5 and 2^32 + 5: the second is dropped and slot 0 of two stays unset |
| `ShareData.MovedKey` | skynet/lualib-src/lua-sharedata.c:192-235 | The keys 1 and 2^32 + 1: the second replaces the first item of the array, and its slot stays unset |
| `ShareData.RenamedKey` | skynet/lualib-src/lua-sharedata.c:192-210 | The key 2^32 + 5 alone is kept as 5 |
| `ShareData.Table.Lookup` | skynet/lualib-src/lua-sharedata.c:502-530 | Finds the slot of a key exactly when it is stored, also when the walk starts inside another chain |
| `ShareData.Table.Get` | skynet/lualib-src/lua-sharedata.c:533-563 | Reads what the table holds at the key once cut; refuses tables as keys |
| `ShareData.ReadExact` | skynet/lualib-src/lua-sharedata.c:533-563 | Reading a key is right exactly when no other key of the table meets it |
| `ShareData.Table.NextKey` | skynet/lualib-src/lua-sharedata.c:590-640 | The first key, or the one after a given key: the array in order, then the slots |
| `ShareData.Table.Pairs` | skynet/lualib/skynet/sharedata/corelib.lua:107-117 | Going from each key to the next and reading its value gives every cut entry exactly once; these are the entries of the table exactly when all keys fit |
| `ShareData.FitIsSafe` | skynet/lualib-src/lua-sharedata.c:192-210 | A table whose integer keys fit in 32 bits and which has no tables as keys is safe |
| `Seri.RoundTrip` | skynet/lualib-src/lua-seri.c:217-553 | Unpacking what a value was packed into gives the value back, whatever follows it |
| `Seri.FitsExact` | skynet/lualib-src/lua-seri.c:38 | A value is accepted exactly when nothing lies more than 32 tables deep in it |
| `Seri.LEAt` | skynet/lualib-src/lua-seri.c:127-165 | The bytes of a word come lowest first |
| `Seri.ListTrip` | skynet/lualib-src/lua-seri.c:342-348 | The same for a list of values |
| `Seri.AnyOrder` | skynet/lualib-src/lua-seri.c:217-258 | Whatever raw length a table reports and in whatever order it is traversed, the traversal builds the same table |
| `Seri.WriteBlock.Push` | skynet/lualib-src/lua-seri.c:65-85 | Appends bytes across the boundaries of the blocks |
| `Seri.WriteBlock.Seri` | skynet/lualib-src/lua-seri.c:534-553 | Copies the blocks into one buffer that holds what was written |
| `Seri.WriteBlock.PackOne` | skynet/lualib-src/lua-seri.c:296-340 | Writes the encoding of a value, or refuses one that is nested too deeply |
| `Seri.ReadBlock.UnpackOne` | skynet/lualib-src/lua-seri.c:523-531 | Reads a value, or ends in an error, exactly as the decoding function says; a string length of 2^31 or more is negative and an error |
| `Seri.ReadBlock.UnpackAll` | skynet/lualib-src/lua-seri.c:555-596 | Reads values until nothing is left |
| `Seri.Transfer` | skynet/lualib-src/lua-seri.c:555-612 | A packed and unpacked list comes back as it was exactly when nothing lies more than 32 tables deep |

## Left out

- LPeg captures, match-time captures, the limit of the backtrack stack and memory growth: trees are capture-free, the
  stack is unbounded.
- `getfirst` on the child of a predicate or look-behind, which only looks for match-time captures, is not followed.
- `callrecursive` marks call nodes; `PegBudget.FixedLenMarked` marks rules.
- Rules that no rule names are not checked by `verifygrammar`; the theorems need nothing of them but linked calls.
- Bit masks of the timer are written as quotients and remainders, its linked lists as sequences; the wall clock that
  decides how many ticks an update makes is a parameter.
- The scheduler takes registration and queue creation as one step, while `skynet_context_new` publishes the handle
  before it sets `ctx->queue` (skynet/skynet-src/skynet_server.c:155-156); a send in between is not modelled.
- A service that has set no callback frees the messages it takes; here this counts as a call.
- Handles are assumed never to be used again while an old queue lives; the worker weights are left to choice.
- Memory order weaker than sequential consistency, monitoring, profiling and logging.
- Closing and half-closing sockets, UDP, user objects and polling; the first, unlocked look at both lists is one step;
  after a failed write the run of that socket ends.
- The random level of a skip list node is any value in 1..32; scores are reals without NaN.
- SkipList.List.GetRank: for a member stored with a lower score than the one asked for, does not say whether the walk
  meets it on some level, because that depends on the random levels.
- Floating-point fast paths of `dtoa` and `strtod`, its other modes, the estimate of the decimal exponent, and the pool
  allocator: the model starts from the integers whose quotient is printed.
- HandleTable.Storage.Register: takes storing the handle into the context as part of registration; what happens
  otherwise is `HandleTable.GrowthExact`. The bit masks of the table are written as remainders, its lock is `RwLock`.
- PegLoops.LpStar: takes p^0 and p^-1 to trees by recursion, not by filling an array; character ranges and sets,
  strings and numbers as patterns, and the tables of constants beside the trees are not modelled. In the array of
  nodes a leaf takes one slot.
- PegBuild.FinalFix: open calls are already bound to rule numbers.
- Seri.PackString: the host is taken to be little-endian; `__pairs`, user data that is not light, and the size limits
  of the Lua stack are not modelled.
- NetPack.Queue.Receive: assumes, as the callers do, that the queue is drained after each chunk; its hash chains are
  sequences.
- KeyExchange.PowModP: does not cover the exponent 0, which its callers refuse and on which the code does not stop.
- JsonString.JsonAppendString: leaves out the growth policy of the buffer and strings of 2^31 / 6 bytes or more;
  numbers, arrays and objects of JSON are not modelled.
- Des.DesCrypt: takes the round function and the subkeys as parameters; the S-boxes and the key schedule are not
  modelled.
- Seri.ReadBlock.UnpackOne: has one error for all errors; for a string length of 2^31 or more it is raised when Lua
  makes the string (skynet/3rd/lua/lstring.c:211), after `rb_read` let the negative length pass.
- ShareData.Table.Lookup: takes slots that are all filled; what is read from unset slots is not modelled. Strings stand
  for their indices in the string table, inner tables for their addresses. Keys that are no integers, strings or tables
  are refused.
- The other users of `lua-crypt.c` and the updating of shared tables are not modelled.
