# Skynet: a verified model of the runtime's hard parts

Skynet is an actor runtime in C: services exchange messages through queues that
worker threads dispatch, with timers, sockets and Lua-facing libraries around
them, and with LPeg and Lua built in.  This project models the parts whose
correctness is not visible from any single function, and proves what they are
for.  `dafny verify dfyconfig.toml` checks everything.

| modules | part of the system | main theorems |
|---|---|---|
| `LpegTree`, `LpegLanguage`, `LpegVm`, `LpegCode`, `LpegCharset`, `LpegCorrect`, `LpegCalls`, `LpegCompile` | LPeg patterns, their analyses, code generation and the machine | every analysis is sound, and how sharp it is (`FixedLenIff`, `FirstIff`); for every closed pattern, grammars included, the compiled code answers what the pattern means (`CompileCorrect`) |
| `LpegGrammar`, `LpegAccept`, `LpegSettle`, `LpegRewrite` | well-formedness, ends of the analyses, tree constructors and rewrites | accepted patterns always have an answer (`WellFormedAnswers`), and which are accepted (`RejectedIff`, `LoopsIff`); analyses and code do not depend on how deep calls are followed (`CompileSettles`); rewrites keep the meaning |
| `LpegPeephole`, `LpegJumps`, `LpegThread`, `LpegOptimize`, `LpegMatch` | jump threading and the interpreter loop | `peephole` ends, keeps every answer and leaves nothing to thread; pattern to answer end to end (`PatternMatch`) |
| `LuaGc`, `LuaGcSafe`, `LuaGcRun`, `LuaGcMutator`, `LuaGcMachine` | Lua's incremental collector | nothing reachable is freed in any interleaving (`RunSafe`), and the program's own operations take effect (`StoreHolds`, `NewHolds`); a full collection leaves exactly the reachable objects (`FullGcExact`) |
| `TimerWheel`, `TimerMachine` | the five timer wheels | the wheels are a queue ordered by deadline and insertion, across the wrap-around of the clock, and a timer fires exactly its delay after it was added (`RunDelay`, `TimerUpdate`) |
| `Scheduler`, `SchedulerFates`, `MessageQueue` | services, queues, workers, reference counts | ownership of queues, conservation and order of messages, one release (`RunKeeps`, `Ownership`, `FreedOnce`); only released queues drop messages, and no message is stranded (`DroppedReleased`, `NeverStranded`) |
| `RwLock` | the spinning read/write lock | exclusion for any number of threads (`Exclusion`), refinement of an abstract lock (`Refines`), no deadlock (`CanFinish`) |
| `TcpSend`, `TcpOrder`, `TcpPriority`, `TcpStall` | the TCP send path | whole packets on the wire (`RunIntegrity`), no overtaking within a priority (`RunOrdered`), urgent packets before low ones that wait (`RunFollows`, `LowBegins`), exactly when an assertion of the code fails, and what follows |
| `LuaSeri`, `LuaSeriShortest`, `LuaSeriBlocks` | the serializer of messages | round trip for all values that can be packed (`SeqRoundTrip`), in the shortest form there is (`PackShortest`), block chain |
| `Des`, `DiffieHellman` | cipher and key exchange | decoding undoes encoding and accepts nothing else; the permutation is the standard's (`IpTable`); both sides get the same secret |
| `HandleRegistry`, `HandleNames`, `HandleStorage` | handles and names of services | the slot table and the sorted name array refine maps; which handle comes next, and when one can come again |
| `SharedTable` | the index of shared tables | when lookup and iteration are exact (`ServesIff`, `VisitsIff`) |
| `Framing`, `Netpack`, `PackageService` | length-prefixed streams, the package service | independence of chunking, request pairing (`Pairing`), no request lost (`NoneLost`) |

How the parts are written:

- What the C code computes by recursion is a function; what it does step by step
  is a class or a method that changes fields, arrays or lists in place, proved
  against such a function or against an invariant.
- What threads do concurrently is a machine whose steps are the critical
  sections or the atomic accesses; theorems speak about every run of any number
  of threads.
- What `write` returns, which handle, message, hash function, round function or
  chunk comes next are parameters, so theorems hold for all of them.
- The meaning of LPeg patterns is a big-step evaluator with fuel; `Matches` says
  that some amount of fuel gives the answer, and answers do not depend on it.
- `Common` holds optional values, results and small facts that several modules
  share.

Where the code does not do what it says:

- The assertion in step 4 of `send_buffer_` (`skynet/skynet-src/socket_server.c`,
  line 703) can fail: a low list that stops between two packets reaches it.
  `AssertFailsIff`, `AssertReachableIff` and `AssertCanFail` say exactly when.
  With assertions the program stops there.  Without them the invariants of the
  send path hold all the same (`WatchInv`), but the write event has been turned
  off: the socket sends nothing more until it is closed (`StalledForever`), and
  a half-closed one loses its low packets (`AssertStalls`).
- `verifyrule` accepts some left-recursive grammars: its accumulator is lost at a
  sub-grammar and it does not look into look-behinds (`MissedLoopPasses`,
  `MissedBehindPasses`).  What it rejects is exact: chains of more calls before
  input than there can be rules (`RejectedIff`).  Termination is proved for everything outside these
  two cases.  The converse, exactly which of the other accepted grammars end on
  every subject, is out of reach: whether a recursive call inside a look-behind
  or behind a sub-grammar is ever made depends on whether what comes before it
  can match at all, which is undecidable for parsing expressions.
- `powmodp` does not reduce a base that equals P when the exponent is one
  (`PowMod64`).
- A comment in `skynet_handle.c` reserves handle zero.  `Register` says exactly
  when a handle with lower bits zero is issued, and `HandleZero` is a run that
  is given handle zero.
- Shared tables keep integer keys in 32 bits but count slots by the full key.
  With the keys 5 and 2^32 + 5 a slot stays uninitialised and one value is lost
  (`WideKeys`).  `ServesIff` and `VisitsIff` say exactly when lookup and
  iteration are right.
- The loop of `ldesdecode` over the padding compares an `int` with a `size_t`,
  and reads before its buffer for a single block that decrypts to zeros
  (`OutsideIff`, `OutsideBlock`).
- `skynet_context_new` writes `init`, and logs, after giving up its reference; a
  service that is killed in between has been freed (`UnreferencedIff`,
  `InitAfterFree`).

## Model

| member | source | states |
|---|---|---|
| `LpegTree.NullableSound` | skynet/3rd/lpeg/lpcode.c:181-234 | a pattern that `checkaux` says is not nullable never matches without consuming input, on any subject, position and call depth bound |
| `LpegTree.NoFailSound` | skynet/3rd/lpeg/lpcode.c:181-234 | a `nofail` pattern never fails |
| `LpegTree.FixedLenSound` | skynet/3rd/lpeg/lpcode.c:236-281 | when `fixedlen` gives a length, every match has exactly that length |
| `LpegTree.FirstSound` | skynet/3rd/lpeg/lpcode.c:284-368 | `getfirst` covers the first character of every match relative to what may follow, and its flag covers matches at the end of the subject |
| `LpegTree.NoFailFirst` | skynet/3rd/lpeg/lpcode.c:294-368 | a pattern that cannot fail is nullable, and `getfirst` gives it the full set and says that it accepts an empty rest |
| `LpegTree.HeadFailExact` | skynet/3rd/lpeg/lpcode.c:371-399 | a `headfail` pattern fails exactly when the next character is outside `getfirst(p, fullset)` or the input has ended |
| `LpegLanguage.MatchesWord` | skynet/3rd/lpeg/lpcode.c:181-368 | every match is a word of the pattern's language, in which choices have no order and predicates hold; the analyses are measured by it |
| `LpegLanguage.NullableWord` | skynet/3rd/lpeg/lpcode.c:196-234 | `nullable` says exactly whether the empty word is in the language |
| `LpegLanguage.FixedLenIff` | skynet/3rd/lpeg/lpcode.c:236-281 | `fixedlen` gives n exactly when all words of the language have length n, where every part has a word and no loop is empty |
| `LpegLanguage.FirstIff` | skynet/3rd/lpeg/lpcode.c:284-368 | `getfirst` holds exactly the characters a word can begin with, or what follows the empty word, and its flag says exactly whether the empty word is one; for patterns without predicates on the next character |
| `LpegAccept.CheckIff` | skynet/3rd/lpeg/lpcode.c:181-234 | `nullable` and `nofail` say exactly what the pattern does on the empty subject once loops and predicates are replaced by what they stand for |
| `LpegTree.ToCharset` | skynet/3rd/lpeg/lpcode.c:107-131 | the set of a one-character pattern decides its match |
| `LpegTree.PegStable` | skynet/3rd/lpeg/lpvm.c:149-294 | the meaning of a pattern does not depend on the amount of recursion allowed to compute it |
| `LpegTree.MatchesUnique` | skynet/3rd/lpeg/lpvm.c:149-294 | a pattern has at most one answer at a position |
| `LpegVm.YieldsUnique` | skynet/3rd/lpeg/lpvm.c:149-294 | the interpreter gives at most one answer |
| `LpegCharset.ClassifySet` | skynet/3rd/lpeg/lpcode.c:41-82 | the loop of `charsettype` over 32 bytes classifies every set rightly: empty, one character and which, full, or none of these; its assertion holds |
| `LpegCharset.OneBit` | skynet/3rd/lpeg/lpcode.c:69-76 | the bisection finds the bit of a byte with one bit, and `b & (b - 1)` tells such bytes |
| `LpegCorrect.CorrectCallsSpec` | skynet/3rd/lpeg/lpcode.c:844-866 | `correctcalls` changes only open calls, and turns each into a call of its rule, or into a jump when what follows leads to a return |
| `LpegCalls.GrammarCallsLocal` | skynet/3rd/lpeg/lpcode.c:844-866 | following jumps through all the code generated so far closes the calls of a grammar as following them in its own code does |
| `LpegCalls.WholeLeads` | skynet/3rd/lpeg/lpcode.c:641-645 | a chain of jumps in the rules of a grammar stays there, and leads to a return in the whole code exactly when it does in the grammar's |
| `LpegCorrect.GrammarEnv` | skynet/3rd/lpeg/lpcode.c:868-885 | after `codegrammar` every rule's code is at the address its calls use |
| `LpegCorrect.Sim` | skynet/3rd/lpeg/lpcode.c:561-944 | contextual correctness of `codegen` for every tree: whatever the continuation does after the answer of the pattern is what the machine does from the start of the code, given the follow set, the dominating test and the reusable choice entry |
| `LpegCorrect.SimChoice` | skynet/3rd/lpeg/lpcode.c:665-718 | the four forms of `codechoice` (test only, partial commit, choice with or without test) do what the ordered choice means |
| `LpegCorrect.SimRep` | skynet/3rd/lpeg/lpcode.c:777-815 | the forms of `coderep` (span, test loop, partial commit loop) do what the repetition means |
| `LpegCorrect.SimNot` | skynet/3rd/lpeg/lpcode.c:823-842 | `codenot`, with and without its head-fail form |
| `LpegCorrect.SimAnd` | skynet/3rd/lpeg/lpcode.c:720-742 | `codeand`, by moving back or by back commit |
| `LpegCorrect.SimSeq` | skynet/3rd/lpeg/lpcode.c:899-944 | `codeseq1`: the follow set and the dominating test handed on are right |
| `LpegCorrect.CompileCorrect` | skynet/3rd/lpeg/lpcode.c:561-944 | for every closed pattern, subject and start position, the compiled code answers what the pattern means: the end position, or failure exactly when the pattern fails; grammars and tail calls included |
| `LpegCompile.CompileState.Codegen` | skynet/3rd/lpeg/lpcode.c:919-944 | appending and patching code in place writes exactly the code `Gen` describes |
| `LpegCompile.CompileState.EmitChoice` | skynet/3rd/lpeg/lpcode.c:677-718 | `codechoice` in place |
| `LpegCompile.CompileState.EmitRep` | skynet/3rd/lpeg/lpcode.c:777-815 | `coderep` in place |
| `LpegCompile.CompileState.EmitNot` | skynet/3rd/lpeg/lpcode.c:823-838 | `codenot` in place |
| `LpegCompile.CompileState.EmitAnd` | skynet/3rd/lpeg/lpcode.c:720-738 | `codeand` in place |
| `LpegCompile.CompileState.EmitBehind` | skynet/3rd/lpeg/lpcode.c:659-663 | `codebehind` in place |
| `LpegCompile.CompileState.EmitSeq` | skynet/3rd/lpeg/lpcode.c:899-911 | `codeseq1` and the second child in place |
| `LpegCompile.CompileState.EmitTest` | skynet/3rd/lpeg/lpcode.c:614-635 | `codetestset` in place, its offset still open |
| `LpegCompile.CompileState.EmitCharset` | skynet/3rd/lpeg/lpcode.c:588-606 | `codecharset` in place, using the dominating test |
| `LpegCompile.CompileState.EmitChar` | skynet/3rd/lpeg/lpcode.c:561-567 | `codechar` in place, using the dominating test |
| `LpegCompile.CompileState.JumpToThere` | skynet/3rd/lpeg/lpcode.c:543-546 | only the offset of the instruction changes |
| `LpegCompile.CompileState.EmitGrammar` | skynet/3rd/lpeg/lpcode.c:868-885 | `codegrammar` in place |
| `LpegCompile.CompileState.CloseCalls` | skynet/3rd/lpeg/lpcode.c:844-866 | the loop of `correctcalls` computes the specified code |
| `LpegJumps.StartEnds` | skynet/3rd/lpeg/lptree.c:1002-1040 | the chain of jumps from the start of a pattern's code passes only calls `verifyrule` follows, so it ends |
| `LpegJumps.SlotsEnd` | skynet/3rd/lpeg/lpcode.c:641-653 | from every slot of generated code the chain of jumps ends |
| `LpegJumps.CompiledJumpsEnd` | skynet/3rd/lpeg/lpcode.c:641-653 | in the code of every accepted pattern every chain of jumps ends |
| `LpegJumps.ShortChain` | skynet/3rd/lpeg/lpcode.c:641-653 | a chain that ends does so within as many jumps as the code has slots |
| `LpegJumps.FindFinalTarget` | skynet/3rd/lpeg/lpcode.c:641-645 | the loop of `finaltarget` terminates and stops at an instruction that is no jump |
| `LpegPeephole.ThreadedAnswers` | skynet/3rd/lpeg/lpcode.c:956-995 | one rewrite of `peephole` keeps the answers of a program, from every state |
| `LpegThread.GenTidy` | skynet/3rd/lpeg/lpcode.c:919-944 | labels of generated code stay inside the code of the tree or point just behind it, and jumps take two slots |
| `LpegOptimize.CompiledThreadable` | skynet/3rd/lpeg/lpcode.c:956-995 | compiled code meets what `peephole` needs |
| `LpegOptimize.ThreadJump` | skynet/3rd/lpeg/lpcode.c:970-992 | a jump becomes the instruction it leads to, or goes straight to it; all answers are kept, nothing else changes, and the slot is settled |
| `LpegOptimize.ThreadLabel` | skynet/3rd/lpeg/lpcode.c:962-968 | a label becomes its final destination; all answers are kept, nothing else changes, and the slot is settled |
| `LpegOptimize.Peephole` | skynet/3rd/lpeg/lpcode.c:956-995 | the whole pass, in place, terminates and keeps every answer from every state; afterwards no instruction's label is that of a jump, and no jump is left to an instruction that could stand in its place |
| `LpegMatch.Backtrack` | skynet/3rd/lpeg/lpvm.c:276-293 | the `fail` label: pending calls are dropped, the last choice resumed |
| `LpegMatch.Match` | skynet/3rd/lpeg/lpvm.c:149-294 | the interpreter loop over position and backtrack stack returns the answer of the machine; its assertions hold |
| `LpegMatch.Look` | skynet/3rd/lpeg/lpvm.c:185-236 | the instructions that leave the stack alone |
| `LpegMatch.Stacked` | skynet/3rd/lpeg/lpvm.c:180-280 | the instructions that push or pop; the assertions about the stack hold |
| `LpegMatch.CompilePattern` | skynet/3rd/lpeg/lpcode.c:1001-1011 | `compile`: generated and threaded code answers what the generated code answers |
| `LpegMatch.PatternMatch` | skynet/3rd/lpeg/lptree.c:1102-1109 | the whole way, from a pattern through rotation, code generation, jump threading and the interpreter: the answer is what the pattern means, for every subject and position |
| `LpegGrammar.VerdictSound` | skynet/3rd/lpeg/lptree.c:1002-1040 | when `verifyrule` says that nothing can be matched without input, that is so; when it accepts at all is `RejectedIff` |
| `LpegGrammar.Terminates` | skynet/3rd/lpeg/lptree.c:1002-1069 | every pattern that `verifyrule` and `checkloops` accept, within what they handle, has an answer on every subject; which they accept is `RejectedIff` and `LoopsIff` |
| `LpegAccept.RejectedFor` | skynet/3rd/lpeg/lptree.c:1002-1040 | `verifyrule` answers left recursion only if there is a chain of more than `n` calls, each made before input is consumed, or a call of a rule that is not there |
| `LpegAccept.RejectedIff` | skynet/3rd/lpeg/lptree.c:1002-1040 | ... and exactly then, for trees in which it keeps its accumulator: leftmost calls and chains of them are defined without `verifyrule` |
| `LpegAccept.LegalPasses` | skynet/3rd/lpeg/lptree.c:1002-1058 | a grammar of at most `MAXRULES` rules in which no rule reaches itself by leftmost calls is accepted, every rule of it |
| `LpegAccept.LoopsIff` | skynet/3rd/lpeg/lptree.c:952-975 | `checkloops` rejects exactly the trees in which a repetition with a nullable body occurs |
| `LpegGrammar.WellFormedAnswers` | skynet/3rd/lpeg/lptree.c:1045-1069 | a well-formed pattern has exactly one answer at every position of every subject |
| `LpegGrammar.MissedLoopPasses` | skynet/3rd/lpeg/lptree.c:1002-1040 | a left-recursive grammar that `verifyrule` accepts, because a sub-grammar resets its accumulator |
| `LpegGrammar.MissedLoopDiverges` | skynet/3rd/lpeg/lptree.c:1002-1040 | ... and which has no answer on any subject |
| `LpegGrammar.MissedBehindPasses` | skynet/3rd/lpeg/lptree.c:1002-1040 | a left-recursive grammar that `verifyrule` accepts, because it does not look into look-behinds |
| `LpegGrammar.MissedBehindDiverges` | skynet/3rd/lpeg/lptree.c:1002-1040 | ... and which has no answer on any subject |
| `LpegSettle.CheckSettles` | skynet/3rd/lpeg/lpcode.c:196-234 | on accepted patterns `checkaux` follows calls only where `verifyrule` has, so it comes to an end: its answer no longer depends on the depth allowed |
| `LpegSettle.FirstSettles` | skynet/3rd/lpeg/lpcode.c:294-368 | the same for `getfirst`, for every follow set |
| `LpegSettle.HeadFailSettles` | skynet/3rd/lpeg/lpcode.c:377-399 | the same for `headfail`, which asks `nofail` about trees off that way |
| `LpegSettle.CheckEnds` | skynet/3rd/lpeg/lpcode.c:196-234 | on accepted patterns the recursion of `checkaux` ends |
| `LpegSettle.FirstEnds` | skynet/3rd/lpeg/lpcode.c:294-368 | on accepted patterns the recursion of `getfirst` ends, also where it looks into predicates and look-behinds |
| `LpegSettle.SitesExact` | skynet/3rd/lpeg/lpcode.c:133-146 | with enough depth `fixedlen` gives what it gives by marking single calls while it follows them, on every tree |
| `LpegSettle.AnalysesSettle` | skynet/3rd/lpeg/lpcode.c:196-399 | all analyses of a tree settle at a depth computed from its size |
| `LpegSettle.CompileSettles` | skynet/3rd/lpeg/lpcode.c:919-1011 | the code of every pattern with accepted grammars is the same for every depth that is enough for its size |
| `LpegRewrite.MkSeqMeaning` | skynet/3rd/lpeg/lptree.c:532-543 | the simplifications of `lp_seq` leave the meaning of the sequence unchanged |
| `LpegRewrite.MkChoiceMeaning` | skynet/3rd/lpeg/lptree.c:551-566 | the simplifications of `lp_choice` leave the meaning of the choice unchanged |
| `LpegRewrite.MkSubMeaning` | skynet/3rd/lpeg/lptree.c:627-646 | `lp_sub` matches the first pattern where the second does not match, also in its character set form |
| `LpegRewrite.AtLeastMeaning` | skynet/3rd/lpeg/lptree.c:572-590 | `p^n` matches the greedy chains of at least n matches, and fails for shorter ones |
| `LpegRewrite.AtLeastChain` | skynet/3rd/lpeg/lptree.c:572-590 | every answer of `p^n` comes from such a chain |
| `LpegRewrite.AtMostMeaning` | skynet/3rd/lpeg/lptree.c:591-602 | `p^-n` matches the greedy chains of at most n matches |
| `LpegRewrite.AtMostChain` | skynet/3rd/lpeg/lptree.c:591-602 | every answer of `p^-n` comes from such a chain; it never fails |
| `LpegRewrite.Rotate` | skynet/3rd/lpeg/lptree.c:78-90 | `correctassociativity` ends with a first child of another kind and keeps the size |
| `LpegRewrite.RotateMeaning` | skynet/3rd/lpeg/lptree.c:78-90 | right rotation leaves the meaning unchanged |
| `LpegRewrite.FinalFixMeaning` | skynet/3rd/lpeg/lptree.c:100-128 | `finalfix` on a pattern and its rules leaves exactly the same answers |
| `LuaGc.ReallyMark` | skynet/3rd/lua/lgc.c:236-284 | marking turns white objects gray or black and nothing else, and makes the object and at least one less white |
| `LuaGc.PropagateMark` | skynet/3rd/lua/lgc.c:530-568 | each traversal marks an object or shortens the gray list |
| `LuaGcSafe.MarkSpec` | skynet/3rd/lua/lgc.c:236-284 | marking keeps the tri-colour invariant and marks only what is reachable from the object |
| `LuaGcSafe.PropagateSpec` | skynet/3rd/lua/lgc.c:530-568 | a traversed object is done: black with marked references, or a thread waiting in `grayagain` |
| `LuaGcSafe.AtomicSpec` | skynet/3rd/lua/lgc.c:992-1035 | after `atomic` everything marked holds only marked objects, the roots are marked, and only reachable objects were marked |
| `LuaGcSafe.SweepSpec` | skynet/3rd/lua/lgc.c:745-762 | `sweeplist` frees only dead objects and leaves the others as they were, the swept part white |
| `LuaGcSafe.ReachAlive` | skynet/3rd/lua/lgc.c:745-762 | everything reachable is in the heap and not dead, in every phase |
| `LuaGcRun.StepSafe` | skynet/3rd/lua/lgc.c:1053-1107 | every `singlestep` keeps the invariant of its phase and frees nothing reachable |
| `LuaGcRun.NewInv` | skynet/3rd/lua/lgc.c:205-217 | `luaC_newobj` keeps the invariant in every phase, also while sweeping |
| `LuaGcRun.BarrierInv` | skynet/3rd/lua/lgc.c:155-166 | the forward barrier restores the invariant in every phase; it is needed only while marking or sweeping |
| `LuaGcRun.BarrierBackInv` | skynet/3rd/lua/lgc.c:173-179 | the backward barrier restores the invariant in every phase |
| `LuaGcMutator.StoreHolds` | skynet/3rd/lua/lgc.c:155-179 | in any state of the collector a stored reference is in its place and all others are where they were, both objects are reachable afterwards, and neither is dead |
| `LuaGcMutator.NewHolds` | skynet/3rd/lua/lgc.c:205-217 | a new object is in the current white, on the list of all objects, and reachable; nothing that was reachable is lost by making it |
| `LuaGcMutator.EraseHolds` | skynet/3rd/lua/lgc.c:155-179 | erasing takes exactly one reference away and leaves the object reachable |
| `LuaGcMutator.BarrierResolves` | skynet/3rd/lua/lgc.c:155-179 | either barrier leaves no black object with the white one it was given, in every phase, and does nothing where there is no such pair |
| `LuaGcRun.ApplySafe` | skynet/3rd/lua/lgc.c:155-217 | whatever the program or the collector does next, the invariant holds and the collector frees nothing reachable |
| `LuaGcRun.RunSafe` | skynet/3rd/lua/lgc.h:14-24 | in every state of every interleaving: while marking no black object points to a white one and every gray one is listed once; every reachable object exists; no step freed a reachable one |
| `LuaGcRun.RunToPause` | skynet/3rd/lua/lgc.c:1114-1118 | `luaC_runtilstate` reaches the pause |
| `LuaGcRun.FullGcExact` | skynet/3rd/lua/lgc.c:1169-1187 | a full collection, started in any phase, leaves exactly the reachable objects, as they were |
| `LuaGcRun.InitInv` | skynet/3rd/lua/lgc.c:335-342 | a new universe satisfies the invariant |
| `LuaGcMachine.GlobalState.ReallyMarkObject` | skynet/3rd/lua/lgc.c:236-284 | the loop with its re-entry computes the specified marking |
| `LuaGcMachine.GlobalState.PropagateOne` | skynet/3rd/lua/lgc.c:530-568 | `propagatemark` in place |
| `LuaGcMachine.GlobalState.PropagateAllGray` | skynet/3rd/lua/lgc.c:571-573 | `propagateall` in place: every object in the list is gray, and the list ends empty |
| `LuaGcMachine.GlobalState.AtomicPhase` | skynet/3rd/lua/lgc.c:992-1035 | `atomic` in place |
| `LuaGcMachine.GlobalState.SweepFrom` | skynet/3rd/lua/lgc.c:745-762 | the loop of `sweeplist` in place |
| `LuaGcMachine.GlobalState.Single` | skynet/3rd/lua/lgc.c:1053-1107 | `singlestep` in place keeps the invariant and frees nothing reachable |
| `LuaGcMachine.GlobalState.FullCollection` | skynet/3rd/lua/lgc.c:1169-1187 | `luaC_fullgc` in place: the heap then holds exactly what was reachable |
| `LuaGcMachine.GlobalState.StoreRef` | skynet/3rd/lua/lgc.c:155-179 | a store with its barrier keeps the invariant |
| `LuaGcMachine.GlobalState.NewObject` | skynet/3rd/lua/lgc.c:205-217 | allocation keeps the invariant |
| `TimerWheel.PlaceStays` | skynet/skynet-src/skynet_timer.c:118-138 | moving the clock leaves every pending node where `add_node` would put it, unless it is in the one list that is moved; across the wrap-around |
| `TimerWheel.DueSlot` | skynet/skynet-src/skynet_timer.c:160-164 | the near list of the clock is the place of exactly the nodes due now |
| `TimerWheel.RunFires` | skynet/skynet-src/skynet_timer.c:74-185 | in every run of adding, taking and ticking: whatever is due before the clock has fired once, at its deadline, and firings are ordered by deadline and insertion |
| `TimerWheel.RunDelay` | skynet/skynet-src/skynet_timer.c:95-185 | in every run: the timer that a step adds with delay d is fired at no other clock than d ticks after that step, at most once, not before, and has been fired once the clock has passed that tick |
| `TimerWheel.ClockCounts` | skynet/skynet-src/skynet_timer.c:118-143 | the clock is the number of its moves |
| `TimerWheel.AddInv` | skynet/skynet-src/skynet_timer.c:95-106 | adding a timer keeps the queue's invariant; what deadline it gets is in `RunDelay` and `TimerAdd` |
| `TimerWheel.TakeInv` | skynet/skynet-src/skynet_timer.c:159-170 | taking the due timers keeps the queue's invariant |
| `TimerMachine.MoveArranged` | skynet/skynet-src/skynet_timer.c:108-116 | linking one list again restores the arrangement for the new time |
| `TimerMachine.DueList` | skynet/skynet-src/skynet_timer.c:159-170 | the near list holds exactly the due timers in insertion order |
| `TimerMachine.FindMoved` | skynet/skynet-src/skynet_timer.c:118-138 | the loop of `timer_shift` finds the list to move |
| `TimerMachine.Timer.AddNode` | skynet/skynet-src/skynet_timer.c:74-93 | the node is linked at the end of the list of its place |
| `TimerMachine.Timer.TimerAdd` | skynet/skynet-src/skynet_timer.c:95-106 | `timer_add` refines adding to the queue, records the deadline clock plus delay, and keeps the placement invariant |
| `TimerMachine.Timer.MoveList` | skynet/skynet-src/skynet_timer.c:108-116 | `move_list` adds every node of the list again, in order |
| `TimerMachine.Timer.TimerShift` | skynet/skynet-src/skynet_timer.c:118-138 | `timer_shift` refines a tick and keeps the placement invariant |
| `TimerMachine.Timer.TakeDueList` | skynet/skynet-src/skynet_timer.c:159-164 | the list handed to dispatch is that of the due timers in insertion order |
| `TimerMachine.Timer.TimerExecute` | skynet/skynet-src/skynet_timer.c:159-170 | `timer_execute` takes what is due, once, whatever timers other threads add while the lock is released |
| `TimerMachine.Timer.TimerUpdate` | skynet/skynet-src/skynet_timer.c:172-186 | `timer_update` fires what is due, in order, and nothing else, whatever timers other threads add meanwhile |
| `Scheduler.GoInv` | skynet/skynet-src/skynet_server.c:296-351 | every critical section of every activity keeps the invariant |
| `Scheduler.EnvInv` | skynet/skynet-src/skynet_server.c:229-239 | sends, kills and creations may start at any time |
| `Scheduler.RunKeeps` | skynet/skynet-src/skynet_server.c:125-351 | in every state of every interleaving of any number of threads: references are counted, each queue is in the global list once or held once or idle, accepted messages are dispatched or dropped in order or wait; which of the two happened is in `DroppedReleased` and `TakenDispatched` |
| `SchedulerFates.SentAccepted` | skynet/skynet-src/skynet_server.c:296-351 | in every run the messages accepted by a queue are those sent to it, but for senders that are about to push |
| `SchedulerFates.DroppedReleased` | skynet/skynet-src/skynet_mq.c:187-209 | in every state of every run a message has been dropped only from a queue marked for release |
| `SchedulerFates.TakenDispatched` | skynet/skynet-src/skynet_server.c:325-345 | a step that shortens the queue of a service not marked for release grows its log by the oldest message, dispatched |
| `SchedulerFates.HolderMoves` | skynet/skynet-src/skynet_server.c:296-351 | whoever holds the queue of a serving service that has messages gets on with it: the next step dispatches one, lists the queue, or comes nearer to doing so |
| `SchedulerFates.NeverStranded` | skynet/skynet-src/skynet_server.c:296-351 | from every state of every run, some schedule dispatches the oldest waiting message of a serving service next |
| `Scheduler.Ownership` | skynet/skynet-src/skynet_mq.c:43-75 | a live queue is once in the global list, or held by one thread, or idle; an idle queue is empty with `in_global` cleared |
| `Scheduler.DispatchSafe` | skynet/skynet-src/skynet_server.c:296-333 | a thread that dispatches a service is the only one to hold its queue, and the context is alive and initialised |
| `Scheduler.FreedOnce` | skynet/skynet-src/skynet_mq.c:229-250 | a queue is freed by the step that finds it empty, unlinked, unheld, with no reference left, and never touched again |
| `Scheduler.HistoryGrows` | skynet/skynet-src/skynet_mq.c:137-209 | messages are only ever accepted at the end and processed from the front |
| `Scheduler.PushingInv` | skynet/skynet-src/skynet_mq.c:188-209 | `skynet_mq_push` links an idle queue |
| `Scheduler.RunInv` | skynet/skynet-src/skynet_mq.c:137-171 | a worker's `skynet_mq_pop` takes the oldest message, or gives the queue up when it is empty, and the invariant holds |
| `Scheduler.DeleteInv` | skynet/skynet-src/skynet_mq.c:219-227 | `skynet_mq_mark_release` after the last reference |
| `Scheduler.DropInv` | skynet/skynet-src/skynet_mq.c:239-250 | `skynet_mq_release` on a queue without context |
| `Scheduler.UnrefInv` | skynet/skynet-src/skynet_server.c:220-227 | `skynet_context_release`: the last reference deletes, once |
| `Scheduler.InitInv` | skynet/skynet-src/skynet_server.c:160-164 | `skynet_context_new` after the init function, in both outcomes |
| `Scheduler.ReleasedInv` | skynet/skynet-src/skynet_server.c:165-168 | setting `init` after the reference has been given up |
| `Scheduler.UnreferencedIff` | skynet/skynet-src/skynet_server.c:160-173 | every step that touches a context does so with a reference or as the one that deletes it, except that the creator touches it later; then there is no reference exactly when the handle was retired and nobody else holds one |
| `Scheduler.InitAfterFree` | skynet/skynet-src/skynet_server.c:164-167 | a run in which `init` is written after the context was deleted |
| `Scheduler.FailRetireInv` | skynet/skynet-src/skynet_server.c:173-180 | retiring the handle after a failed init |
| `MessageQueue.Queue.Push` | skynet/skynet-src/skynet_mq.c:188-209 | the ring buffer appends; the result tells when the queue goes to the global list |
| `MessageQueue.Queue.Pop` | skynet/skynet-src/skynet_mq.c:137-171 | the ring buffer gives its oldest message; an empty one clears `in_global` |
| `MessageQueue.Queue.ExpandQueue` | skynet/skynet-src/skynet_mq.c:173-186 | a full ring is copied in order into one of twice the size |
| `MessageQueue.Queue.Length` | skynet/skynet-src/skynet_mq.c:110-125 | the number of messages |
| `MessageQueue.Queue.MarkRelease` | skynet/skynet-src/skynet_mq.c:219-227 | sets the flag and keeps the messages |
| `MessageQueue.PushRing` | skynet/skynet-src/skynet_mq.c:188-200 | where a pushed message is in the ring |
| `MessageQueue.PopRing` | skynet/skynet-src/skynet_mq.c:141-150 | where the oldest message is in the ring |
| `RwLock.StepInv` | skynet/skynet-src/rwlock.h:17-48 | every atomic access keeps the count of `read` and the exclusion |
| `RwLock.Exclusion` | skynet/skynet-src/rwlock.h:11-48 | in every run of any number of threads a writer in its section excludes all others, and `read` counts the threads between increment and decrement |
| `RwLock.Refines` | skynet/skynet-src/rwlock.h:17-48 | every atomic access is a legal move of an abstract read/write lock; once `write` is set no further reader gets in |
| `RwLock.CanFinish` | skynet/skynet-src/rwlock.h:17-48 | from every state there is a schedule by which all threads get through their sections and the lock is free: no deadlock, nothing left set |
| `RwLock.FreeEnters` | skynet/skynet-src/rwlock.h:17-38 | a reader or writer that finds the lock free gets in by its own steps alone |
| `TcpSend.SendListKeeps` | skynet/skynet-src/socket_server.c:544-574 | whatever `write` returns, the wire grows by whole packets and a prefix, `wb_size` follows, and no packet is lost or reordered within the list |
| `TcpSend.AppendInv` | skynet/skynet-src/socket_server.c:799-858 | queueing a packet keeps the invariant; in which place of the line it is queued is in `StepFollows` |
| `TcpSend.CheckInv` | skynet/skynet-src/socket_server.c:1460-1486 | the check before a direct write keeps the invariant |
| `TcpSend.DirectWriteInv` | skynet/skynet-src/socket_server.c:1477-1510 | a direct write of any count keeps the invariant |
| `TcpSend.FlushInv` | skynet/skynet-src/socket_server.c:683-748 | `send_buffer` keeps the invariant whatever `write` answers, and only adds to the wire |
| `TcpSend.RaiseInv` | skynet/skynet-src/socket_server.c:654-668 | `raise_uncomplete` moves the begun low packet to the empty high list |
| `TcpSend.AssertFailsIff` | skynet/skynet-src/socket_server.c:683-704 | the assertion of step 4 fails exactly when the high list went out and the low list then stopped between two packets |
| `TcpSend.AssertReachableIff` | skynet/skynet-src/socket_server.c:683-704 | some behaviour of `write` reaches the failing assertion exactly when the low list is not empty |
| `TcpSend.AssertCanFail` | skynet/skynet-src/socket_server.c:703-703 | a run that reaches the assertion with the list not empty: a low packet queued while connecting, then a blocked write |
| `TcpStall.AssertStalls` | skynet/skynet-src/socket_server.c:701-709 | compiled without assertions, the failing assertion leaves the socket stalled, its write event off and packets waiting; a half-closed one is closed and loses them |
| `TcpStall.StalledForever` | skynet/skynet-src/socket_server.c:821-850 | until it is closed, a stalled socket sends nothing, whatever is queued |
| `TcpStall.WatchInv` | skynet/skynet-src/socket_server.c:683-721 | without assertions too every step keeps the invariant of the send path |
| `TcpSend.RunIntegrity` | skynet/skynet-src/socket_server.c:544-858 | however direct writes and the socket thread interleave: the wire carries whole packets and a prefix of at most one, no low packet is begun, `wb_size` is what both lists have left, every packet is accounted for once |
| `TcpOrder.StepOrdered` | skynet/skynet-src/socket_server.c:544-858 | every operation keeps the order within each priority, and loses nothing in between while the socket is open |
| `TcpOrder.RunOrdered` | skynet/skynet-src/socket_server.c:544-858 | in every run the packets written are an interleaving of the first packets of high priority and the first of low priority, each in the order of acceptance; how the two go together is in `RunFollows` |
| `TcpOrder.OnePriority` | skynet/skynet-src/socket_server.c:1460-1521 | without low-priority packets, directly written and queued packets go out exactly in the order of acceptance |
| `TcpPriority.StepFollows` | skynet/skynet-src/socket_server.c:544-858 | a plan of the wire is kept from the send requests alone: an urgent packet goes before all low ones that wait, a low one to the end; every step of the socket follows it |
| `TcpPriority.RunFollows` | skynet/skynet-src/socket_server.c:544-858 | in every run, whatever `write` returns, the wire carries the beginning of the plan, and while the socket is open nothing of the plan is missing and no urgent packet waits behind a low one |
| `TcpPriority.LowBegins` | skynet/skynet-src/socket_server.c:684-726 | when a step begins a low packet that was queued behind others or before the connection, every urgent packet accepted by then is completely on the wire |
| `TcpPriority.AllSent` | skynet/skynet-src/socket_server.c:684-726 | when `write` takes everything, one pass of `send_buffer` puts the whole line on the wire, in order, and closes a half-closed socket |
| `TcpSend.SendListTcp` | skynet/skynet-src/socket_server.c:545-574 | the loop of `send_list_tcp` computes the specified result |
| `TcpSend.Socket.SendSocket` | skynet/skynet-src/socket_server.c:800-845 | `send_socket` in place: the packet is queued as `Append` says, whose place in the line is in `StepFollows` |
| `TcpSend.Socket.TrySend` | skynet/skynet-src/socket_server.c:723-748 | `send_buffer` in place |
| `TcpSend.Socket.WriteDirect` | skynet/skynet-src/socket_server.c:1480-1509 | the direct write in place |
| `TcpSend.Socket.Perform` | skynet/skynet-src/socket_server.c:544-858 | every operation keeps the invariant |
| `LuaSeri.IntRoundTrip` | skynet/lualib-src/lua-seri.c:142-183 | an integer of any width is read back from what is written for it |
| `LuaSeri.StrRoundTrip` | skynet/lualib-src/lua-seri.c:190-213 | a string of any length is read back |
| `LuaSeri.RoundTrip` | skynet/lualib-src/lua-seri.c:296-340 | whenever packing a value succeeds, unpacking gives it back and leaves what follows; all types, nested tables |
| `LuaSeri.SeqRoundTrip` | skynet/lualib-src/lua-seri.c:342-349 | a packed sequence of values is unpacked to the same sequence |
| `LuaSeriShortest.PackShortest` | skynet/lualib-src/lua-seri.c:142-332 | of all streams that read as a value, nested tables included, none is shorter than the one written for it |
| `LuaSeriShortest.IntShortest` | skynet/lualib-src/lua-seri.c:142-183 | what reads as an integer is at least as long as what is written for it, and as long only if it is the same bytes |
| `LuaSeriShortest.StrShortest` | skynet/lualib-src/lua-seri.c:190-213 | the same for strings |
| `LuaSeriShortest.HighLast` | skynet/lualib-src/lua-seri.c:142-176 | the bytes of a number are weighted from the first to the last, as a little-endian host writes them |
| `LuaSeri.PackIff` | skynet/lualib-src/lua-seri.c:296-340 | packing raises an error exactly for unsupported values and tables nested deeper than `MAX_DEPTH` allows |
| `LuaSeri.LongStringIff` | skynet/lualib-src/lua-seri.c:489-511 | of the streams that announce a string with four bytes of length, those are accepted whose length is below 2^31 and there |
| `LuaSeriBlocks.WriteBlock.Push` | skynet/lualib-src/lua-seri.c:65-85 | `wb_push` across block boundaries appends the bytes |
| `LuaSeriBlocks.WriteBlock.Seri` | skynet/lualib-src/lua-seri.c:534-553 | the flattened chain is the concatenation of all pushes |
| `LuaSeriBlocks.PackOne` | skynet/lualib-src/lua-seri.c:296-340 | `pack_one` writes the specified bytes or raises the error |
| `LuaSeriBlocks.WriteTable` | skynet/lualib-src/lua-seri.c:228-294 | the array and hash loops write the specified bytes |
| `LuaSeriBlocks.HashKeys` | skynet/lualib-src/lua-seri.c:239-257 | the loop of `wb_table_hash` skips exactly the integer keys of the array part |
| `LuaSeriBlocks.WriteEntries` | skynet/lualib-src/lua-seri.c:282-294 | `wb_table` writes the table cut in two, as specified |
| `LuaSeriBlocks.SplitExact` | skynet/lualib-src/lua-seri.c:217-257 | the two parts together have exactly the entries of the table, whatever its length |
| `LuaSeriBlocks.PackValues` | skynet/lualib-src/lua-seri.c:342-349 | the buffer made from a sequence of values unpacks to it |
| `LuaSeriBlocks.ReadBlock.RbRead` | skynet/lualib-src/lua-seri.c:119-129 | the cursor hands out the next bytes or nothing; a negative size moves it back |
| `LuaSeriBlocks.ReadBuffer` | skynet/lualib-src/lua-seri.c:423-430 | `get_buffer` reads what is specified, and fails for a negative length |
| `LuaSeriBlocks.ReadInt` | skynet/lualib-src/lua-seri.c:359-402 | `get_integer` reads what is specified |
| `LuaSeriBlocks.ReadValue` | skynet/lualib-src/lua-seri.c:523-531 | `unpack_one` reads what is specified |
| `LuaSeriBlocks.ReadTable` | skynet/lualib-src/lua-seri.c:436-466 | the loops of `unpack_table` read what is specified |
| `LuaSeriBlocks.UnpackValues` | skynet/lualib-src/lua-seri.c:555-597 | `luaseri_unpack` reads values until the input ends |
| `Des.FpIp` | skynet/lualib-src/lua-crypt.c:203-226 | the final permutation undoes the initial one |
| `Des.IpFp` | skynet/lualib-src/lua-crypt.c:203-226 | the initial permutation undoes the final one |
| `Des.IpTable` | skynet/lualib-src/lua-crypt.c:203-212 | the initial permutation is the table of FIPS 46-3, all 64 bits, with both halves kept rotated left by one bit |
| `Des.RoundsFeistel` | skynet/lualib-src/lua-crypt.c:229-242 | the rounds compute the recurrence of the standard: each word is the last but one, mixed with the round function of the last |
| `Des.RoundsUndo` | skynet/lualib-src/lua-crypt.c:230-242 | reversed subkeys undo the rounds, for arbitrary round functions |
| `Des.CryptUndo` | skynet/lualib-src/lua-crypt.c:313-337 | decrypting a block with reversed subkeys gives the block back |
| `Des.UnpadZeros` | skynet/lualib-src/lua-crypt.c:421-437 | the padding of a text is removed exactly |
| `Des.UnpadExact` | skynet/lualib-src/lua-crypt.c:421-437 | what is accepted as padding is what padding adds |
| `Des.UnpadOutside` | skynet/lualib-src/lua-crypt.c:423-432 | the loop over the last block, which compares as unsigned numbers, leaves the buffer exactly for a single block of zeros |
| `Des.DesRoundTrip` | skynet/lualib-src/lua-crypt.c:365-438 | for every key of eight bytes and every text decoding undoes encoding |
| `Des.DecodeExact` | skynet/lualib-src/lua-crypt.c:398-438 | decoding accepts only what encoding makes |
| `Des.OutsideIff` | skynet/lualib-src/lua-crypt.c:398-438 | decoding reads before its buffer if and only if the text is one block that decrypts to zeros |
| `Des.OutsideBlock` | skynet/lualib-src/lua-crypt.c:423-432 | for every key there is such a block |
| `Des.DesEncode` | skynet/lualib-src/lua-crypt.c:365-396 | the loops of `ldesencode` write the specified blocks |
| `Des.DesDecode` | skynet/lualib-src/lua-crypt.c:398-438 | the loops of `ldesdecode` compute the specified result, errors included |
| `Des.Unpad` | skynet/lualib-src/lua-crypt.c:421-435 | the loop over the last block computes the specified result |
| `DiffieHellman.MulModP` | skynet/lualib-src/lua-crypt.c:716-735 | `mul_mod_p` is the exact product modulo P although 64-bit arithmetic overflows |
| `DiffieHellman.PowModP` | skynet/lualib-src/lua-crypt.c:737-748 | `pow_mod_p` is the exact power modulo P, except that it returns the base itself for the exponent one |
| `DiffieHellman.PowMod64` | skynet/lualib-src/lua-crypt.c:750-756 | `powmodp` is the power modulo P exactly unless the base is P and the exponent one |
| `DiffieHellman.ExchangeNotZero` | skynet/lualib-src/lua-crypt.c:789-809 | what is exchanged is never zero, so never refused |
| `DiffieHellman.DhExchange` | skynet/lualib-src/lua-crypt.c:789-809 | `ldhexchange` gives 5 to the power x modulo the prime, and an error for zero |
| `DiffieHellman.SecretsAgree` | skynet/lualib-src/lua-crypt.c:774-809 | both sides derive the same secret |
| `DiffieHellman.DhSecret` | skynet/lualib-src/lua-crypt.c:774-787 | `ldhsecret`, its error included |
| `DiffieHellman.Handshake` | skynet/lualib-src/lua-crypt.c:774-809 | for all nonzero 64-bit numbers both ends compute the same power |
| `HandleRegistry.Handles.Register` | skynet/skynet-src/skynet_handle.c:34-67 | the handle is that of the first index, from the current one on, whose slot no live handle has, in a table of twice the size if this one is full; it is not live, and if it was issued before the index has advanced by 2^24; its lower 24 bits are zero exactly when that index is a multiple of 2^24 |
| `HandleRegistry.Handles.Room` | skynet/skynet-src/skynet_handle.c:39-66 | the search, doubling and searching again find the first free index |
| `HandleRegistry.HandleZero` | skynet/skynet-src/skynet_handle.c:39-52 | a run, from a new registry on, in which a context is given handle zero |
| `HandleRegistry.Handles.Double` | skynet/skynet-src/skynet_handle.c:54-65 | the doubling rehash never collides and leaves room |
| `HandleRegistry.RehashStep` | skynet/skynet-src/skynet_handle.c:57-61 | the new slot of every context is free |
| `HandleRegistry.Handles.FindFree` | skynet/skynet-src/skynet_handle.c:41-53 | the search finds the first free slot in its order, and looks at every slot before it gives up |
| `HandleRegistry.Handles.TakeSlot` | skynet/skynet-src/skynet_handle.c:44-51 | which handle and next index the slot gives |
| `HandleRegistry.Handles.Retire` | skynet/skynet-src/skynet_handle.c:76-81 | the slot of exactly the live handle is freed |
| `HandleRegistry.Handles.Grab` | skynet/skynet-src/skynet_handle.c:132-149 | grab agrees with the map of registered and not retired handles |
| `HandleNames.NameTable.Search` | skynet/skynet-src/skynet_handle.c:159-173 | bisection finds the name, or where it belongs |
| `HandleNames.NameTable.FindName` | skynet/skynet-src/skynet_handle.c:151-178 | `skynet_handle_findname` looks up the map, zero when absent |
| `HandleNames.NameTable.InsertBefore` | skynet/skynet-src/skynet_handle.c:180-204 | the entry is inserted at its place, with or without growing |
| `HandleNames.NameTable.NameHandle` | skynet/skynet-src/skynet_handle.c:206-240 | names stay strictly sorted and refine the map; a taken name is refused |
| `HandleNames.NameTable.Forget` | skynet/skynet-src/skynet_handle.c:82-93 | retiring removes exactly the names of the handle, order kept |
| `HandleStorage.Storage.Retire` | skynet/skynet-src/skynet_handle.c:69-106 | a live handle is retired together with all its names and nothing else; otherwise nothing changes |
| `HandleStorage.Storage.NameHandle` | skynet/skynet-src/skynet_handle.c:206-240 | naming a live handle keeps every name leading to a live handle |
| `HandleStorage.Storage.Register` | skynet/skynet-src/skynet_handle.c:34-67 | registering leaves the names alone |
| `HandleStorage.Storage.GrabByName` | skynet/skynet-src/skynet_handle.c:132-178 | a name finds the context of its handle |
| `SharedTable.CountKeys` | skynet/lualib-src/lua-sharedata.c:67-89 | the loop of `countsize` counts the keys outside the array part by their full width, and raises an error for keys of other types |
| `SharedTable.CountPairs` | skynet/lualib-src/lua-sharedata.c:67-209 | as many slots are counted as `ishashkey` takes keys for the hash part exactly when no key outside the array part is cut to one inside |
| `SharedTable.SlotLeft` | skynet/lualib-src/lua-sharedata.c:250-260 | a key that needs a slot finds one, for every source table: the assertion of `fillcolliding` holds |
| `SharedTable.PassesFill` | skynet/lualib-src/lua-sharedata.c:212-273 | the two passes use at most one slot for each entry; distinct keys, as many as slots, use every slot exactly once, in chains that are acyclic and complete, for every hash function |
| `SharedTable.FillNoColliding` | skynet/lualib-src/lua-sharedata.c:212-235 | the loop of the first pass, array part included |
| `SharedTable.FillColliding` | skynet/lualib-src/lua-sharedata.c:237-273 | the loop of the second pass, with its assertion |
| `SharedTable.ConvTable` | skynet/lualib-src/lua-sharedata.c:276-324 | `convtable`: an error for a key of the wrong type, or both parts as specified, also when there is no hash part |
| `SharedTable.LookupExact` | skynet/lualib-src/lua-sharedata.c:501-530 | the walk along a chain finds exactly the keys in the table |
| `SharedTable.LookupKey` | skynet/lualib-src/lua-sharedata.c:501-530 | the loop of `lookup_key` takes that walk and ends |
| `SharedTable.ServesIff` | skynet/lualib-src/lua-sharedata.c:67-324 | every slot is in use and every source key finds its own value in a place of its own if and only if no key is a table, no two keys outside the array part are cut to the same 32 bits, and none to one inside |
| `SharedTable.IndexExact` | skynet/lualib-src/lua-sharedata.c:532-562 | what such a table answers to any key: a value exactly when some source key is cut to the same one |
| `SharedTable.WideKeys` | skynet/lualib-src/lua-sharedata.c:191-209 | the keys 5 and 2^32 + 5: two slots are counted, one stays unused, and both keys give the first value, for every hash function |
| `SharedTable.IndexConf` | skynet/lualib-src/lua-sharedata.c:532-562 | `lindexconf` in place, with the errors for other keys |
| `SharedTable.NextKey` | skynet/lualib-src/lua-sharedata.c:589-646 | `lnextkey` gives the next key in the order of array and slots |
| `SharedTable.OrderExact` | skynet/lualib-src/lua-sharedata.c:589-646 | that order has every key of the table once and nothing else |
| `SharedTable.VisitsIff` | skynet/lualib-src/lua-sharedata.c:568-646 | going through the table visits the keys of the source, each once and nothing else, if and only if they are strings and 32-bit integers |
| `Framing.FramesCat` | skynet/lualib-src/lua-netpack.c:182-215 | decoding may stop after any byte and go on from the partial packet |
| `Framing.ChunkingFree` | skynet/lualib-src/lua-netpack.c:227-299 | however a stream is cut into chunks, the same packets come out |
| `Framing.PackRoundTrip` | skynet/lualib-src/lua-netpack.c:436-452 | decoding concatenated `lpack` output gives the messages back |
| `Netpack.StreamsKept` | skynet/lualib-src/lua-netpack.c:217-299 | for any interleaving of connections, chunks and closes, the packets of a connection are those of its whole stream from start to close, and nothing left over reaches a later connection |
| `Netpack.Queue.CloseUncomplete` | skynet/lualib-src/lua-netpack.c:217-225 | closing drops exactly the partial packet of the connection |
| `Netpack.Queue.FindUncomplete` | skynet/lualib-src/lua-netpack.c:92-114 | the record of the connection is taken out of its hash chain |
| `Netpack.Queue.SaveUncomplete` | skynet/lualib-src/lua-netpack.c:164-176 | a partial packet is put into its hash chain |
| `Netpack.Queue.PushMore` | skynet/lualib-src/lua-netpack.c:184-215 | `push_more` queues every complete packet and keeps the rest |
| `Netpack.Queue.FilterData` | skynet/lualib-src/lua-netpack.c:227-299 | `filter_data_` refines the stream decoder: nothing, one packet, or packets in the queue |
| `Netpack.PacketRing.Push` | skynet/lualib-src/lua-netpack.c:149-168 | the ring of complete packets appends, growing when it is full |
| `Netpack.PacketRing.ExpandQueue` | skynet/lualib-src/lua-netpack.c:132-147 | a full ring is copied in order into one with 1024 slots more |
| `Netpack.PacketRing.Pop` | skynet/lualib-src/lua-netpack.c:396-410 | `lpop` takes the oldest packet |
| `PackageService.RingQueue.Push` | src/service/package.c:105-135 | the growing ring queue appends |
| `PackageService.RingQueue.Pop` | src/service/package.c:93-103 | the growing ring queue gives its oldest element |
| `PackageService.Package.NewMessage` | src/service/package.c:208-250 | `new_message` queues exactly the frames completed by the chunk and keeps the rest |
| `PackageService.Package.SocketData` | src/service/package.c:308-312 | the packets queued so far are those of the whole stream; then requests are answered |
| `PackageService.Package.CommandRequest` | src/service/package.c:176-191 | a request is recorded, and answered, queued, or refused when closed; the assertion holds |
| `PackageService.Package.SocketClose` | src/service/package.c:293-307 | at close every request has had exactly one reply |
| `PackageService.RespondInv` | src/service/package.c:252-265 | `response` pairs the oldest request with the oldest packet and leaves one queue empty |
| `PackageService.ExitInv` | src/service/package.c:145-161 | `service_exit` refuses the waiting requests |
| `PackageService.Pairing` | src/service/package.c:172-293 | over every run: the queues are never both in use between messages, the k-th request gets the k-th packet, at most one reply each and exactly one once closed |
| `PackageService.NoneLost` | src/service/package.c:172-312 | over every run: the requests recorded are those made and the packets those that came, each request waits in order or has had its reply, and an open service has replied to as many as there were packets for |
| `PackageService.ApplyHistory` | src/service/package.c:172-312 | one message adds to the history what it brings, and nothing else |

## Left out

- LPeg captures, match-time functions and `ICloseRunTime`: they call arbitrary Lua code.
- The limit `MAXBACK` on the backtrack stack, and the limits on rules and pattern sizes other than `MAXRULES` in `verifyrule`.
- The C analyses follow calls without bound, or mark calls while they are open (`fixedlen`).  Here every analysis takes a bound on nested calls and gives the safe answer beyond it; theorems hold for every bound, and `LpegSettle` shows that a large bound is never used up and that marking calls gives the same lengths.
- Terminates: excludes grammars in which a sub-grammar is reached with the accumulator set and look-behinds that call rules, because `verifyrule` is wrong there (counterexamples are given).
- RejectedIff: is about trees in which `verifyrule` keeps its accumulator; elsewhere `RejectedFor` gives one direction.
- FixedLenIff: is about patterns in which every part has a word, no loop is empty and calls are not recursive; on the others `fixedlen` may give no length although all matches have one.
- FirstIff: has the same bounds and leaves out and-predicates and not-predicates on single characters, whose sets `getfirst` only estimates.
- An instruction's operands are kept with its first slot, the other slots hold fillers; addresses and offsets are those of the C code.
- Lua collector: weak tables, ephemerons, finalizers, open upvalues, fixed objects, shared prototypes and the string table; the program stores only what it can reach; `gclist` chains are sequences; the number of objects swept in one step is a parameter.
- Timer: shifts and masks are written as division and remainder; what other threads add while the lock is released is a parameter; a delay of zero or less never reaches the wheels; wall-clock time is not modelled.
- Scheduler: handles are not issued twice (`HandleRegistry` says when they could be); registering and creating the queue is one step; the deletion of a context runs as an activity of its own, which allows more interleavings than the code has.
- Scheduler: message weights only decide how many messages are dispatched in a row, which is left open; overload warnings, the monitor, the harbor, `skynet_context_dispatchall` and sleeping workers.
- The global queue is a sequence, not a linked list; its lock makes each access one step.
- RwLock: memory is sequentially consistent; the pthread branch is not modelled.
- TCP: UDP, user objects, warning sizes; socket types are reduced to connected, half closed and closed; a packet counts as accepted when the socket thread queues it or a direct write starts, so the way through the command pipe is not ordered.
- Serializer: floating-point numbers and pointers are eight bytes; a table is its array part and its other pairs in traversal order, so a table with a `__pairs` metamethod has an empty array part; strings and streams are shorter than 2^31 bytes.
- DES: S-boxes and key schedule are arbitrary functions, as the theorems do not depend on them.
- Key exchange: the conversion of 64-bit numbers from and to eight bytes, and random keys.
- Handles: the assertion that the table does not outgrow 24 bits is a precondition of `Register`; `skynet_handle_retireall`; the lock around the operations is `RwLock`'s.
- Names are given to any handle, also one that is not live, as in the code; `HandleStorage` says what holds if they are not.
- Shared tables: values are numbers; nested tables, the string pool and reference counts; the state in which an update is in progress; what a lookup does that meets an uninitialised slot; array parts are shorter than 2^31.
- Netpack: the queue of complete packets is a sequence in `Queue`, and the ring it is kept in is proved to be first in, first out on its own; packets handed out directly and through the queue are ordered by completion; copies and frees of buffers.
- Package service: manager, heartbeat and info commands; its two queues are sequences in `Package`, and the growing ring queue is proved to be first in, first out on its own.
- Memory allocation and its failure, and queue capacities beyond 2^31.
- bson, cluster packing, hashes, base64 and hex, SQL escaping, data buffers, `lua-stm.c`, the rest of Lua and LPeg, logging, signals, sockets beyond the send path.
