# Verified models of LLVM's example programs, alias-analysis aggregation and utility scripts

Nine self-contained algorithms of the repository, each modelled in Dafny in the form its source has, with the
properties it is for proved for all inputs, all runs or all interleavings.  `dafny verify dfyconfig.toml` checks
everything.

## The parts

**BrainF compiler** (`BrainF*.dfy`, llvm/examples/BrainF/BrainF.cpp).  `BrainFLanguage` holds a
character-by-character interpreter of the eight commands (the reference) and the fused commands; `BrainFMachine` a
small machine with blocks, PHI nodes, i8 cells, pointers into one allocation, a trap for every access outside it and a
`Stuck` status for anything ill-formed; `BrainFEmit` says what is emitted for each command.  The class
`BrainFCompiler.BrainF` is the compiler itself: it mutates `code`, the insertion point and `curhead`, reads with a
one-symbol lookahead and recurses at `[`.  It is proved to emit `Compile` of what the text parses to, and `Compile` is
proved correct against the interpreter.  With `flag_arraybounds` the code checks a run of moves once, by its net
displacement (llvm/examples/BrainF/BrainF.cpp:244-274); the interpreter therefore checks where a run ends.  With tape
size 0 the head starts outside and only moves are checked, so the checks help exactly the programs that start with a
move; that condition is proved exact.

**Tutorial SimplifyCFG** (`Ssa*.dfy`, `Cfg*.dfy`, `SimplifyCfg.dfy`, llvm/examples/IRTransforms/SimplifyCFG.cpp).
`SsaFunction` gives SSA functions with PHI nodes a meaning on every machine (any instruction may touch memory, emit
something or end the program), an observational equivalence, and well-formedness: one incoming value per predecessor
edge, definitions before uses on every path.  Each pass is a composition of five elementary rewrites, and each rewrite
is proved to keep well-formedness and behaviour.  The class `SimplifyCfg.Function` runs the passes in place - it
erases blocks, moves instructions one by one, replaces uses, logs dominator-tree updates - and every method is proved
against the pass as a function.  `&` does not fix the order of the three passes, so the results are for any list of
passes.  The flag returned is the conjunction of the three flags: it can be false although the function changed
(proved by an example), while the flag of one pass says exactly whether that pass had anything to do.  The log of a
pass goes through `applyUpdatesPermissive`, which keeps the first update of every edge; that this leaves exactly the
edges that changed is proved, too.

A merge can run into the assertion of `replaceAllUsesWith`, when a PHI node would have to be replaced by itself.  For
a whole merge pass the condition is exact and is told from the function before the pass: it asserts if and only if
the values of the PHI nodes of the blocks it merges go round in a circle.  If every block is reachable that cannot
happen in a merge pass.  It can happen in the passes together, because eliminating a branch can make code
unreachable; an example is proved, on which it happens even if PHI nodes left with one value are folded at once.  For
any list of passes the condition is exact: they go through if and only if at each merge pass there is no such circle
in the function it gets.  Where the merge pass comes once, as in `doSimplify`, that is told from the function before
all passes, by the edges that the passes before the merge leave (`Skeleton`, which does nothing to PHI nodes) and the
PHI entries that come over them.  A simpler condition that is enough is that every block is reachable over edges no
constant branch discards.  With more than one merge pass in the list it is not enough, because a merge can replace a
branch condition by a constant (an example is proved, again also with folding); then blocks have to stay reachable
whatever constants the PHI nodes can pass on.

**Alias-analysis aggregation** (`Alias*.dfy`, llvm/lib/Analysis/AliasAnalysis.cpp).  An execution gives every location
its bytes and every call and instruction its effects on memory; an analysis is sound if its answers over-approximate
them.  The class `AAResults` loops over the registered analyses with the accumulators and early exits of the source
and is proved to compute the combined answers, which are proved sound, and no larger than they have to be: for every
bit it is proved which reasons clear it, and that these are all.  Three results are exact conditions.  Catchpads,
catchrets and va_args on constant memory are answered `NoModRef` although they may read it: sound if and only if no
such read happens, for one instruction and for a range.  The answer for an instruction and a call is sound in every
execution if and only if the instruction orders no other access.  Registering one more analysis can make an answer
less precise, in exactly one case, which comes from the `else if` at lines 203-206.

**Exception demo** (`Leb128.dfy`, `Exception*.dfy`, llvm/examples/ExceptionDemo/ExceptionDemo.cpp).  The LEB128
readers of section 7.6 of DWARF 3 with 32-bit shifts and sign extension to 64 bits as in the code; encoded pointers,
action chains and the personality routine of section 1.6 of the Itanium C++ ABI: Exception Handling, on memory as a
sequence of bytes; and the generated wrapper functions, built block by block and then run.  The readers are right for
every encoding of at most four bytes, padded or not; for five bytes the exact condition is proved, and beyond that the
shift is undefined in C++.

**Thread rendezvous** (`ThreadBarrier.dfy`, llvm/examples/ParallelJIT/ParallelJIT.cpp).  `WaitForThreads` as atomic
steps of N workers and one releasing thread, in any order.  `pthread_cond_wait` is not in a loop, so the absence of
spurious wakeups (allowed by POSIX.1) is an assumption of the step relation; that it is needed is proved.

**Case folding** (`UnicodeCaseFold.dfy`, llvm/utils/unicode-case-fold.py).  The greedy split of the table into runs of
constant shift and stride, the chain of ifs emitted for it, and its agreement with the table on every int.

**A/B test** (`AbTest.dfy`, llvm/utils/abtest.py).  Sequential search and bisection over any deterministic test.  A
name can come twice in the list of choices; both functions that make the list give it the same B variant each time,
and that is exactly what the agreement of the two searches needs.

**Block alignment** (`Mca*.dfy`, llvm/utils/update_mca_test_checks.py).  Insertion of empty blocks until nothing
moves, with the cache of farthest indices.  `max_block_len` is computed before alignment, so lists need not end with
equal length and the model does not say so.  A run line whose key came before replaces a list and keeps the cache,
which is then ahead of the new list.  If the key brings the same output again, as it does when tool and test file are
the same, and no non-empty block comes twice in that output, the list catches up and the cache is right again.  With a
repeated block it need not; an example is proved.

**Itanium names** (`Itanium*.dfy`, llvm/utils/extract_symbols.py).  The mutually recursive nested-name parser and
template skipper, total on every string, and their inverse, a printer of nested names.  `.+` stops at the end of a
line, so the rest that is handed back is the rest of the line.  Template arguments that are expressions raise an
exception: that is proved for every printed name that holds one, however deep.

Conventions.  A method that changes an object says its whole new state as a function of the old one; the lemmas are
about that function.  Some predicates are wrapped as `forall open :: Unseal(open) ==> ...`: the wrapping means the
same, and keeps the solver from looking inside before `assert Unseal(true)`.

## Model

| member | source | states |
|---|---|---|
| BrainFCorrectness.CompilerCorrect | llvm/examples/BrainF/BrainF.cpp:190-474 | For every balanced program, input, tape size, bounds flag and initial contents of the storage: the compiled function ends with a result (how it ended, tape, rest of the input, output) if and only if the interpreter ends with that result; so it also diverges exactly when the source does |
| BrainFCorrectness.OutputsAgree | llvm/examples/BrainF/BrainF.cpp:190-474 | Also for runs that never end: whatever one side has written at any moment, the other writes too, in the same order |
| BrainFCorrectness.CheckedRunsAreSafe | llvm/examples/BrainF/BrainF.cpp:116-188 | With bounds checks and a tape that is not empty, no step of any run of the compiled function traps or gets stuck, through nested loops and their PHI nodes |
| BrainFCorrectness.CheckedRunsExact | llvm/examples/BrainF/BrainF.cpp:116-188 | For every balanced program and every tape size: no step of a checked run traps or gets stuck if and only if the tape has a cell or the first command of the program is a head move |
| BrainFCorrectness.EmptyTapeIsNotChecked | llvm/examples/BrainF/BrainF.cpp:122-125 | The smallest program that goes wrong: with tape size 0 the checked code for `+` accesses memory outside |
| BrainFCorrectness.ReturnedIsFreed | llvm/examples/BrainF/BrainF.cpp:127-186 | Every run of the compiled function that returns, normally or at a bounds check, has freed the tape, exactly once |
| BrainFFusion.Simulate | llvm/examples/BrainF/BrainF.cpp:318-422 | Running the fused commands read from any position agrees with the interpreter run from there, with the position where reading stopped and at least as many steps where fuel ran out |
| BrainFFusion.AcceptedIffBalanced | llvm/examples/BrainF/BrainF.cpp:424-473 | A text is compiled, rather than aborted on an extra or a missing bracket, exactly when its brackets balance |
| BrainFFusion.RunSumFits | llvm/examples/BrainF/BrainF.cpp:343-376 | The sum of a run is bounded by the length of the text that is left, so the `int` counter cannot overflow on a text shorter than 2^31 characters |
| BrainFSimulation.SimCheckedMove | llvm/examples/BrainF/BrainF.cpp:244-274 | The code of a checked move arrives at the new block with the new head if that is on the tape, and otherwise prints the error line and returns |
| BrainFSimulation.SimTest | llvm/examples/BrainF/BrainF.cpp:290-309 | From the test block on, in any number of passes, the code of a loop does what the loop means, the PHI nodes carrying the head |
| BrainFSimulation.SimCmds | llvm/examples/BrainF/BrainF.cpp:200-316 | The code emitted for any command sequence, inside any larger function, does what the commands mean |
| BrainFWellFormed.CompiledWellFormed | llvm/examples/BrainF/BrainF.cpp:290-309 | Every emitted block has a terminator leading to existing blocks, and every PHI node has exactly one incoming value per predecessor edge |
| BrainFWellFormed.CompiledDefinitionsDominate | llvm/examples/BrainF/BrainF.cpp:300-306 | On every path through the emitted blocks every register, the head pointers included, is written before it is used, and each incoming value before the edge it comes along |
| BrainFCompiler.BrainF.ReadSymbols | llvm/examples/BrainF/BrainF.cpp:322-421 | The lookahead loop: the current and the next symbol together with the unread text stand for the same commands as before, and reading makes progress |
| BrainFCompiler.BrainF.WriteMove | llvm/examples/BrainF/BrainF.cpp:244-274 | Emits, in place, the code that SimCheckedMove and the unchecked case are about |
| BrainFCompiler.BrainF.EndLoop | llvm/examples/BrainF/BrainF.cpp:430-462 | Completes the PHI node and the test of a loop and leaves a new block with its own PHI node, the code SimTest is about |
| BrainFCompiler.BrainF.ReadCommands | llvm/examples/BrainF/BrainF.cpp:200-422 | The emitting loop: succeeds exactly if the text parses up to a bracket or its end, and has then emitted the code of the parsed commands |
| BrainFCompiler.BrainF.Readloop | llvm/examples/BrainF/BrainF.cpp:190-474 | A whole recursive call: succeeds exactly if a loop is closed and the outermost level is not, and completes the loop or the function |
| BrainFCompiler.Parse | llvm/examples/BrainF/BrainF.cpp:52-62 | Gives the compiled function of the parsed program, or nothing where the source aborts |
| CfgPasses.EliminateCorrect | llvm/examples/IRTransforms/SimplifyCFG.cpp:139-169 | Eliminating constant branches, over any list of blocks, keeps a function well-formed (PHI entries match predecessor edges, definitions dominate) and observably the same |
| CfgPasses.RemoveDeadCorrect | llvm/examples/IRTransforms/SimplifyCFG.cpp:63-98 | The same for removing blocks without predecessors |
| CfgPasses.MergeCorrect | llvm/examples/IRTransforms/SimplifyCFG.cpp:266-301 | The same for merging blocks into their single predecessors, wherever that does not assert |
| CfgOrder.PassesCorrect | llvm/examples/IRTransforms/SimplifyCFG.cpp:356-369 | Wherever no pass asserts, the same for any number of the three passes in any order |
| CfgAsserts.MergeExact | llvm/examples/IRTransforms/SimplifyCFG.cpp:266-301 | A whole merge pass asserts if and only if, in the function before it, the values of the PHI nodes of the blocks it will merge go round in a circle; those are the mergeable blocks it visits, but for the last block of each circle of blocks it goes all the way round |
| CfgOneMerge.PassesExact | llvm/examples/IRTransforms/SimplifyCFG.cpp:356-369 | Any list of the three passes, in any order and with repetitions, meets the assertion if and only if, at one of its merge passes, the PHI values of the blocks that pass merges go round in a circle in the function the earlier passes have made |
| CfgOneMerge.OneMergeExact | llvm/examples/IRTransforms/SimplifyCFG.cpp:356-369 | With one merge pass among the others, as in `doSimplify`, the same is told from the function before all passes: from the blocks and edges left by the passes before the merge, which are computed without touching PHI nodes, and the PHI entries that come over those edges |
| CfgSkeleton.PassesFollow | llvm/examples/IRTransforms/SimplifyCFG.cpp:63-169 | Passes that do not merge leave exactly those blocks and edges, and in every block that is still entered all PHI nodes, each with the value it had for every edge that is left, or undef for a register whose block has gone |
| CfgLasting.OneMergeCorrect | llvm/examples/IRTransforms/SimplifyCFG.cpp:356-369 | A simple sufficient condition: if every block is reachable over edges that no constant branch of a visited block discards, the three passes never assert, in any order, and keep form and behaviour |
| CfgConstants.AnyPassesCorrect | llvm/examples/IRTransforms/SimplifyCFG.cpp:356-369 | The same for any list of passes with any number of merge passes, if every block is reachable over edges that stay whatever constants the PHI nodes can pass on |
| CfgConstants.WithoutConstantPhis | llvm/examples/IRTransforms/SimplifyCFG.cpp:283-287 | Where no PHI node has a constant among its values, the condition for one merge pass is enough for any number |
| CfgCounterexamples.EliminatedLoopFails | llvm/examples/IRTransforms/SimplifyCFG.cpp:356-369 | A well-formed function with every block reachable on which eliminating a branch and then merging asserts, and merging asserts as well if the PHI node that is left with one value is replaced by it first |
| CfgCounterexamples.MergeMakesConstant | llvm/examples/IRTransforms/SimplifyCFG.cpp:283-287 | A well-formed function that meets the condition for one merge pass, on which merging, eliminating the branches that the merge made constant, and merging again asserts, with the PHI node that is left with one value replaced by it or not |
| CfgUpdates.EliminateUpdates | llvm/examples/IRTransforms/SimplifyCFG.cpp:173-215 | The log of the pass, replayed on the old edge set, gives the edge set of the new function; branches with equal successors included |
| CfgUpdates.RemoveDeadUpdates | llvm/examples/IRTransforms/SimplifyCFG.cpp:102-135 | The same for dead blocks, duplicate edges included |
| CfgUpdates.MergeUpdates | llvm/examples/IRTransforms/SimplifyCFG.cpp:306-354 | The same for merges, chains of them included |
| CfgOrder.PassesUpdates | llvm/examples/IRTransforms/SimplifyCFG.cpp:356-369 | The logs of any passes in any order, one after the other, lead from the old edge set to the new one |
| CfgPermissive.ApplyUpdatesPermissive | llvm/lib/Analysis/DomTreeUpdater.cpp:249-301 | The loop that cleans up the log: the first update of every edge, if it agrees with the edges there are now |
| CfgPermissive.PassSubmits | llvm/examples/IRTransforms/SimplifyCFG.cpp:303-354 | For each of the three passes, over any list of blocks: what is submitted to the dominator tree is exactly the difference between the edges before and after, each edge once, although the log has duplicates and edges that come and go |
| CfgEffect.EliminateResolves | llvm/examples/IRTransforms/SimplifyCFG.cpp:139-169 | After the pass exactly the constant branches of blocks it did not visit are left |
| CfgEffect.EliminateFlag | llvm/examples/IRTransforms/SimplifyCFG.cpp:219-261 | The pass reports a change if and only if some visited block had a constant branch to begin with |
| CfgEffect.RemoveDeadRemoves | llvm/examples/IRTransforms/SimplifyCFG.cpp:63-98 | Every visited block that had no predecessor is gone |
| CfgEffect.RemoveDeadKeeps | llvm/examples/IRTransforms/SimplifyCFG.cpp:63-98 | Every block that can be reached from the entry is kept and can still be reached |
| CfgEffect.RemoveDeadFlag | llvm/examples/IRTransforms/SimplifyCFG.cpp:102-135 | The pass reports a change if and only if some visited block was dead to begin with |
| SimplifyCfg.MergeFlag | llvm/examples/IRTransforms/SimplifyCFG.cpp:306-354 | The pass reports a change if and only if, to begin with, some visited block was entered by one edge only, from another block that led nowhere else, whatever its own successors |
| CfgFixpoint.SweepIsFixpoint | llvm/examples/IRTransforms/SimplifyCFG.cpp:266-301 | After one sweep over all blocks, in any order, there are no two blocks of which the first leads to the second only and is the only way there, however many successors the second has |
| CfgFixpoint.MergeCreatesNone | llvm/examples/IRTransforms/SimplifyCFG.cpp:266-301 | A merge makes no block mergeable that was not mergeable before |
| CfgFixpoint.MergeSucceeds | llvm/examples/IRTransforms/SimplifyCFG.cpp:266-301 | Where all blocks are reachable, a whole merge pass never asserts, and all blocks stay reachable |
| CfgOrder.MergeIntoExact | llvm/examples/IRTransforms/SimplifyCFG.cpp:283-287 | The PHI nodes of a mergeable block can all be replaced if and only if their values do not go round in a circle |
| CfgOrder.MergeCanFail | llvm/examples/IRTransforms/SimplifyCFG.cpp:283-287 | A well-formed function with unreachable code in which they do, and the merge asserts |
| CfgOrder.FlagIsNotChange | llvm/examples/IRTransforms/SimplifyCFG.cpp:356-369 | A function the three passes change, while the flag they return together is false |
| SsaEdges.DropEdgeCorrect | llvm/examples/IRTransforms/SimplifyCFG.cpp:154-164 | Taking away an edge that is never taken, with the PHI entries for it, keeps well-formedness and behaviour |
| SsaForward.ForwardCorrect | llvm/examples/IRTransforms/SimplifyCFG.cpp:283-287 | Replacing a PHI node by the value it copies does too, although uses are elsewhere in the function |
| SsaSplice.SpliceEquivalent | llvm/examples/IRTransforms/SimplifyCFG.cpp:288-295 | Joining a block to the predecessor that jumps only there does too, one step of the new function doing two of the old |
| SsaDead.RemoveBlockEquivalent | llvm/examples/IRTransforms/SimplifyCFG.cpp:84-93 | Erasing a dead block and using undef for what it defined changes nothing observable |
| SimplifyCfg.Function.DoRemovePredecessor | llvm/examples/IRTransforms/SimplifyCFG.cpp:80-82 | In place: every PHI node loses the entry for one edge, PHI nodes without entries go |
| SimplifyCfg.Function.EliminateCondBranches | llvm/examples/IRTransforms/SimplifyCFG.cpp:173-215 | In place, over the layout order: the function, the log and the flag of the pass |
| SimplifyCfg.Function.RemoveDeadBlocks | llvm/examples/IRTransforms/SimplifyCFG.cpp:102-135 | In place, over the layout order, with blocks going away during the loop: the function, the log and the flag of the pass |
| SimplifyCfg.Function.GetSinglePredecessor | llvm/examples/IRTransforms/SimplifyCFG.cpp:270-275 | Finds the block the only incoming edge comes from, if and only if there is exactly one |
| SimplifyCfg.Function.MoveInstructions | llvm/examples/IRTransforms/SimplifyCFG.cpp:288-290 | Moves all instructions, one by one and in order, to the end of the predecessor and changes nothing else |
| SimplifyCfg.Function.MergeIntoSinglePredecessor | llvm/examples/IRTransforms/SimplifyCFG.cpp:306-354 | In place, over the layout order: asserts exactly if the pass does, and otherwise gives its function, log and flag; no two blocks are left that could be joined, and the flag says whether there were any |
| SimplifyCfg.Function.DoSimplify | llvm/examples/IRTransforms/SimplifyCFG.cpp:356-369 | Three passes in any order: the function, all updates, and the conjunction of the flags |
| AliasModel.AliasOfSound | llvm/lib/Analysis/AliasAnalysis.cpp:111-119 | If the first analysis that knows anything says `NoAlias`, the locations share no byte |
| AliasModel.AliasOfTrue | llvm/lib/Analysis/AliasAnalysis.cpp:111-119 | The combined answer, whichever of the four it is, is true of the two locations if the answers of all analyses are |
| AliasModel.ConstantOfSound | llvm/lib/Analysis/AliasAnalysis.cpp:127-134 | A location reported constant lies in constant memory |
| AliasModel.BehaviorOfSound | llvm/lib/Analysis/AliasAnalysis.cpp:383-395 | The meet of all behaviours is above what the call does |
| AliasModel.CallOfSound | llvm/lib/Analysis/AliasAnalysis.cpp:183-243 | The answer for a call and a location covers every access of the call to the location, whatever combination of refinements and early exits led to it |
| AliasModel.CallsOfSound | llvm/lib/Analysis/AliasAnalysis.cpp:251-381 | The answer for two calls covers how the first depends on the second: modifies what it accesses, reads what it modifies |
| AliasModel.InstrOfSound | llvm/lib/Analysis/AliasAnalysis.cpp:438-630 | The answer for any instruction is sound if and only if it is not a read of constant memory by a va_arg, catchpad or catchret |
| AliasModel.InstrOfSoundByConvention | llvm/lib/Analysis/AliasAnalysis.cpp:512-574 | If what these three kinds of instructions read of constant memory does not count as an access, every answer is sound |
| AliasModel.OptionalOfSound | llvm/include/llvm/Analysis/AliasAnalysis.h:719-754 | Without a location, the answer covers everything the instruction does |
| AliasExact.FirstMaskExact | llvm/lib/Analysis/AliasAnalysis.cpp:347-360 | An argument of the first call counts, with all it may do, if and only if there are accesses that the answers allow, by it to its location and by the second call to that location, of which the first depends on the second |
| AliasExact.SecondMaskExact | llvm/lib/Analysis/AliasAnalysis.cpp:296-319 | An argument of the second call sets a bit if and only if there are accesses that the answers allow, by it and by the first call to its location, with a dependence of that kind |
| AliasExact.CallsOfExact | llvm/lib/Analysis/AliasAnalysis.cpp:251-381 | A bit of the answer for two calls is set if and only if no analysis clears it, the calls interact, the behaviour of the first leaves it, and, where a call is confined to its arguments, one of these sets it; so the answer is no larger than that |
| AliasExact.CallOfExact | llvm/lib/Analysis/AliasAnalysis.cpp:183-243 | The same for a call and a location: the reasons for which a bit is cleared, and no others |
| AliasExact.ArgMaskExact | llvm/lib/Analysis/AliasAnalysis.cpp:207-228 | An argument sets a bit for a location if and only if the answers about it allow an access of that kind to the location |
| AliasExact.LoadStoreExact | llvm/lib/Analysis/AliasAnalysis.cpp:438-508 | A load or store that orders nothing gets a bit if and only if the answers allow an access of its kind that needs it: a load is never answered Mod, a store never Ref |
| AliasExact.InstrOfNone | llvm/lib/Analysis/AliasAnalysis.cpp:438-630 | The reasons for which an instruction is answered not to touch a location, and no others |
| AliasExact.InstrOfOne | llvm/lib/Analysis/AliasAnalysis.cpp:438-630 | Which of the other instructions are answered only to read, and only to modify, and no others |
| AliasExact.OptionalOfExact | llvm/include/llvm/Analysis/AliasAnalysis.h:719-754 | Without a location: for a call a bit is set if and only if every analysis sets it in the behaviour, and what any other instruction is answered |
| AliasExact.AliasOfExact | llvm/lib/Analysis/AliasAnalysis.cpp:111-119 | The answer of the first analysis that does not say `MayAlias` is given, and `MayAlias` if there is none |
| AliasExact.MeetOfExact | llvm/lib/Analysis/AliasAnalysis.cpp:136-148 | A bit is set if and only if every analysis sets it |
| AliasExact.ArgOfExact | llvm/lib/Analysis/AliasAnalysis.cpp:136-148 | So for an argument of a call |
| AliasExact.OrdersExact | llvm/lib/Analysis/AliasAnalysis.cpp:438-630 | Which orderings make an instruction touch every location: monotonic and stronger for loads and stores, stronger than monotonic for compare-exchange and read-modify-write |
| AliasAnalysis.RangeOfSound | llvm/lib/Analysis/AliasAnalysis.cpp:711-725 | In every execution, after a negative answer no instruction of the range has the effect asked for if and only if the question was not about reads or no va_arg, catchpad or catchret of the range reads the location that is taken to be constant |
| AliasAnalysis.RangeOfGuarded | llvm/lib/Analysis/AliasAnalysis.cpp:711-725 | So a negative answer is right wherever the caller does not ask about reads, or the range has none of these three kinds of instructions, or the location is not reported constant |
| AliasAnalysis.BlockDoesNotModify | llvm/lib/Analysis/AliasAnalysis.cpp:701-704 | A block that is answered not to modify a location does not, in any execution |
| AliasAnalysis.InstrCallExact | llvm/lib/Analysis/AliasAnalysis.cpp:155-175 | The answer for an instruction and a call is sound in every execution and for all analyses if and only if the instruction does not order other accesses |
| AliasAnalysis.OrderingMissed | llvm/lib/Analysis/AliasAnalysis.cpp:162-173 | For each ordering instruction, an execution in which the answer misses the dependence |
| AliasAnalysis.ConstantReadMissed | llvm/lib/Analysis/AliasAnalysis.cpp:512-574 | For each va_arg, catchpad and catchret, an execution in which it reads a constant and the answer is `NoModRef` |
| AliasAnalysis.CallOfMore | llvm/lib/Analysis/AliasAnalysis.cpp:183-243 | One more analysis never makes the answer less precise than its own, and keeps it as precise as before if and only if it does not reveal that a write-only call modifies nothing |
| AliasAnalysis.MoreIsLessPrecise | llvm/lib/Analysis/AliasAnalysis.cpp:203-206 | Two sound analyses, a call and a location for which the answer of both together is not below that of the first alone |
| AliasAnalysis.AAResults.Alias | llvm/lib/Analysis/AliasAnalysis.cpp:111-119 | The loop gives the answer of the first analysis that knows anything |
| AliasAnalysis.AAResults.GetArgModRefInfo | llvm/lib/Analysis/AliasAnalysis.cpp:136-148 | The loop with its early exit gives the meet over all analyses |
| AliasAnalysis.AAResults.GetModRefBehavior | llvm/lib/Analysis/AliasAnalysis.cpp:383-395 | The same for behaviours |
| AliasAnalysis.AAResults.GetModRefInfoOfCall | llvm/lib/Analysis/AliasAnalysis.cpp:183-243 | Loops, early exits and refinements together give the answer CallOfSound is about |
| AliasAnalysis.AAResults.ThroughSecond | llvm/lib/Analysis/AliasAnalysis.cpp:289-336 | Stopping at the first argument that saturates the result gives the join over all arguments |
| AliasAnalysis.AAResults.ThroughFirst | llvm/lib/Analysis/AliasAnalysis.cpp:340-378 | The same for the arguments of the first call |
| AliasAnalysis.AAResults.GetModRefInfoOfCalls | llvm/lib/Analysis/AliasAnalysis.cpp:251-381 | Loops, early exits and refinements together give the answer CallsOfSound is about |
| AliasAnalysis.AAResults.GetModRefInfoOfInstr | llvm/lib/Analysis/AliasAnalysis.cpp:438-630 | The answer InstrOfSound is about |
| AliasAnalysis.AAResults.GetModRefInfoOfInstrAndCall | llvm/lib/Analysis/AliasAnalysis.cpp:155-175 | The answer InstrCallExact is about: both bits for a fence, a catchpad or a catchret; for any other instruction with a location both bits or none, none if and only if the call is answered not to touch the location |
| AliasAnalysis.AAResults.CanInstructionRangeModRef | llvm/lib/Analysis/AliasAnalysis.cpp:711-725 | True if and only if some instruction from the first to the last has a bit in its answer that is asked for |
| Leb128.ReadULEB128 | llvm/examples/ExceptionDemo/ExceptionDemo.cpp:334-350 | The value of the encoding if and only if it has at most four bytes, padded or not, or five with a small last one; stops just past it; undefined beyond five bytes or past the memory |
| Leb128.ReadSLEB128 | llvm/examples/ExceptionDemo/ExceptionDemo.cpp:358-378 | The same for signed numbers, as 64-bit two's complement |
| Leb128.UnsignedRoundTrip | llvm/examples/ExceptionDemo/ExceptionDemo.cpp:334-350 | The shortest encoding of v is one the reader gets right if and only if v < 2^31 |
| Leb128.SignedRoundTrip | llvm/examples/ExceptionDemo/ExceptionDemo.cpp:358-378 | The shortest signed encoding of v is one the reader gets right if and only if -2^27 <= v < 2^31 |
| Leb128.EncodeUValue | llvm/examples/ExceptionDemo/ExceptionDemo.cpp:334-350 | The encoder of section 7.6 of DWARF 3 produces an encoding of v |
| Leb128.EncodeSValue | llvm/examples/ExceptionDemo/ExceptionDemo.cpp:358-378 | The signed encoder produces an encoding of v, with its sign in bit 6 of the last byte |
| Leb128.OrIsPlus | llvm/examples/ExceptionDemo/ExceptionDemo.cpp:334-350 | The bitwise or into `result` adds, because the bits do not meet |
| ExceptionTables.ReadEncodedPointer | llvm/examples/ExceptionDemo/ExceptionDemo.cpp:411-480 | For every number v that the bytes hold in one of the nine formats, byte by byte and with two's complement for the signed ones: v itself, v plus its own address, or the word it leads to, modulo 2^64, according to the bits of the encoding; the omitted pointer, the formats and applications that abort, and the reads outside memory |
| ExceptionTables.HandleActionValue | llvm/examples/ExceptionDemo/ExceptionDemo.cpp:501-581 | The walk of the encoded action chain gives the position of the first clause for the thrown type, 0 if there is none, and aborts at a filter before it |
| ExceptionTables.SearchFirst | llvm/examples/ExceptionDemo/ExceptionDemo.cpp:501-581 | That position is the first one, 0 means no clause matches, and the search aborts exactly if a filter comes before any clause for the type |
| ExceptionTables.HandleLsda | llvm/examples/ExceptionDemo/ExceptionDemo.cpp:595-764 | On every well-formed encoded table: what a search of the abstract list for the first covering site with a landing pad gives |
| ExceptionTables.TableIsShort | llvm/examples/ExceptionDemo/ExceptionDemo.cpp:645-650 | The length of the call-site table is a 32-bit number: the sites of a well-formed table take fewer than 2^32 bytes, as many as the header says modulo 2^32 |
| ExceptionTables.TwoPhases | llvm/examples/ExceptionDemo/ExceptionDemo.cpp:595-764 | With the first site that has a landing pad and covers the offset: the search phase finds a handler exactly if that site catches the type, and then the cleanup phase installs its pad with the position of the first matching clause; without such a site both pass on, and a filter aborts both |
| ExceptionTables.ForeignCleansUp | llvm/examples/ExceptionDemo/ExceptionDemo.cpp:595-764 | A foreign exception never finds a handler; its landing pads get selector 0, and it passes on exactly if no site covers it |
| ExceptionSample.AreaHere | llvm/examples/ExceptionDemo/ExceptionDemo.cpp:595-764 | Concrete bytes that are a well-formed table, so the results above are about something |
| ExceptionSample.AreaCatchesSeven | llvm/examples/ExceptionDemo/ExceptionDemo.cpp:595-764 | What both phases answer on those bytes, for every exception |
| ExceptionRelative.RelativeArea | llvm/examples/ExceptionDemo/ExceptionDemo.cpp:411-480 | A second well-formed table: a landing-pad base, type infos by pointers relative to their own address, a negative type, negative 2-byte numbers, two call sites, and an action chain that goes back |
| ExceptionRelative.RelativeCatches | llvm/examples/ExceptionDemo/ExceptionDemo.cpp:595-764 | What both phases answer on it at each end of each site, for every exception |
| ExceptionWrappers.Builder.CreateFinallyBlock | llvm/examples/ExceptionDemo/ExceptionDemo.cpp:947-1008 | Adds the block that ends or resumes depending on the caught flag, and changes no other block |
| ExceptionWrappers.Builder.CreateCatchBlock | llvm/examples/ExceptionDemo/ExceptionDemo.cpp:1023-1053 | Adds the block that sets the caught flag and goes on, and changes no other block |
| ExceptionWrappers.Builder.CreateCatchWrappedInvokeFunction | llvm/examples/ExceptionDemo/ExceptionDemo.cpp:1075-1323 | Builds the blocks WrapperRuns is about, for any list of caught types |
| ExceptionWrappers.WrapperRuns | llvm/examples/ExceptionDemo/ExceptionDemo.cpp:1075-1323 | Whatever arrives, a generated function ends within six blocks: it returns, or resumes with the exception it got, with exactly the events it should have |
| ExceptionWrappers.PersonalityOnSite | llvm/examples/ExceptionDemo/ExceptionDemo.cpp:595-764 | On the call site of the invoke the personality routine gives the selector the generated code switches on |
| ExceptionWrappers.ThrownStack | llvm/examples/ExceptionDemo/ExceptionDemo.cpp:947-1053 | For any stack of generated functions: every finally block runs once, only the innermost function that catches the type runs a catch block, once, and frees the exception, once; nothing is freed if it passes through or is foreign |
| ExceptionWrappers.ThrowIsHandled | llvm/examples/ExceptionDemo/ExceptionDemo.cpp:284-295 | The same from the throw on: the handler is the innermost function listing the type, and if there is none the exception reaches the harness unfreed |
| ThreadBarrier.BarrierSafe | llvm/examples/ParallelJIT/ParallelJIT.cpp:166-233 | In every reachable state, if one thread is past the barrier, all workers and the releasing thread have arrived and been released |
| ThreadBarrier.AssertionHolds | llvm/examples/ParallelJIT/ParallelJIT.cpp:166-191 | The assertion on `n` and `waitFor` never fails |
| ThreadBarrier.NeverStuck | llvm/examples/ParallelJIT/ParallelJIT.cpp:166-233 | As long as a thread has not returned, some thread can take a step |
| ThreadBarrier.EverybodyReturns | llvm/examples/ParallelJIT/ParallelJIT.cpp:166-233 | Every schedule ends after at most 9(N+1) steps, and it can go no further exactly when all N+1 threads have returned |
| ThreadBarrier.SpuriousWakeupBreaksTheBarrier | llvm/examples/ParallelJIT/ParallelJIT.cpp:182-187 | With one spurious wakeup a worker returns although the releasing thread has not even started, for every N > 0 |
| ThreadBarrier.ReachableInv | llvm/examples/ParallelJIT/ParallelJIT.cpp:139-239 | Every reachable state is either gathering, with `n` the number of workers that have arrived, or releasing, with everybody released |
| ThreadBarrier.WaitForThreads.Block | llvm/examples/ParallelJIT/ParallelJIT.cpp:166-191 | One step of a worker on the shared fields |
| ThreadBarrier.WaitForThreads.ReleaseThreads | llvm/examples/ParallelJIT/ParallelJIT.cpp:196-215 | One step of the releasing thread on the shared fields |
| ThreadBarrier.WaitForThreads.UnblockThreads | llvm/examples/ParallelJIT/ParallelJIT.cpp:218-233 | The three steps of a release on the shared fields |
| ThreadBarrier.WaitForThreads.Run | llvm/examples/ParallelJIT/ParallelJIT.cpp:139-239 | Any schedule on the object gives the state the lemmas are about |
| UnicodeCaseFold.GeneratedFolds | llvm/utils/unicode-case-fold.py:66-123 | For every non-empty ascending table and every int, the generated chain returns the mapped value if the character is in the table and the character itself otherwise |
| UnicodeCaseFold.ChainFolds | llvm/utils/unicode-case-fold.py:66-99 | The same for any list of runs that makes up an ascending table, greedy or not |
| UnicodeCaseFold.DumpFolds | llvm/utils/unicode-case-fold.py:66-99 | What the ifs for one block do to any character before the rest of the chain is reached: unguarded singletons, the bitwise-or case and stride 1 included |
| UnicodeCaseFold.InRun | llvm/utils/unicode-case-fold.py:77-87 | Bounds and modulo test of a block pick exactly the characters in it |
| UnicodeCaseFold.SplitTable | llvm/utils/unicode-case-fold.py:101-123 | The greedy blocks are runs, make up the table, and no other split into runs has fewer blocks |
| UnicodeCaseFold.SplitMinimal | llvm/utils/unicode-case-fold.py:103-121 | The same from the middle of the loop |
| UnicodeCaseFold.Script.Generate | llvm/utils/unicode-case-fold.py:35-123 | The script emits the chain of the greedy split if the table is ascending and not empty, and fails otherwise: on the first mapping out of order, or on the empty block at the end |
| AbTest.CheckSequentially | llvm/utils/abtest.py:111-123 | Tests every entry with its own variant, in whatever order; finds exactly the choices that pass alone if entries with the same name have the same B variant |
| AbTest.SequentialExact | llvm/utils/abtest.py:111-123 | It finds exactly what passes alone, on every test whose passing is inherited by subsets, if and only if entries with the same name have the same B variant |
| AbTest.PrepareFunctions | llvm/utils/abtest.py:286-309 | Keeps exactly the functions with two different variants; a name that comes twice has the same B variant |
| AbTest.PrepareFiles | llvm/utils/abtest.py:237-265 | Keeps exactly the files that differ; a name that comes twice has the same B variant |
| AbTest.Bisection.TestPartition | llvm/utils/abtest.py:134-151 | Exactly what one test changes: what is known good, the partitions still to be split, in which a failed one comes first, and the bound announced; all passing choices stay known or still to be tested, and every bound announced so far still holds |
| AbTest.Bisection.CheckBisect | llvm/utils/abtest.py:126-171 | Ends; a name is found if and only if some part of the halving tree below the whole list has the name and passes; so every choice that passes alone is found; the tests left at each announcement never exceed the bound printed there |
| AbTest.HalvedExact | llvm/utils/abtest.py:154-170 | What a part of the list leads to, worked out from its own halves, is exactly the names of the tree below it that pass: [lo, lo + n/2) and [lo + n/2, hi) at every node, down to single names, below parts that fail |
| AbTest.SameAsSequential | llvm/utils/abtest.py:126-171 | Where passing is inherited by subsets, what bisection finds is what passes alone |
| AbTest.Both | llvm/utils/abtest.py:111-171 | On every list the script can make: bisection finds all that the sequential search finds, and exactly that where passing is inherited |
| McaAlign.Alignment.Analyse | llvm/utils/update_mca_test_checks.py:230-238 | Raises the cached index of every block to its farthest first index, and lowers none |
| McaBlocks.FarthestIsHighest | llvm/utils/update_mca_test_checks.py:230-238 | The farthest index of a block: no list has its first instance farther back, and one has it there |
| McaAlign.Alignment.AlignMatchingBlocks | llvm/utils/update_mca_test_checks.py:203-262 | Either inserts empty blocks before the first block, in the order of the lists, that directly follows another and is ahead of its farthest index, exactly up to that index, or changes nothing because there is none |
| McaBlocks.InsertionFacts | llvm/utils/update_mca_test_checks.py:242-260 | Each change removes exactly one adjacent pair of non-empty blocks, keeps the non-empty blocks of every list in order, and never puts the cache ahead of the lists |
| McaAlign.AlignedFacts | llvm/utils/update_mca_test_checks.py:317-320 | When nothing changes any more: the same non-empty blocks in every list, none farther to the front, every neighbour at or beyond its cached index, and in the cache the maximum of what was there and the farthest index recomputed |
| McaAlign.Alignment.AlignAll | llvm/utils/update_mca_test_checks.py:317-320 | Ends, after one round more than pairs removed, with that result; the cache is the farthest index recomputed if and only if it was not ahead of the lists at the end |
| McaAlign.SameKeyKeepsCache | llvm/utils/update_mca_test_checks.py:302-320 | A key that comes again with the same output, in which no non-empty block comes twice, leaves the cache right although its list starts again |
| McaSpread.CatchUp | llvm/utils/update_mca_test_checks.py:242-260 | Why: every block of the list that started again ends at or behind its place in the list it replaced |
| McaAlign.Alignment.AddRun | llvm/utils/update_mca_test_checks.py:301-320 | A run line under a new key, one under an old key with the same output, and one with which the cache is not ahead of the lists as they then are: the cache is right afterwards; the list under the key has the blocks of the new output, the others keep theirs |
| McaAlign.RunsCacheRight | llvm/utils/update_mca_test_checks.py:293-320 | After every run line the cache is the farthest index recomputed, if keys that come again bring the same output and no non-empty block comes twice in such an output; keys may repeat |
| McaAlign.Alignment.AlignRuns | llvm/utils/update_mca_test_checks.py:293-320 | For all run lines, whatever their keys: each list has the non-empty blocks of the last output under its key and everything is settled; and the cache is right under that condition |
| McaAlign.SettledIsAligned | llvm/utils/update_mca_test_checks.py:240-255 | At the end a block that directly follows another sits at or beyond its first index in every list |
| McaAlign.Alignment.Pad | llvm/utils/update_mca_test_checks.py:322-326 | Only appends empty blocks, up to the longest original length |
| McaRepeats.RepeatsLeaveCacheAhead | llvm/utils/update_mca_test_checks.py:297-320 | Four run lines, the last with the key and the output of the first, in which one block comes twice: at the end the cache has an index that no list has any more, so the condition on repeated blocks is needed |
| ItaniumNames.NestedRoundTrip | llvm/utils/extract_symbols.py:280-318 | Printing any nested name, with arbitrarily nested template arguments, and parsing it gives back its (name, is_template) list and the rest of the line |
| ItaniumNames.SkipList | llvm/utils/extract_symbols.py:246-276 | A printed template argument list is skipped up to its own end, whatever is nested in it |
| ItaniumNames.PartsRoundTrip | llvm/utils/extract_symbols.py:299-315 | From any point of the parsing loop, the names still printed are appended to those found |
| ItaniumOperators.OperatorRoundTrip | llvm/utils/extract_symbols.py:236-240 | A nested name that ends in an operator, which is any text without an E that does not start like another name, is read back with the operator as its last name |
| ItaniumOperators.ThroughParts | llvm/utils/extract_symbols.py:299-315 | Printed names are read, template arguments and all, whatever stands behind them on the line |
| ItaniumExpressions.NestedTooComplex | llvm/utils/extract_symbols.py:280-318 | Every nested name that holds an expression among its template arguments, at any depth, gives the exception for complex names, whatever follows it |
| ItaniumExpressions.ListTooComplex | llvm/utils/extract_symbols.py:268-269 | So does every template argument list with an expression, or an argument that holds one, after arguments that can be skipped |
| ItaniumExpressions.ListSkips | llvm/utils/extract_symbols.py:246-276 | Without an expression a list is skipped to its own end, also where more lines follow |
| ItaniumExpressions.ListCut | llvm/utils/extract_symbols.py:276 | A list whose end is missing is not skipped |
| ItaniumExpressions.PartsCut | llvm/utils/extract_symbols.py:317-318 | A nested name whose end is missing is not read |
| ItaniumNames.DecimalIsNumber | llvm/utils/extract_symbols.py:224-231 | The length printed in decimal is the length read |
| ItaniumNames.SubstitutionExact | llvm/utils/extract_symbols.py:258-260 | A substitution is found exactly if an underscore follows the capital letters and digits, with more of the line behind it |
| ItaniumNames.QualifiersExact | llvm/utils/extract_symbols.py:292-294 | All qualifiers are dropped, and nothing else, if something other follows them on the line |
| ItaniumNames.ParseItaniumName | llvm/utils/extract_symbols.py:224-242 | Fails if and only if no non-empty part of the string without an E comes before something visible; otherwise name and rest together are the string up to the end of a line, with nothing lost or moved; a number takes as many characters as it says or the line has, and an operator is as long as possible |
| ItaniumNames.ParseIdentifier | llvm/utils/extract_symbols.py:225-231 | A printed identifier is read back with its length, and what follows it is the rest |
| ItaniumNames.ParseSpecial | llvm/utils/extract_symbols.py:232-235 | So is the name of a constructor or destructor |
| ItaniumNames.SkipItaniumTemplate | llvm/utils/extract_symbols.py:246-276 | The loop with its recursive calls ends on every string and gives the answer that SkipList, ListTooComplex and ListCut are about |
| ItaniumNames.ParseItaniumNestedName | llvm/utils/extract_symbols.py:280-318 | The same for nested names, with NestedRoundTrip, NestedTooComplex and PartsCut |

## Left out

- BrainF: run lengths and tape size are unbounded integers (RunSumFits says when they fit an `int`); pointers are offsets into one allocation, and `malloc` gives storage of the right size with arbitrary contents; printing, bitcode writing and the driver are not part of this model.
- BrainF without bounds checks: an access outside the tape is a trap on both sides, where C would be undefined; `,` has consumed its character by then, in the code and in the reference.
- SimplifyCfg.Function.DoRemovePredecessor: takes PHI entries away and drops PHI nodes without entries; folding of PHI nodes that are left with one value is not modelled, as the comment at lines 80-82 allows; `removePredecessor` itself is not part of this model.
- SimplifyCFG: `undef` is read as one fixed, arbitrary value per execution; the two versions of a pass that differ only in logging share one model, and the pattern-matching version 3 is the same function as version 2.
- Dominator-tree recomputation inside `DomTreeUpdater`: the update log and its clean-up are modelled, not what the tree does with the submitted updates; deletion of blocks is immediate rather than lazy.
- Alias analysis: the Must bit (it does not influence the mod and ref bits), the query cache (an analysis is a pure function), `callCapturesBefore`, pass registration and wrappers, the overload of `getModRefBehavior` for functions.
- AliasAnalysis.AAResults.GetModRefInfoOfInstrAndCall: asks for an instruction that accesses memory, as `MemoryLocation::get` does.
- ExceptionTables.HandleLsda: malformed tables are not modelled; a table is well-formed if its bytes are encodings the readers get right and its sites fill it.
- Leb128.ReadULEB128: a shift of a positive `int` into or past the sign bit wraps, as compilers do; shifts of 32 or more are `Undefined`.
- ExceptionTables.ReadEncodedPointer: text- and data-relative applications abort as in the code; alignment of `memcpy` does not matter.
- The platform unwinder: the two-phase walk over the stack is the model; printing, `printStr` and the C++ harness outside the generated functions are not part of this model.
- ThreadBarrier.BarrierSafe: assumes that there are no spurious wakeups (SpuriousWakeupBreaksTheBarrier shows why), one releasing thread, and one call per thread; failures of the pthread calls and the JIT part of the program are not part of this model.
- Case folding: URL fetching, regular expressions and the printed frame of the generated file; `C + shift` is on unbounded integers.
- abtest: subprocesses, file rewriting, sanity checks and messages; the test is a function of the picks.
- McaAlign.RunsCacheRight: the condition on repeated blocks is sufficient and not exact; two run lines whose arguments and prefixes run together to the same key with different outputs are outside it.
- llvm-mca: tool invocation, whitespace handling and the pruning of prefixes are not part of this model.
- CfgConstants.AnyPassesCorrect: its condition on the input is sufficient and not exact; the exact condition for any list (CfgOneMerge.PassesExact) is on the functions that the merge passes get, and the one on the input (CfgOneMerge.OneMergeExact) is for one merge pass.
- ItaniumNames.NestedRoundTrip: identifiers do not start with a digit and are on one line; names with expressions are the subject of ItaniumExpressions, and operators of ItaniumOperators, at the end of a name only: in the middle the parser takes everything up to the next E for the operator.
- Itanium names: only ASCII digits match `\d`; `should_keep_itanium_symbol`, the Microsoft expressions and the driver are not part of this model.
- The remaining examples and utilities of the repository (Fibonacci, ladder graphs, fuzz generators, include sorting, coverage summaries) are not modelled.
