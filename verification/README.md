# rr-workbench in Dafny

rr-workbench is a collection of experiments around the rr record-and-replay debugger. This project
models the six parts of it that hold an algorithm, each in the form the original has, and proves
what each is for.

**Path logging (`PathLogging.cpp`).** A compiler pass after Ball and Larus. It is handed a
control-flow graph whose backedges have been cut: a backedge v->w has two phony edges, root->w and
v->exit. The pass moves the edge weights onto chords of a spanning tree, pushes the initialisation of
a path register down from the root and the logging of the register up from the exit, unlinks the
phony edges, splits critical edges and puts an action on each edge. `InstrumentationDag.dfy` is that
pass, an object whose methods update columns of edge fields in place. Its central contract is
`RunOnFunction`: *every* run of the program, from entry to exit, logs one number for each segment
between backedges, in order, and the number is the weight sum of the segment's path through the DAG,
modulo 2^32. The proof goes

- from the recursions of the two pushes to a description by potentials
  (`PushForest`, `PushTrees`, `PushSpec`),
- from the potentials to the state of the register at every node of every path (`PathTheorem`,
  `PathShape`), and on to whole runs (`RunTheorem`),
- from the labels to the code on the split graph, and from its runs back to the original runs
  (`EdgeSplitting`, `Emission`, `EndToEnd`),
- from the codes of edges to the blocks in which they are put (`BlockCode`),
- with the chord search (`ChordSpec`) and the numbering of paths (`PathNumbering`) on the side:
  the numbers are a bijection, and equal logs come from equal runs.

The graph comes from a base class that is not part of this model. What it promises is the predicate
`Graphs.WellFormed`: adjacency lists agree with the edges; exit->root is the only edge into the root
and out of the exit; all edges but backedges and exit->root have a topological order (split edges
are former normal edges, so they have one too); a cut edge has weight 0 and its two phony edges; and
a backedge returns to a node it was reached from. `PathNumbering.PathsCounted` says what its path
numbering promises, `PathNumbering.OwnPhonyRoots` that no two cut edges share their root->w edge,
and `EndToEnd.ReturnsEnd` that a block which returns has no other way out.

As written, `calculateSpanningTree` colours every node white and then skips white nodes, so the tree
is always empty and every increment is the edge's weight. The model does what the code does
(`CalculateSpanningTree`, `ChordSteps`). The chord search is proved separately for every tree
(`CalculateChordIncrements`, `ClosedWalkSums`, `AnyTreeKeepsNumbers`), and so is the rest of the pass
(`AnyTree.dfy`). With a tree that is not empty the log can be wrong: a backedge may get an increment,
and when it is split, the increment stays behind on the first half and counts. `InstrumentGraph` gives
the exact condition, on the graph and the tree. `UnevenLoop.dfy` is a case where it fails, with the
tree that the search would find if its colour test let it begin: it never goes on from the nodes it
reaches, so the tree would be the star of the root's edges.

**strlen (`libc-sysdeps-i386-i586-strlen.S`).** Words are tested four bytes at a time by carry
arithmetic, in a loop unrolled four times, with an instrumented mode that counts in the callee-saved
registers. `Strlen.dfy` proves it against a byte scan.

**Path records (`path_logging.c`).** `PathLog.dfy` is the buffer of one thread, updated in place;
`PathLogSystem.dfy` is the transition system of all threads of all processes over the same
operation (`Retire`).

**Tree listing (`gdbinit`).** The debugger commands that list a `std::map` or `std::set` walk a
red-black tree by parent pointers. `TreeWalk.dfy` proves the walk against the recursive in-order
listing.

**BPF rules (`seccomp-bpf.h`).** Macros that compile rules to jump code. `SeccompRules.dfy` has the
compiler, an interpreter, and the meaning of the rules as a decision list. The comment over
`ALLOW_SYSCALLS_FROM_CALLSITE` describes a range of addresses, but the macro compares one word, the
low half of the 64-bit instruction pointer; the model follows the macro. It therefore allows one
address if addresses have 32 bits, and on a 64-bit machine also every address with the same low half.

**vsyscall hook (`vdso_monkeypatch.c`).** `VsyscallHook.dfy` patches the code bytes and runs patch,
trampoline and hook on a small machine.

What comes from outside is a parameter: the kernel's result and what a compiled function leaves in
caller-saved registers and below its frame (`VsyscallHook`), memory contents (`Strlen`, `TreeWalk`),
the values of map elements (`ListMatching`), and the order of steps (`PathLogSystem`).
Parameters marked `ghost`, such as a topological order `rank` or a tree `t`, only name what the
proof is about.

## Model

| member | source | states |
|---|---|---|
| `InstrumentationDag.Dag.RunOnFunction` | PathLogging.cpp:1471-1502 | for every well-formed graph, every run over real edges from entry to exit logs exactly the numbers of its segments between cut edges, in order, and leaves the register unset; a run that has come to any other node has logged its completed segments and at most the number of the open one; the runs of the instrumented graph are the original runs and no others; the blocks that a run goes through run the codes of exactly its edges, in order; no edge is split twice, and no edge but a cut edge is left with phony links |
| `InstrumentationDag.Dag.CalculateSpanningTree` | PathLogging.cpp:765-814 | each edge but the split edges becomes a chord, exactly once |
| `InstrumentationDag.Dag.CollectChords` | PathLogging.cpp:806-813 | whatever the tree, exactly the edges that are neither in it nor split edges become chords, each once |
| `InstrumentationDag.Dag.MakeEdgeSpanning` | PathLogging.cpp:977-980 | the edge is marked and listed, all other marks and the order of the list stay |
| `InstrumentationDag.Dag.CalculateChordIncrements` | PathLogging.cpp:726-735 | for any tree, tree edges get increment 0, a chord gets its weight plus the potential difference of its ends, and split edges are left alone |
| `InstrumentationDag.Dag.CalculateChordIncrementsDfs` | PathLogging.cpp:1039-1066 | the search from a node terminates and adds to each chord exactly the shares of the nodes in that node's subtree |
| `InstrumentationDag.Dag.VisitTreeEdge` | PathLogging.cpp:1043-1055 | an edge that leads down adds the shares of the whole subtree behind it, any other edge changes nothing |
| `InstrumentationDag.Dag.AddToChordsAt` | PathLogging.cpp:1057-1065 | the visit of one node adds that node's share to each chord that ends there, once per chord |
| `ChordSpec.DirToChild` | PathLogging.cpp:1069-1078 | the direction rule hands a child of the search the signed tree distance of that child from the root |
| `ChordSpec.DirToChord` | PathLogging.cpp:1069-1078 | the direction rule turns the arriving weight into plus the potential at a chord's source, minus it at a chord's target |
| `ChordSpec.AllShares` | PathLogging.cpp:1057-1065 | over the whole tree the shares of a chord add up to its potential difference |
| `ChordSpec.EdgeIsBalanced` | PathLogging.cpp:726-735 | tree edge or chord, the increment is the weight plus the potential of the source minus that of the target |
| `ChordSpec.ClosedWalkSums` | PathLogging.cpp:726-735 | on every closed walk without self-loops and split edges the increments sum to the weights |
| `ChordSpec.ChordKeepsWeight` | PathLogging.cpp:726-735 | a chord keeps its weight as increment if and only if its ends have equal potential, or, for a self-loop, potential 0 |
| `EndToEnd.AnyTreeKeepsNumbers` | PathLogging.cpp:359-362 | whatever the tree, every root-to-exit path keeps its number |
| `AnyTree.TreeLogsRun` | PathLogging.cpp:1483-1502 | whatever the tree, a complete run is logged by its segments' numbers if and only if no step of it is over an uneven edge: a critical backedge outside the tree whose weight plus potential difference is not 0 modulo 2^32 |
| `AnyTree.TreeLogsSoFar` | PathLogging.cpp:1483-1502 | a run that has come to any node has been logged as far as it should be if and only if no step of it so far is over an uneven edge |
| `AnyTree.TreeLogsAllRuns` | PathLogging.cpp:1483-1502 | whatever the tree, all runs are logged, and no others are possible, if and only if no complete run goes over an uneven edge |
| `AnyTree.TreeLogsPartialRuns` | PathLogging.cpp:1483-1502 | all unfinished runs are logged as far as they have come if and only if none goes over an uneven edge |
| `AnyTree.EvenTreeLogsAllRuns` | PathLogging.cpp:1483-1502 | the condition on edges: all runs are logged if and only if no uneven edge lies on a complete run |
| `AnyTree.EvenEndsAreEven` | PathLogging.cpp:726-735 | a backedge whose ends have equal potential, or a self-loop with potential 0, is not uneven |
| `AnyTree.HarmfulIsUneven` | PathLogging.cpp:738-759 | of all increments that splits leave behind, only those of uneven edges do harm: a split edge never has one, and a register is always set before a backedge |
| `AnyTree.UnevenIsMislogged` | PathLogging.cpp:738-759 | a run over an uneven edge is logged wrongly |
| `UnevenLoop.LoopIsProper` | PathLogging.cpp:786-804 | a one-block loop after another block is a graph that the pass accepts, with Ball-Larus weights, and the star of the root's edges is a tree of it |
| `UnevenLoop.LoopIsUneven` | PathLogging.cpp:1039-1066 | with the star as tree, the backedge is uneven, and a complete run goes over it |
| `UnevenLoop.InstrumentLoop` | PathLogging.cpp:1483-1502 | the pass, run on the loop with the star, logs a run of it wrongly |
| `InstrumentationDag.Dag.InstrumentWithTree` | PathLogging.cpp:1483-1502 | the steps after `calculateSpanningTree`, run with any tree, arrive at a state to which these results apply |
| `InstrumentationDag.DagWithTree` | PathLogging.cpp:799-813 | marking the edges of a given tree and collecting the chords gives the state those steps start from |
| `InstrumentationDag.InstrumentGraph` | PathLogging.cpp:1471-1502 | the pass on any well-formed graph with any tree: from graph and tree alone, a run, complete or not, is logged if and only if it goes over no uneven edge, and all complete runs are if and only if no uneven edge lies on one |
| `EndToEnd.EmptyTreeKeepsWeights` | PathLogging.cpp:765-814 | with the empty tree all increments are the weights |
| `InstrumentationDag.Dag.ChordSteps` | PathLogging.cpp:1482-1483 | the tree step and the chord step together turn each weight into an increment |
| `InstrumentationDag.Dag.PushInitialization` | PathLogging.cpp:818-823 | flags and increments end up as the set of passed nodes and the sums carried to them say, for every edge |
| `InstrumentationDag.Dag.PushInitializationFromEdge` | PathLogging.cpp:983-1008 | the recursion terminates in spite of backedges, settles all edges below its edge and touches no other |
| `PushTrees.InitSettled` | PathLogging.cpp:983-1008 | a settled edge has the flag and the increment that passed nodes and carried sums give it |
| `PushTrees.InitComplete` | PathLogging.cpp:818-823 | a finished recursion from exit->root has settled every edge of the graph |
| `PathShape.InitOnEveryPath` | PathLogging.cpp:983-1008 | on every root-to-exit path there is exactly one initialisation, all increments before it are 0, and the path's sum is what it was |
| `PushSpec.NoBackedgeOut` | PathLogging.cpp:983-1008 | the initialisation is never pushed past a node with an outgoing backedge, so no backedge is marked or given an increment |
| `InstrumentationDag.Dag.PushCounters` | PathLogging.cpp:827-832 | flags and increments end up as the set of lifted nodes and the sums pending there say, for every edge |
| `InstrumentationDag.Dag.PushCountersFromEdge` | PathLogging.cpp:1011-1036 | the recursion terminates in spite of backedges, settles all edges above its edge and touches no other |
| `PushTrees.CounterSettled` | PathLogging.cpp:1011-1036 | a settled edge has the flag and the increment that lifted nodes and pending sums give it |
| `PushTrees.CounterComplete` | PathLogging.cpp:827-832 | a finished recursion from exit->root has settled every edge of the graph |
| `PathShape.BothOnEveryPath` | PathLogging.cpp:1011-1036 | on every root-to-exit path there is exactly one initialisation and exactly one counter, not before it, increments outside these two ends are 0, and the sum is what it was |
| `PushSpec.NoBackedgeIn` | PathLogging.cpp:1011-1036 | the counter is never pushed past a node with an incoming backedge |
| `PathTheorem.PassedNotLifted` | PathLogging.cpp:1011-1036 | stopping at initialisation edges keeps the counters from overtaking the initialisations |
| `PushSpec.PhonyFlagsStay` | PathLogging.cpp:1332-1335 | after both pushes every phony root edge is still an initialisation and every phony exit edge still a counter |
| `PathTheorem.PushesPlace` | PathLogging.cpp:1484-1485 | the two pushes together place flags and increments consistently on every edge of the DAG |
| `InstrumentationDag.Dag.PushLabels` | PathLogging.cpp:1484-1485 | the two pushes, from any increments, give such a placement of these increments |
| `InstrumentationDag.Dag.PlaceLabels` | PathLogging.cpp:1482-1485 | the four label steps, from a fresh graph, give such a placement of the weights |
| `PathTheorem.StateAfterEdge` | PathLogging.cpp:1375-1400 | the code of one edge takes the register and the log from what they should be at its source to what they should be at its target |
| `PathTheorem.StateAlongPath` | PathLogging.cpp:1375-1400 | at every node of every path the register is unset, holds the sum so far plus what is pending, or has been logged, as the node's place between the pushes says |
| `PathTheorem.PathLogsItsNumber` | PathLogging.cpp:10-16 | every root-to-exit path of the DAG logs its own number, once |
| `RegisterMachine.RegisterAdds` | PathLogging.cpp:1081-1084 | an increment is added as to a 32-bit word: the carry is dropped, and a negative increment borrows |
| `RunTheorem.CutIsBottomThenTop` | PathLogging.cpp:1325-1372 | the code of a cut edge does what the codes of its phony exit edge and then its phony root edge would do |
| `RunTheorem.SegmentsArePaths` | PathLogging.cpp:26-28 | cut at backedges, with phony edges put in, a run falls into root-to-exit paths of the DAG |
| `RunTheorem.RunIsInState` | PathLogging.cpp:1272-1416 | at every node of every run, complete or not, the log holds the numbers of the completed segments in order, and register and log have got as far with the open segment as the node's place between the pushes says |
| `RunTheorem.StateIsSoFar` | PathLogging.cpp:1011-1036 | if the open segment has been logged already, its number is the one it will have however it goes on to the exit |
| `RunTheorem.RunLogsItsSegments` | PathLogging.cpp:1272-1416 | with the labels placed, every complete run logs the numbers of its segments in order |
| `InstrumentationDag.Dag.UnlinkPhony` | PathLogging.cpp:836-849 | exactly the phony edges leave all adjacency lists, the order of the others stays |
| `InstrumentationDag.Dag.UnlinkEdge` | PathLogging.cpp:968-974 | one edge leaves the lists at its two ends, nothing else changes |
| `EdgeSplitting.UnlinkedLists` | PathLogging.cpp:836-849 | after unlinking, the lists hold each real edge exactly once at each end and nothing else |
| `InstrumentationDag.Dag.SplitUpdate` | PathLogging.cpp:738-759 | the graph is the split graph, flags and increments of old edges stay, the new edge has none |
| `InstrumentationDag.Dag.SplitGraph` | PathLogging.cpp:738-759 | the statements on nodes, lists, type and phony links, in order, arrive at the graph with two half edges |
| `Emission.SplitsMoveLinks` | PathLogging.cpp:750-757 | if only cut edges have phony links before the splits, the same holds after them |
| `InstrumentationDag.Dag.SplitCritical` | PathLogging.cpp:1629-1655 | a critical edge is split, for any other edge nothing changes |
| `EdgeSplitting.SplitSteps` | PathLogging.cpp:738-759 | retargeting, relinking and moving type and phony links one after the other produce the graph with two half edges |
| `EdgeSplitting.SplitAtLists` | PathLogging.cpp:738-759 | a split keeps the adjacency lists consistent and the number of predecessors of every old node |
| `InstrumentationDag.Dag.InstrumentEdge` | PathLogging.cpp:1275-1400 | the visit of one edge keeps the invariant of the walk: at most one split per original edge, consistent lists, correct code in an own block |
| `InstrumentationDag.Dag.MarkSplitAndEmit` | PathLogging.cpp:1275-1400 | marking, splitting and emitting one after the other make of the whole state what one visit of the edge is specified to make of it |
| `InstrumentationDag.Dag.EmitCode` | PathLogging.cpp:1288-1400 | a block for the code is always found, it is the one specified, and neither assertion on the phony edges can fail |
| `InstrumentationDag.Dag.InsertInstrumentationStartingAt` | PathLogging.cpp:1272-1416 | the walk terminates, splits included, keeps the invariant, and has visited everything reachable that is not still on its stack |
| `InstrumentationDag.Dag.VisitSuccessors` | PathLogging.cpp:1406-1415 | the loop visits all successors of the node, splits on the way included, and keeps the invariant |
| `InstrumentationDag.Dag.InsertInstrumentation` | PathLogging.cpp:1424-1429 | from exit->root the walk visits every edge that can be reached |
| `InstrumentationDag.Dag.UnlinkAndInsert` | PathLogging.cpp:1486-1502 | with labels placed, unlinking and the walk end with every reachable edge visited and the invariant of the walk kept |
| `Emission.PhonyAssertionsHold` | PathLogging.cpp:1332-1335 | in every state of the walk, also after splits have moved phony links, both assertions hold |
| `Emission.SplitOnce` | PathLogging.cpp:1407-1411 | a critical unvisited edge is an original edge that has not been split |
| `Emission.CriticalIsSplit` | PathLogging.cpp:1629-1655 | a critical edge that has been visited has been split |
| `Emission.NotCriticalHasBlock` | PathLogging.cpp:1629-1655 | an edge that is not split has a block that runs exactly when the edge is taken |
| `Emission.InstrumentSplit` | PathLogging.cpp:1629-1655 | the walk's invariant survives a visit that splits |
| `Emission.InstrumentUnsplit` | PathLogging.cpp:1375-1400 | the walk's invariant survives a visit that does not split |
| `Emission.InstrumentKeeps` | PathLogging.cpp:1275-1400 | every visit keeps the invariant, and finds a block for the code and the phony flags it asserts |
| `Emission.TodoDecreases` | PathLogging.cpp:1407-1411 | every visit brings the walk nearer to its end, even when it adds an edge |
| `Emission.WalkIsVisited` | PathLogging.cpp:1402-1415 | when the walk is over, every edge of every run has its code |
| `Emission.SplitEdgeStep` | PathLogging.cpp:738-759 | the two halves of a split edge, whichever got type and phony links, together do what the edge would have done |
| `Emission.ExpandExecute` | PathLogging.cpp:738-759 | splitting changes neither the register nor the log of any run |
| `EndToEnd.AllRunsLogged` | PathLogging.cpp:1272-1416 | when the walk is over, every run of the original graph is logged, and every run of the split graph is what has become of one of them and is logged |
| `EndToEnd.AllPartialRunsLogged` | PathLogging.cpp:1272-1416 | every run from the entry to any node, such as one that never ends or ends early, has logged its completed segments and at most the number of the open one |
| `BlockCode.BetweenBlocks` | PathLogging.cpp:1288-1322 | what is at the end of an edge's source block and at the beginning of its target block is the code of that edge, once, and nothing else |
| `BlockCode.BlocksRunWalk` | PathLogging.cpp:1288-1322 | along every walk over visited edges, the blocks run the codes of its edges in order |
| `BlockCode.BlocksDoAllRuns` | PathLogging.cpp:1424-1429 | a call of the function, going through the blocks of any run, runs the code of exit->root and then those of the run; on a complete run, register and log end up as by the edges alone |
| `PushSpec.ExitRootIsCleared` | PathLogging.cpp:818-832 | the two pushes leave exit->root without any label, so its code, in front of the entry block, does nothing |
| `EndToEnd.ContractRun` | PathLogging.cpp:738-759 | splitting adds no behaviour: a run of the split graph over real edges, from an original node to another, is what has become of a run of the original over real edges |
| `EndToEnd.InstrumentedLogDeterminesRun` | PathLogging.cpp:12-16 | for a well-formed graph with counted paths, at most 2^32 of them, two runs of the instrumented graph that write the same log are the same run |
| `PathNumbering.WellFormedNumbered` | PathLogging.cpp:1477-1478 | in a well-formed graph, path counts and sibling weights alone make the weights a numbering |
| `PathNumbering.PathSumInRange` | PathLogging.cpp:1477-1478 | path numbers lie in [0, number of paths) |
| `PathNumbering.SumOfDecode` | PathLogging.cpp:12-16 | every number in that range is the number of a path |
| `PathNumbering.SumIsInjective` | PathLogging.cpp:1477-1478 | different paths have different numbers |
| `PathNumbering.DecodeOfSum` | PathLogging.cpp:12-16 | decoding a path's number gives the path back |
| `PathNumbering.NumberIdentifiesPath` | PathLogging.cpp:1081-1084 | in 32-bit arithmetic the logged number still decodes to the path, if there are at most 2^32 paths |
| `PathNumbering.LogDeterminesRun` | PathLogging.cpp:10-16 | equal number sequences come from equal runs |
| `Strlen.HoleBits` | libc-sysdeps-i386-i586-strlen.S:112-133 | for every word, carry and hole bits pass the test exactly when no byte is 0 |
| `Strlen.TestWord` | libc-sysdeps-i386-i586-strlen.S:148-161 | an iteration falls through exactly when all four bytes are non-zero, and then %edx is 0 again |
| `Strlen.ScanWord` | libc-sysdeps-i386-i586-strlen.S:148-161 | an iteration either steps to the next aligned word before the NUL or stops behind the word that holds it |
| `Strlen.ScanWords` | libc-sysdeps-i386-i586-strlen.S:136-226 | the unrolled loop terminates behind the aligned word that holds the first NUL, having loaded each word up to it once |
| `Strlen.Align` | libc-sysdeps-i386-i586-strlen.S:79-110 | for all four alignments the prologue finds a NUL before the next word boundary, or arrives there with %edx 0, having read exactly the bytes up to there, in order |
| `Strlen.FindByte` | libc-sysdeps-i386-i586-strlen.S:235-277 | the pointer ends at the first zero byte, or the fourth, and the counters count the tests in unary |
| `Strlen.ZeroByteIsNul` | libc-sysdeps-i386-i586-strlen.S:245-277 | the byte arrived at is the NUL, also when the untested fourth byte is reached |
| `Strlen.Locate` | libc-sysdeps-i386-i586-strlen.S:229-277 | from the early-incremented pointer and the word with the magic value added, the locator ends at the NUL |
| `Strlen.LoadsStayInReach` | libc-sysdeps-i386-i586-strlen.S:136-226 | every word load is aligned and starts at or before the NUL |
| `Strlen.Enter` | libc-sysdeps-i386-i586-strlen.S:57-76 | registers are saved under a note 0, or, when instrumentation is asked for, cleared under a note 1 |
| `Strlen.Leave` | libc-sysdeps-i386-i586-strlen.S:286-296 | from either form of stack the entry stack is restored, and the entry registers unless instrumenting |
| `Strlen.FindNul` | libc-sysdeps-i386-i586-strlen.S:79-277 | from entry to L(2): the pointer is the NUL's address, the counters are 0 if the prologue found it and otherwise encode its offset in its word; exactly the bytes up to the NUL or the next word boundary are read, and then exactly the words up to the one with the NUL, in order |
| `Strlen.StrLen` | libc-sysdeps-i386-i586-strlen.S:50-305 | the result is the byte-scan length; the stack is restored; the callee-saved registers are restored, or, when %edi was 0xdeadd00d, hold the offset of the NUL in its word in unary, or 0 if the prologue found it; the bytes and words read are exactly those up to the NUL, and no word load is unaligned or starts after it |
| `PathLog.Retire` | path_logging.c:115-128 | what is written and what stays in the buffer are, in order, what was held and the new record; with 31 records held, all 32 are written and none stays, and with fewer none is written |
| `PathLog.ThreadLog.EnsureThreadInit` | path_logging.c:95-113 | an existing buffer is returned as it is, otherwise a fresh empty one is installed |
| `PathLog.ThreadLog.FlushBuffer` | path_logging.c:53-60 | exactly the held records are written and the buffer is empty |
| `PathLog.ThreadLog.DropBuffer` | path_logging.c:62-69 | the buffer is forgotten and nothing is written |
| `PathLog.ThreadLog.FinishBuffer` | path_logging.c:71-78 | everything held is written, then there is no buffer |
| `PathLog.ThreadLog.FinishMainThreadBuffer` | path_logging.c:80-86 | the same, and nothing when there is no buffer |
| `PathLog.ThreadLog.IncrementPathCount` | path_logging.c:115-128 | the buffer and the written stream become what retiring the record says, and no array bound is exceeded |
| `PathLogSystem.StepKeeps` | path_logging.c:53-128 | every retire, create, finish, end, fork, fork-handler, exit-hook and death step of any thread or process keeps all threads' books |
| `PathLogSystem.WrittenIsPrefix` | path_logging.c:53-128 | over every interleaving, threads that end with a buffer, retire after the exit hook or are killed included, a thread's written stream is a prefix of what it retired, fewer than 32 records short, and complete once its buffer is finished |
| `PathLogSystem.FinishWritesAll` | path_logging.c:71-86 | the destructor and the exit hook leave the thread without a buffer and with all it has retired written |
| `PathLogSystem.RetiredIsInSteps` | path_logging.c:115-128 | over every interleaving, what a thread has retired is exactly what its own steps say, in order |
| `PathLogSystem.WrittenIsInSteps` | path_logging.c:53-128 | read off the steps alone: the functions and path numbers a thread has written are a prefix of those it retired, fewer than 32 short |
| `PathLogSystem.FinishedIsWritten` | path_logging.c:71-93 | once a thread's buffer has been finished, and until it retires again, all that its steps retired is written, whatever all others do |
| `PathLogSystem.OverIsForever` | path_logging.c:71-93 | a thread that has ended, or whose process has died, takes no further step and changes no more |
| `PathLogSystem.ForkedChildStartsClean` | path_logging.c:62-69 | a forked child that has run its handler has no buffer and has retired nothing, and nothing changes for its parent |
| `PathLogSystem.NothingWrittenTwice` | path_logging.c:88-93 | over every interleaving, forks included, no record is written twice |
| `TreeWalk.Descend` | gdbinit:219-224 | from a node with a right subtree the walk arrives at the next element in order |
| `TreeWalk.Climb` | gdbinit:225-233 | from a node without one it arrives at the next element, or at the header after the last element, also when the root is the rightmost node |
| `TreeWalk.ClimbsOn` | gdbinit:225-233 | the climb goes on exactly out of right subtrees, and at a root that is the rightmost node |
| `TreeWalk.ParentIsNotRight` | gdbinit:225-233 | where the climb stops inside the tree, the final test moves the node up to its parent |
| `TreeWalk.Advance` | gdbinit:219-233 | one step leads from the i-th element in order to the next, at a cost that telescopes |
| `TreeWalk.ListAll` | gdbinit:197-236 | the loop lists exactly the in-order sequence, ends at the header, and sets its node variable exactly 2n - 1 times less the depth of the leftmost node |
| `TreeWalk.ListIfMatching` | gdbinit:242-249 | an element is listed with its position, and counted, exactly when it has the wanted value |
| `TreeWalk.MatchingLists` | gdbinit:237-268 | filtering a sequence keeps a position with its element if and only if the element has the wanted value, with increasing positions |
| `TreeWalk.ListMatching` | gdbinit:237-268 | the filtered loop lists a position with its element if and only if the element has the wanted value, in increasing order of positions, and counts them |
| `SeccompRules.RunRule` | seccomp-bpf.h:74-131 | running one rule's code anywhere in a program returns the rule's verdict or arrives right behind the code with the accumulator the rule leaves |
| `SeccompRules.RunSocketcall` | seccomp-bpf.h:112-118 | the same for the socket call rule: only receive and accept are traced, and other calls go on |
| `SeccompRules.FilterIsDecisionList` | seccomp-bpf.h:42-131 | every compiled filter terminates inside its code and returns 0, 0x7ff00000 or 0x7fff0000 exactly when the first rule that decides says kill, trace or allow |
| `SeccompRules.SyscallRuleInNumbers` | seccomp-bpf.h:95-101 | the number returned for a call that a rule names is that of its verdict, and for any other call the rule has no effect |
| `SeccompRules.SocketcallRuleInNumbers` | seccomp-bpf.h:103-118 | call 102 is traced for operations 10 and 5 and allowed for all others, in the kernel's numbers |
| `SeccompRules.FilterAlwaysReturns` | seccomp-bpf.h:124-131 | a filter that ends in a rule for the process always returns a verdict |
| `SeccompRules.ExaminedMeansIntended` | seccomp-bpf.h:74-75 | if the system call number is loaded before each rule that compares it, the filter does what the rules' names say |
| `SeccompRules.SyscallRuleReads` | seccomp-bpf.h:95-101 | a system call rule is about the call being made if and only if the accumulator holds its number |
| `SeccompRules.NotExaminedDiffers` | seccomp-bpf.h:90-101 | the code of a filter where a callsite rule has replaced the number lets a call through that a rule of it names to be killed |
| `SeccompRules.FilterDoesAsIntended` | seccomp-bpf.h:74-131 | a filter gives a call the verdict that its rules' names say if and only if no rule misreads the call before one decides, or the rules after the first misread one give the verdict that this rule should, or does, give |
| `SeccompRules.TestsSuffice` | seccomp-bpf.h:74-131 | a filter does to every call what its rules' names say if and only if it does so to finitely many calls that can be read off the rule list |
| `SeccompRules.CallsiteIsLowWord` | seccomp-bpf.h:90-93 | for every address and callsite, the rule allows exactly the calls whose instruction pointer has the low word of the callsite |
| `SeccompRules.CallsiteHasTwins` | seccomp-bpf.h:46-51 | every address a multiple of 2^32 after the callsite is allowed too |
| `SeccompRules.CallsiteIsOneAddress` | seccomp-bpf.h:77-93 | among the addresses below a bound the rule means the callsite alone if and only if the callsite has 32 bits and the bound is at most 2^32 after it, as it is when addresses have 32 bits |
| `VsyscallHook.PatchBytes` | vdso_monkeypatch.c:54-74 | the eight bytes are the opcodes in their places and the address with its lowest byte first |
| `VsyscallHook.PatchDecodes` | vdso_monkeypatch.c:54-74 | wherever it is put and whatever the address, the patch decodes to push, mov of that address, jmp |
| `VsyscallHook.MonkeyPatch` | vdso_monkeypatch.c:201-216 | exactly eight bytes are overwritten, with the opcodes and the little-endian address |
| `VsyscallHook.Cpu.RunPatch` | vdso_monkeypatch.c:54-61 | the patch arrives at the trampoline with the old %eax on the stack and all else but %eax as it was |
| `VsyscallHook.Cpu.PushInfo` | vdso_monkeypatch.c:105-127 | the number and the six registers lie in memory in the order of the struct, at the stack pointer |
| `VsyscallHook.Cpu.VsyscallHook` | vdso_monkeypatch.c:182-193 | one system call is made with the number and the first five arguments that lie at the address passed |
| `VsyscallHook.Cpu.CallHook` | vdso_monkeypatch.c:129-141 | the call goes to the hook and comes back behind the call; whatever the hook leaves in scratch registers and below its frame, the saved struct survives |
| `VsyscallHook.Cpu.Trampoline` | vdso_monkeypatch.c:86-169 | number and six registers are handed to the hook in struct order, and all of them but %eax are back on return to the original caller |
| `VsyscallHook.Cpu.PatchedVsyscall` | vdso_monkeypatch.c:54-193 | a call of the patched code makes the system call once, returns its result to the caller, and leaves every other register and the caller's stack as they were |
| `VsyscallHook.Cpu.PatchAndCall` | vdso_monkeypatch.c:54-216 | whatever the code was, patching it and calling it overwrites eight bytes and then does all that |

## Left out

- The base class that builds the graph and counts its paths is not part of this model; its results are the predicates `WellFormed`, `PathsCounted` and `OwnPhonyRoots`.
- The construction of LLVM code (PHI nodes, insertion points, values kept in nodes, tables, dot output): only the action on each edge is modelled, and in which block, at its beginning or end, it is put.
- Functions with indirect branches, where the pass gives up (PathLogging.cpp:1280-1287, 1646-1647).
- The inline counter array (PathLogging.cpp:1213-1248), which is switched off, and call-phony instrumentation (PathLogging.cpp:1431-1467), whose decrements the runtime ignores.
- The search loop of `calculateSpanningTree` behind the test that skips white nodes: no node ever passes the test.
- Increments are unbounded integers until they are emitted; a C `long` that overflows in between is not modelled.
- Wrap-around of the stack pointer in `VsyscallHook`, and of strings past the end of the address space in `Strlen`.
- `LABEL_INST`, `UNROLL_INST` and the bounds-checking macros of strlen, which are switched off or empty.
- Short writes and failed mappings in the path log; the buffers of other threads when a process exits are lost there, and so they are here.
- `NR_SOCKETCALL`, `SYS_RECV` and `SYS_ACCEPT` are the i386 Linux numbers, since the headers that define them are not in the repository; the kernel's limit on filter length is not modelled.
- The other printers in `gdbinit` (vector, list, deque, stack, string): simple index loops.
- The check of the original vsyscall bytes before patching, and the page protection around it.
- regtrace.c, notify_desched.c, rpc_syscall.c, sysemu.c and watchpoint.c, where the kernel decides the behaviour.
- launch.c, rrmon.c, mod.cc, ctor.cc, bad_syscall.c, pwrite64_testcase.c, paths.c, seccomptrace.c and libc-libio-iofputs.c: input, output and system-call plumbing.
- status2text.c, strfutexcmd.c, lcmp.c, histogram-trace and the build scripts, which would only add easy members.
