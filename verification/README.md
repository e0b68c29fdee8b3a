# Models of the algorithmic core of an ns-3 source tree

This project models, in Dafny, the parts of the tree that hold real algorithms or state machines, and proves
what they compute for all inputs, all runs and all orders in which dictionaries may be walked. Nothing in it
is executed; `dafny verify dfyconfig.toml` checks everything.

**Dependency sorting and cycles** (`bindings/python/topsort.py`; `Items`, `Digraph`, `Topsort`,
`TopsortLevels`, `Rotation`, `FindCycles`). Graphs are dictionaries from a parent to its list of children, with
parallel edges and self-loops. `topsort` keeps an answer list that grows while it is walked. Its loop invariant
counts, for each item, the edges from parents not yet done, and carries the longest-path depth of every item in the
answer, so the answer comes out ordered by depth, also when it ends in a CycleError. `topsort_levels` yields
the depth classes, and a theorem relates the two: cutting the answer of one at the level sizes of the other gives the
same item sets. `find_cycles` is a stack of paths with a set of visited nodes. It yields every simple cycle
once up to rotation although roots already visited are skipped. Its termination measure is the exact
number of paths that will still be popped.

**Configuration paths** (`StaticInformation` in `utils/print-introspected-doxygen.cc`; `ConfigPaths`,
`ConfigRoutes`, `ConfigEdges`). The search pushes and pops two fields while it recurses over a cyclic graph of types. It is proved
against a recursive function of that graph, and the function against a statement without any search: the
records correspond one to one, in preorder, to the repetition-free routes from the given type. Which edges such a
route may take, and in which order, is told from the registry: attributes, then registered descendants, then aggregations.

**Worker pool** (`test.py`; `WorkerPool`, `WorkerPoolSafety`, `WorkerPoolResults`,
`WorkerPoolProgress`, `WorkerPoolInterrupt`). A step relation for the
main thread, N workers, two FIFO queues and an interrupt. Invariants hold in every state of every run; no state is stuck
before the last join; every run has at most 6T + 7N steps for T tests, interrupts aside; the end state is
characterised; and a test that no worker had decided on when an interrupt came is not run.

**Fat tree** (`examples/dstcp/fat-tree.cc`; `FatTree`). The three wiring loops make exactly the links of a
three-layer fat tree, each once, for every k.

**Pipelines of commands** (`waf-tools/shellcmd.py`; `ShellParse`, `ShellRender`, `ShellGrammar`, `ShellRun`,
`ShellMeaning`, `ShellDirs`, `ShellReadings`, `PosixReading`, `PosixCondition`, `PosixInstances`). The token
machine, a printer it undoes, the grammar of one command with its parts in any order, the executor, the directories it starts
processes in, and what a run means: groups of piped processes joined by operators.

**Patches** (`utils/check-style.py`; `PatchText`, `PatchPatterns`, `PatchRoundTrip`,
`PatchRewrite`, `PatchReread`, `PatchObjects`). Line, chunk and patch
objects, the parser that builds them, the writers, what the line patterns match and a printed header says, and the white-space rewrite that appends to line objects
shared between the two views of a chunk.

**Bits, permutations, distributions** (`bindings/python/rad_util.py`, `examples/dstcp/cdf.c`; `Bits`,
`Permutations`, `CdfMath`, `CdfMean`, `Cdf`). The ripple-carry counter on an array, `int2bin` through hexadecimal digits, permutations by
insertion, and sampling from a piecewise-linear distribution over the reals, with the average of a table as the mean of what
is sampled from it.

Five promises are not kept by the code as one might expect, and are stated as exact conditions:

- `run` returns at the first short circuit, carries a pipe past a cd, lets a pipe win over an input file, and opens files
  where it was itself started. So it does not always do what a shell makes of the same pipeline (section 2.9 of the POSIX.1-2017
  Shell Command Language). The two start the same processes, connected to the same pipes and files, and return the same status, for all exit codes,
  iff every cd names a directory and none is the end; all `&&` and `||` behind commands are the same; every cd but a first one stands directly
  behind an `&&`; no command behind a `|` reads from a file; and no redirection names another file, seen from the directory its cds lead to, than seen from
  the starting directory. Six pipelines that fail one of these, such as `a || cd d && b`, show the difference.
- Reading undoes writing for patches iff no removed line starts with `-- ` and no added line with `++ `: such
  a line is read back as a file name. Patch sets that were themselves read never hold one and always read back. The white-space rewrite can make
  one: what is written after it reads back iff no pair that it reached gave a space back to a destination line `++`.
- The white-space rewrite keeps the source view of a chunk iff no pair of lines that it would repair has a context line on
  its destination side. Alignment of the context lines is enough; `SHIFTED` is a chunk whose source view changes.
- The piecewise-linear distribution function takes every sample back to the number drawn iff the value rises wherever the cdf does,
  counting from the origin. The shipped `DCTCP_CDF.txt` is such a table.
- `binary_range(0)` is empty, so "2^bits strings" holds iff bits is at least 1.

Where the code and its comments disagree, the code is modelled. `Uniquefy` says that its container is modified in place
(lines 379-400 of `utils/print-introspected-doxygen.cc`) but takes it by value, so `Gather` leaves repeated records in the output.

## Model

| member | source | states |
|---|---|---|
| Topsort.CountParents | bindings/python/topsort.py:77-90 | The two dictionaries built from the pairs: every mentioned item is a key, its number is the count of pairs it is the child of, and children are listed in the order of the pairs, repeated pairs repeated |
| Topsort.GraphOfPairs | bindings/python/topsort.py:77-90 | A child occurs in its parent's list as often as the pair occurs in the input |
| Topsort.ChildrenInOrder | bindings/python/topsort.py:89-90 | An item's children are listed by rising position of their pairs, none left out |
| Topsort.Parentless | bindings/python/topsort.py:93 | Exactly the items with count 0, each once, whatever order the dictionary is walked in |
| Topsort.Topsort | bindings/python/topsort.py:77-112 | Returns normally iff the pairs have no directed cycle, with every mentioned item once, parents first and depths never falling; a CycleError carries an answer with the same properties over exactly the items not at or below a cycle, and dictionaries over exactly the others with their true counts and children; no lookup or deletion misses |
| Topsort.KnockOne | bindings/python/topsort.py:100-103 | One turn of the inner loop keeps the invariant: a count is the number of edges from undone parents plus those of the current parent not yet knocked down, and an item is released exactly when its last parent is done |
| Topsort.Released | bindings/python/topsort.py:102-103 | An item released by the parent at index i is one deeper than that parent, and putting it at the end keeps the answer ordered by depth |
| Topsort.LeftoverIsBelowCycle | bindings/python/topsort.py:108-111 | If every remaining count is positive, every remaining item lies on a cycle or is reachable from one |
| Topsort.LayeredIsOrdered | bindings/python/topsort.py:97-112 | The depths the loop assigns are longest-path depths, so the finished answer is in depth order, has parents first, and holds nothing at or below a cycle |
| Digraph.BelowCycleIffChains | bindings/python/topsort.py:108-111 | An item lies at or below a cycle iff arbitrarily long chains lead into it, and one longer than the number of vertices already decides |
| Digraph.CyclicIffSimpleCycle | bindings/python/topsort.py:235-243 | A graph has a closed walk iff it has a simple cycle |
| TopsortLevels.TopsortLevelsCore | bindings/python/topsort.py:203-232 | Level n holds exactly the items whose longest incoming chain has n edges, once each, and every item not at or below a cycle is in a level; CycleError iff there is a cycle, and then the leftover keys are exactly the items at or below cycles |
| TopsortLevels.NextRound | bindings/python/topsort.py:205-212 | In round n the items without a predecessor are exactly level n, and what is left has an incoming chain of n + 1 edges |
| TopsortLevels.RetireLevel | bindings/python/topsort.py:217-224 | Striking a level removes its items and their edges and leaves every other count the number of edges that remain |
| TopsortLevels.TopsortLevels | bindings/python/topsort.py:157-172 | The same promises from a list of pairs |
| TopsortLevels.AnswerCutsIntoLevels | bindings/python/topsort.py:97-112 | Cut at the sizes of the levels of lines 203-232, the answer of the sort gives the same item sets in the same order, and nothing is left over |
| FindCycles.FindCycles | bindings/python/topsort.py:343-385 | Every yielded list is a simple cycle, no two are rotations of each other, and every simple cycle of the graph is yielded up to rotation, for every order of the keys |
| FindCycles.SearchFrom | bindings/python/topsort.py:351-385 | From one root the search ends, by the number of paths still to be popped, with every path from the root searched; what it marks as visited is reachable from the root |
| FindCycles.ViaNext | bindings/python/topsort.py:362-383 | The measure's step: pushing a child that is not on the path adds that path's own future pops, and a child that closes a cycle adds none |
| FindCycles.YieldIfNew | bindings/python/topsort.py:368-378 | A cycle is added iff no rotation of it is among those already found |
| FindCycles.EveryCycleFound | bindings/python/topsort.py:346-349 | Once every key is reachable from a searched root, every simple cycle has been found, so skipping visited roots loses none |
| FindCycles.NothingFoundIffAcyclic | bindings/python/topsort.py:235-243 | Nothing is yielded iff the graph has no cycle |
| Rotation.IsRotated | bindings/python/rad_util.py:761-775 | True iff the second list is a rotation of the first; an IndexError for two empty lists and only for them |
| Rotation.RotationSymmetric | bindings/python/rad_util.py:761-775 | The relation decided there is symmetric |
| Rotation.RotationTransitive | bindings/python/rad_util.py:761-775 | And transitive, so comparing with one member of a class is enough |
| ConfigPaths.GraphOfClosed | utils/print-introspected-doxygen.cc:429-502 | Every edge the search can follow leads to a registered type |
| ConfigPaths.StaticInformation.GetCurrentPath | utils/print-introspected-doxygen.cc:329-338 | The labels of the current path, each behind a slash |
| ConfigPaths.StaticInformation.RecordOutput | utils/print-introspected-doxygen.cc:341-346 | Appends one record of the type under the current path |
| ConfigPaths.StaticInformation.HasAlreadyBeenProcessed | utils/print-introspected-doxygen.cc:349-361 | Whether the type is on the stack |
| ConfigPaths.StaticInformation.Get | utils/print-introspected-doxygen.cc:364-377 | The paths recorded for a type, in order |
| ConfigPaths.StaticInformation.FollowAttributes | utils/print-introspected-doxygen.cc:429-468 | The first loop gathers behind every attribute that holds objects, pointers to plain objects excepted, and restores both stacks |
| ConfigPaths.StaticInformation.FollowSubtypes | utils/print-introspected-doxygen.cc:469-481 | The second loop does so for every registered descendant |
| ConfigPaths.StaticInformation.FollowAggregates | utils/print-introspected-doxygen.cc:482-502 | The third does so for the other side of every aggregation the type is in |
| ConfigPaths.StaticInformation.DoGather | utils/print-introspected-doxygen.cc:421-503 | Ends on every finite type graph, appends exactly the records of the graph search to the output, and leaves the current path and the stack of types as they were |
| ConfigPaths.StaticInformation.Gather | utils/print-introspected-doxygen.cc:411-417 | The same; nothing is sorted or made unique |
| ConfigRoutes.GatherRecordsFreeRoutes | utils/print-introspected-doxygen.cc:421-503 | A search records one entry per repetition-free route that avoids the stack, in preorder, labelled with the current path extended by the labels along the route |
| ConfigRoutes.RoutesAreFreeRoutes | utils/print-introspected-doxygen.cc:424-427 | A route is taken iff it passes no type twice and none on the stack |
| ConfigRoutes.RoutesInPreorder | utils/print-introspected-doxygen.cc:428-502 | Routes are taken in preorder of edge positions |
| ConfigRoutes.GetFindsFreeRoutes | utils/print-introspected-doxygen.cc:364-377 | After a search from a root, the paths returned for a type are exactly those of the repetition-free routes that end in it |
| ConfigRoutes.PathsInOrder | utils/print-introspected-doxygen.cc:364-377 | The paths returned for a type are those of its records, by rising position |
| ConfigRoutes.RenderJoins | utils/print-introspected-doxygen.cc:329-338 | The text of a path is that of its front followed by that of its rest, and of one label a slash and the label |
| ConfigEdges.EdgesHaveReasons | utils/print-introspected-doxygen.cc:429-502 | The edges out of a type are, once each and in this order: attributes holding a pointer to other than plain objects, under their names, or a container, under the name and "/[i]"; registered descendants, under "$" and their names; other sides of aggregations, under "$" and their names; each kind by rising position |
| ConfigEdges.EdgeIff | utils/print-introspected-doxygen.cc:429-502 | An edge leaves a type iff the registry or an aggregation gives one of these reasons for it |
| ConfigEdges.GetFindsChains | utils/print-introspected-doxygen.cc:364-377 | After a search from a root, a path is returned for a type iff it is the labels of a chain of such edges from the root to that type that passes no type twice |
| WorkerPoolSafety.KeepsInv | test.py:978-1046 | Every step of main thread, workers and interrupt keeps the invariant: queue contents, workers' hands, one place per job, accounted breaks, counters |
| WorkerPoolSafety.KeepsPlaces | test.py:978-1046 | No step loses or doubles a job |
| WorkerPoolSafety.KeepsBalance | test.py:985-986 | Every job that has left the input queue is a test in a hand, on the output queue or collected, or a break job in a worker's hand |
| WorkerPoolSafety.EveryRunInv | test.py:1423-1752 | The invariant holds after every run, whatever the interleaving and whenever the interrupt comes |
| WorkerPoolSafety.DispatchedJobIsInOnePlace | test.py:1445-1484 | In every state of every run a dispatched job is in exactly one of input queue, one worker's hand, output queue and collected |
| WorkerPoolSafety.TallyAddsUp | test.py:1718-1752 | Passed, failed, valgrind, crashed, skipped and interrupted add up to the jobs collected, and passed and skipped do so iff every job passed or was skipped |
| WorkerPoolResults.CountersCount | test.py:1728-1752 | Each counter is the number of collected jobs of its kind: return code 0, 1, 2 or another, or skipped; a job handed back after an interrupt counts nowhere |
| WorkerPoolResults.ResultsAreHonest | test.py:1001-1046 | In every state of every run, a job on its way back or collected that counts as run was run to its end by some worker and carries the return code it ended with |
| WorkerPoolResults.EndsAtMostOnce | test.py:978-1046 | In every run every test is run to its end at most once, and not at all if it was collected as skipped or handed back |
| WorkerPoolResults.CollectedIsSettled | test.py:1718-1752 | Every collected job was either run once, by one worker, and carries the return code of that run and no other, or says that it was not run, and was not |
| WorkerPoolResults.CollectedInOrder | test.py:1389-1390 | Results are collected in the order in which the workers handed them in, and what is not collected yet is on the output queue |
| WorkerPoolResults.MainInOrder | test.py:1445-1864 | In every run the main thread dispatches all tests, then sends one break job for each worker, then collects as many jobs as there are tests, then joins the workers in turn |
| WorkerPoolProgress.NotStuck | test.py:1696-1699 | With at least one worker and as many break jobs behind all tests, some step other than the interrupt is possible in every state before the last join |
| WorkerPoolProgress.StepsFall | test.py:978-1046 | Every step but the interrupt decreases a measure, and the interrupt leaves it |
| WorkerPoolProgress.RunsAreShort | test.py:1423-1864 | A run with T tests and N workers has at most 6T + 7N steps besides interrupts |
| WorkerPoolProgress.RunsReachTheEnd | test.py:1863-1864 | A run that has not reached the last join can be continued |
| WorkerPoolProgress.TheEnd | test.py:1948-1951 | At the end both queues are empty, every test was collected once, every worker left on a break job of its own, the counters add up to the number of tests, and 0 is returned iff every test passed or was skipped |
| WorkerPoolInterrupt.InterruptStopsRunning | test.py:992-995 | In every run, a worker that decides on a test behind an interrupt does not run it but holds the same job, marked as a break |
| WorkerPoolInterrupt.InterruptedIsNotRun | test.py:992-995 | A test that no worker had decided on when an interrupt came is never run, is collected marked as a break, and makes the exit status 1 |
| WorkerPoolInterrupt.UninterruptedIsRun | test.py:1001-1046 | In a run without an interrupt that reaches its end, a test is run iff it is not to be skipped |
| FatTree.SizeOf | examples/dstcp/fat-tree.cc:192-210 | For every k the tree has the largest even number of pods up to k, K say, with K^2/2 edge and as many aggregation switches, K^2/4 core switches, and serverCount servers for each edge switch |
| FatTree.ConnectServers | examples/dstcp/fat-tree.cc:239-259 | The t-th link joins server t to the edge switch whose block of servers it is in, for all servers |
| FatTree.ConnectEdges | examples/dstcp/fat-tree.cc:262-279 | Edge switches are linked, in order, to the k/2 aggregation switches of their pod |
| FatTree.ConnectAggregations | examples/dstcp/fat-tree.cc:282-299 | Aggregation switches are linked, in order, to the k/2 core switches of their row |
| FatTree.Wire | examples/dstcp/fat-tree.cc:192-299 | For every k, odd ones rounded down, the links made are exactly those of the fat tree, each once |
| FatTree.OneAggregationPerPod | examples/dstcp/fat-tree.cc:282-299 | Each core switch is linked to exactly one aggregation switch of each pod |
| FatTree.OnePathPerCore | examples/dstcp/fat-tree.cc:262-299 | Between two edge switches there is exactly one path up and down through each core switch |
| FatTree.InterPodPaths | examples/dstcp/fat-tree.cc:262-299 | These are all such paths, there are (k/2)^2, and between different pods they go up and come down by different aggregation switches |
| FatTree.EveryInterPodWalkCrossesACore | examples/dstcp/fat-tree.cc:239-299 | Any walk over links from one pod to another passes a core switch |
| FatTree.PodIntervalIsPod | examples/dstcp/fat-tree.cc:46-62 | The index interval taken for a pod holds exactly the servers the wiring put into that pod |
| FatTree.PickDestination | examples/dstcp/fat-tree.cc:56-62 | The destination drawn is the first draw in another pod than the sender's |
| ShellParse.Parse | waf-tools/shellcmd.py:121-201 | The loop computes the fold of the token machine's step over the tokens, failed assertions included |
| ShellParse.ParsedIsWellFormed | waf-tools/shellcmd.py:136-201 | An accepted token list gives nodes and operators in turn, a command pipes its output iff a Pipe follows, a Chdir is last or followed by And, and no command is named cd or like an assignment |
| ShellRender.ParseUndoesRender | waf-tools/shellcmd.py:136-201 | Parsing the tokens printed for a well-formed pipeline gives the pipeline back |
| ShellRender.WellFormedIffParsed | waf-tools/shellcmd.py:136-201 | Well-formed pipelines are exactly those the parser can produce |
| ShellGrammar.AssignmentIff | waf-tools/shellcmd.py:24 | A token is an assignment iff it is a name of word characters, a sign and a value without white space, perhaps with one line end |
| ShellGrammar.SetVarInPlace | waf-tools/shellcmd.py:139-141 | Setting a variable again changes its value where it stands |
| ShellGrammar.CommandIsRead | waf-tools/shellcmd.py:136-199 | Wherever a command may begin: assignments, a name, and arguments and redirections in any order are read as the command with the arguments in order, the redirections, and the last value of each variable, unless a stream is redirected twice, which is a failed assertion |
| ShellGrammar.OneCommand | waf-tools/shellcmd.py:136-201 | The same for a whole token list of one command |
| ShellGrammar.OperatorIsRead | waf-tools/shellcmd.py:164-177 | Behind a command each operator commits it; a pipe fails iff its output goes to a file |
| ShellGrammar.DanglingIsDropped | waf-tools/shellcmd.py:154-201 | A redirection whose file is missing at the end of the tokens is dropped without a failure |
| ShellGrammar.ChdirIsRead | waf-tools/shellcmd.py:144-187 | A cd behind an assignment or with two operands fails; otherwise its operand is any token but the next and |
| ShellGrammar.ChdirIsCommitted | waf-tools/shellcmd.py:180-184 | Only an and ends a cd |
| ShellRun.ExecPipedCommands | waf-tools/shellcmd.py:203-212 | The status of a group is the exit code of its last command |
| ShellRun.Run | waf-tools/shellcmd.py:214-346 | Starts exactly the processes of the specification, each in its directory, and ends as it says: a status, None for no nodes, IndexError for a final cd, TypeError for a cd without a directory |
| ShellDirs.StartedAt | waf-tools/shellcmd.py:225-291 | The k-th process started is the k-th command, in the directory of its place and piped if its place is, also in runs that end in an exception |
| ShellDirs.RunStartsIn | waf-tools/shellcmd.py:228 | That directory is "." without a cd before the command, the very name in the last cd before it if that begins with a slash, and otherwise that name behind the directory at the cd, with a slash between |
| ShellDirs.RunForgets | waf-tools/shellcmd.py:228 | Behind a cd to a name that begins with a slash, the directory does not depend on the starting one or on cds before |
| ShellDirs.RaisedAt | waf-tools/shellcmd.py:225-231 | A run that raises has come to a cd: at the end of the nodes an IndexError, and one that names no directory a TypeError, with all commands before it started |
| ShellDirs.ExitsWithLast | waf-tools/shellcmd.py:293-346 | Every other run has started a process and ends with the exit code of the last one started |
| ShellMeaning.PlanIffComplete | waf-tools/shellcmd.py:225-231 | A parsed pipeline has a plan of groups iff every cd names a directory and none comes last |
| ShellMeaning.RunIsRightNested | waf-tools/shellcmd.py:293-346 | On those, the run starts the processes and returns the status of the right-nested reading of the plan |
| ShellMeaning.RunsInOrder | waf-tools/shellcmd.py:293-346 | Whole groups are started from the front, at least the first, and the status is the exit code of the last process started |
| ShellMeaning.ProcessesAreCommands | waf-tools/shellcmd.py:225-291 | The plan's processes are the commands in order, each in the directory joined from the cd nodes before it and reading from a pipe iff one leads to it |
| ShellMeaning.ReadingsAgreeIffUniform | waf-tools/shellcmd.py:312-346 | The right-nested and the left-associative reading of a plan agree for all exit codes iff all operators between groups are the same; otherwise codes that refuse the first operator tell them apart |
| ShellReadings.UniformIffOneKind | waf-tools/shellcmd.py:308-346 | The operators of the plan are the And and Or nodes behind commands, those behind a cd excepted |
| PosixReading.StartsAlikeIff | waf-tools/shellcmd.py:242-289 | A process is started with the same words, directory, pipes and files by run and by a shell iff its redirections name the same files from both directories and no pipe leads to it where it reads from a file |
| PosixReading.NeverSameAgain | waf-tools/shellcmd.py:225-243 | Once a pipe has been carried past a cd, run and a shell never come to the same |
| PosixReading.SkipsSome | waf-tools/shellcmd.py:312-341 | Behind a short circuit a shell starts another process if the other operator follows |
| PosixReading.AgreeIffFits | waf-tools/shellcmd.py:222-346 | From any turn of the loop on, with any group of unawaited processes, run and a shell agree for all exit codes iff the remaining nodes fit, node by node |
| PosixCondition.FitsIffLikeShell | waf-tools/shellcmd.py:222-346 | Node by node, that is the five-part condition on the whole pipeline |
| PosixCondition.RunsAsShellIff | waf-tools/shellcmd.py:214-346 | A parsed pipeline starts the same processes, connected alike, and returns the same status as in a shell, for all exit codes, iff its cds are complete, its And and Or nodes behind commands are the same, every cd but a first one is directly behind an And, no command behind a pipe reads from a file, and its redirections name the same files from where its cds lead |
| PosixInstances.CdBehindOrIsParsed | waf-tools/shellcmd.py:121-201 | The tokens of a, or, cd d, and, b parse to the nodes of the next row |
| PosixInstances.CdBehindOrDiffers | waf-tools/shellcmd.py:312-323 | If a succeeds, run stops after it, while a shell skips the cd and starts b |
| PosixInstances.CdBehindPipeIsParsed | waf-tools/shellcmd.py:121-201 | The tokens of a, pipe, cd d, and, b parse to the nodes of the next row |
| PosixInstances.CdBehindPipeDiffers | waf-tools/shellcmd.py:225-243 | run starts b in d, reading from a; a shell starts it where it is, with no pipe |
| PosixInstances.FileBehindPipeIsParsed | waf-tools/shellcmd.py:121-201 | The tokens of a, pipe, b with input from f parse to the nodes of the next row |
| PosixInstances.FileBehindPipeDiffers | waf-tools/shellcmd.py:242-250 | In run b reads from a, and in a shell from f |
| PosixInstances.FileBehindCdIsParsed | waf-tools/shellcmd.py:121-201 | The tokens of cd d, and, a with input from f parse to the nodes of the next row |
| PosixInstances.FileBehindCdDiffers | waf-tools/shellcmd.py:244-245 | run opens f in the starting directory, and a shell in d |
| PosixInstances.MixedIsParsed | waf-tools/shellcmd.py:121-201 | The tokens of a, or, b, and, c parse to the nodes of the next row |
| PosixInstances.MixedReadsDifferently | waf-tools/shellcmd.py:312-323 | If a succeeds, run stops after it, while a shell goes on with c |
| PosixInstances.CdBetweenIsParsed | waf-tools/shellcmd.py:121-201 | The tokens of a, and, cd d, and, b, or, c parse to the nodes of the next row |
| PosixInstances.CdBetweenDiffers | waf-tools/shellcmd.py:330-341 | If a fails, run stops after it, while a shell starts c, and not in d |
| PosixInstances.CdTmpIsParsed | waf-tools/shellcmd.py:121-201 | The tokens of cd /tmp, and, a parse to the nodes of the next row |
| PosixInstances.CdTmpStartsThere | waf-tools/shellcmd.py:228 | run starts a in /tmp |
| PosixInstances.NulDiffers | waf-tools/shellcmd.py:46-50 | An output file NUL: is the null device in run and a file in a shell |
| PatchObjects.PatchChunk.Src | utils/check-style.py:269-278 | The source view: the chunk's own line objects at the positions of source and context lines |
| PatchObjects.PatchChunk.Dst | utils/check-style.py:279-288 | The destination view: the same, so context lines are shared with the source view |
| PatchObjects.PatchChunk.Write | utils/check-style.py:301-310 | Writes the header with both lengths counted anew and every line with its sign, up to the first line that was never set; an exception iff there is one |
| PatchObjects.Patch.Write | utils/check-style.py:363-372 | Writes both names and all chunks, up to the first line of any that was never set, with all that is on file by then; an exception iff there is one |
| PatchText.OnFileIsAll | utils/check-style.py:301-310 | If no line is unset, what is on file is the whole chunk and the whole patch |
| PatchPatterns.HeaderSays | utils/check-style.py:307-308 | The first line of a chunk on file is a header whose numbers, without leading zeros, are the source start, how many lines are removed or context, the destination start, and how many are added or context |
| PatchPatterns.HeaderCountsSigns | utils/check-style.py:307-310 | These two lengths are the numbers of following lines that begin with a minus or a space, and with a plus or a space |
| PatchPatterns.WrittenAreLines | utils/check-style.py:363-372 | Each string written for printable patches is one line with its end |
| PatchPatterns.HeaderIsRead | utils/check-style.py:394-398 | Every line of the form of a chunk header is read as one, with its two starts and whatever stands behind the second pair of signs |
| PatchPatterns.HeadersAreRead | utils/check-style.py:377 | No other line is |
| PatchPatterns.HeaderIsUnique | utils/check-style.py:377 | And a line has that form in one way only |
| PatchPatterns.NamesAre | utils/check-style.py:375-376 | Exactly the lines of three dashes or three pluses, a space and a name, with or without a line end, are read as file names |
| PatchPatterns.TextsAre | utils/check-style.py:378-380 | Exactly the lines of a sign and a text are read as removed, added and context lines, those that look like file names excepted |
| PatchPatterns.ReadIffPlaced | utils/check-style.py:383-417 | Reading succeeds iff no destination name or header comes before the first source name, no text line before the first header, and no line matches no pattern |
| PatchPatterns.MisplacedFails | utils/check-style.py:383-417 | The first line that breaks one of these rules ends the reading with the exception of that rule, whatever follows |
| PatchPatterns.StrayLinesGoBack | utils/check-style.py:384-404 | Text lines right behind the source name of a new patch go to the last chunk before it |
| PatchObjects.PatchSet.StartPatch | utils/check-style.py:384-389 | Begins a patch with no chunks and leaves all others as they are |
| PatchObjects.PatchSet.NameDst | utils/check-style.py:390-393 | Renames the destination of the last patch only |
| PatchObjects.PatchSet.StartChunk | utils/check-style.py:394-398 | Begins an empty chunk of the last patch |
| PatchObjects.PatchSet.AddText | utils/check-style.py:399-416 | Adds a line to the last chunk begun, also when a new patch has begun since |
| PatchObjects.ParsePatchset | utils/check-style.py:374-418 | The objects built hold, as names and values of chunks, exactly the patches that the line patterns spell out, and the first line that cannot be placed ends in its exception: AttributeError, UnboundLocalError or the plain one |
| PatchRoundTrip.ReadUndoesWriteIffClear | utils/check-style.py:374-418 | Reading what was written gives the same names, positions, kinds and texts iff no removed line begins with two dashes and a space and no added line with two pluses and a space |
| PatchRoundTrip.ConfusingLosesLines | utils/check-style.py:383-393 | When reading what was written succeeds, the lines read and the lines that look like file names add up to the lines written; with one such line reading never gives the patches back |
| PatchReread.ParsedReadsBack | utils/check-style.py:374-418 | Every patch set that was read has only names and lines that are fit to be written, and reads back as itself, with no condition |
| PatchReread.RewrittenReadsBackIff | utils/check-style.py:420-436 | What is written after the rewrite of a patch set that was read reads back as the rewritten set iff no reached pair gave a space back to a destination line of two pluses |
| PatchReread.SpacesPlusIffChain | utils/check-style.py:425-433 | That is a chain of pairs on the lines as read: from a source line of two pluses and a space that no earlier pair lengthened, over context lines of two pluses, to an added line of two pluses |
| PatchReread.SourceTextIs | utils/check-style.py:428-433 | The text of a source line in its turn, told from the lines as read |
| PatchReread.SpacesPlusWhenClean | utils/check-style.py:428-433 | In a chunk whose source view is kept, that is a pair of a source line of two pluses and a space and a destination line of two pluses, as read |
| PatchReread.RewriteCanConfuse | utils/check-style.py:420-436 | A patch that reads back before the rewrite and not after it |
| PatchText.ClassifyHeader | utils/check-style.py:307-308 | The header printed is read back as a chunk header with the same start positions |
| PatchText.ClassifyLine | utils/check-style.py:225-232 | A printed line is read back as itself, or as a file name if it is one of those |
| PatchObjects.PatchChunk.RestorePair | utils/check-style.py:429-433 | One pair: the destination object gets the source's last blank iff that makes them equal, and no other line changes |
| PatchObjects.PatchChunk.Rewrite | utils/check-style.py:425-435 | One chunk: all pairs in order on the shared objects, stopping iff the destination view is the shorter one |
| PatchObjects.PatchSet.Rewrite | utils/check-style.py:423-436 | All chunks of all patches up to and including the first that stops it are rewritten, and nothing else changes |
| PatchObjects.RemoveTrailingWhitespaceChanges | utils/check-style.py:420-436 | The objects returned hold the patches read, with exactly those chunks rewritten; a line that cannot be placed ends in its exception |
| PatchRewrite.SourceKeptIffClean | utils/check-style.py:425-435 | The source view of a chunk is unchanged iff no pair to be repaired has a context line as its destination |
| PatchRewrite.LostBlankIs | utils/check-style.py:431-433 | A source text matches the white-space pattern with the destination text as the first, greedy group iff it is that text and one space or one tab, and the second group is that character |
| PatchRewrite.DestinationAfter | utils/check-style.py:428-433 | In every chunk, a destination line ends up equal to its source line as that stood in its turn, if it lacked just one blank of it, and otherwise as it was |
| PatchRewrite.EveryLineKeptOrBlank | utils/check-style.py:425-435 | In every chunk, each line is kept, or is a destination line with one blank more |
| PatchRewrite.DestinationRepaired | utils/check-style.py:431-433 | In a chunk whose source view is kept, a destination line changes only by the one blank that makes it equal to its source line, and every pair that can be repaired so is |
| PatchRewrite.AlignedIsClean | utils/check-style.py:425-435 | It is enough that every context line has the same index in both views |
| PatchRewrite.SourceCanChange | utils/check-style.py:425-435 | A chunk whose source view the rewrite changes, without stopping early |
| PatchRewrite.RewrittenKeepsKinds | utils/check-style.py:194-200 | The rewrite keeps all kinds, and with them the lengths and positions of both views |
| PatchRewrite.RowSourcesKeptIffClean | utils/check-style.py:420-436 | All source views of a patch set are kept iff every chunk reached is clean |
| PatchRewrite.RowKeptOrBlank | utils/check-style.py:420-436 | Of a patch set, only destination lines of the chunks reached change, each by one blank at most; positions, kinds, numbers of lines and all chunks behind the one that stops the rewrite stay |
| Bits.Int2BinRoundTrip | bindings/python/rad_util.py:91-105 | For n at least 1, succeeds iff 0 <= i < 2^n, with n binary digits of value i; a KeyError for a negative i and a ValueError for one too large |
| Bits.Int2BinZeroWidth | bindings/python/rad_util.py:91-105 | For n = 0 every i of at least 0 succeeds, with its hexadecimal digits in full as binary digits |
| Bits.Bin2IntRoundTrip | bindings/python/rad_util.py:108-130 | Converting a non-empty binary string and back at its own width gives the string |
| Bits.Increment | bindings/python/rad_util.py:649-659 | One turn of the ripple-carry loop adds one in place, and the last toggle is the carry out |
| Bits.BinaryRange | bindings/python/rad_util.py:639-660 | Ends with exactly 2^bits strings, none for 0 bits, of which the k-th is k in binary |
| Permutations.Permutations | bindings/python/rad_util.py:310-326 | n! lists, exactly the rearrangements of the input, pairwise different if the input's items are |
| Permutations.WovenArePermutations | bindings/python/rad_util.py:312-322 | Putting the first item at every position of every permutation of the rest gives the permutations of the whole |
| Permutations.PermutationAt | bindings/python/rad_util.py:316-322 | They come in rows: entry i of row b is the b-th permutation of the rest with the first item put at position i |
| Cdf.CdfTable.constructor | examples/dstcp/cdf.c:4-17 | An empty table with room for 32 entries and bounds 0 and 1 |
| Cdf.CdfTable.Resize | examples/dstcp/cdf.c:44-54 | Twice the room in a new array, the same contents |
| Cdf.CdfTable.Load | examples/dstcp/cdf.c:41-64 | Appends all lines in order whatever their number, and widens the bounds to the smallest and the largest cdf |
| Cdf.LoadedMinIsZero | examples/dstcp/cdf.c:58-59 | Without a negative cdf the lower bound stays 0 |
| Cdf.LoadedMaxIsLast | examples/dstcp/cdf.c:60-61 | With nondecreasing cdfs the upper bound is the last one, or 1 if that is more |
| Cdf.BoundsAreMet | examples/dstcp/cdf.c:58-61 | The bounds enclose all cdfs loaded, and each is one of them or the value before loading |
| Cdf.CdfTable.Avg | examples/dstcp/cdf.c:81-106 | The area of the trapezia between neighbouring points, from the origin on |
| Cdf.CdfTable.GenRandom | examples/dstcp/cdf.c:123-144 | The loop returns the sample defined by the first entry whose cdf reaches x |
| CdfMath.FoundSegment | examples/dstcp/cdf.c:129-141 | On a table that is nonnegative and never falls, the cdf rises on the segment interpolated on, except that a first entry can be met at x = 0, where equal cdfs take the other branch of interpolate, so nothing is divided by zero |
| CdfMath.SampleInRange | examples/dstcp/cdf.c:129-143 | On such a table samples lie between 0 and the last value, and are the last value beyond the last cdf |
| CdfMath.SampleMonotone | examples/dstcp/cdf.c:129-143 | On such a table samples never fall when x grows |
| CdfMath.SampleAtZero | examples/dstcp/cdf.c:108-114 | On such a table the sample at 0 is 0, or half the first value if that has cdf 0 |
| CdfMath.InvertedIffRising | examples/dstcp/cdf.c:108-114 | On such a table the piecewise-linear distribution function takes every sample up to the last cdf back to its x iff the value rises wherever the cdf does, counting from the origin |
| CdfMath.ShippedTableIsRising | examples/dstcp/DCTCP_CDF.txt:1-12 | The table of the example is one on which all of this holds |
| CdfMath.RefinedSamplesSame | examples/dstcp/cdf.c:129-141 | Putting an interpolated point with positive cdf into such a table changes no sample |
| CdfMath.RefinedIsTable | examples/dstcp/cdf.c:129-141 | And leaves a table of the same kind, so any number of points can be put in |
| CdfMath.RefinedAverageSame | examples/dstcp/cdf.c:90-103 | Nor does it change the average |
| CdfMean.AverageIsMean | examples/dstcp/cdf.c:81-106 | On such a table, for every division of the numbers from 0 to the last cdf, the average lies between the sums of the steps times the samples at their starts and at their ends |
| CdfMean.SumsClose | examples/dstcp/cdf.c:81-106 | With steps of at most d these sums differ by at most d times the range of the samples, so the average is the integral of the sampler |
| CdfMean.AverageBetween | examples/dstcp/cdf.c:90-103 | And it lies between the sum of the rises of the cdf times the values before them and the sum of the rises times the values they lead to, counting from the origin |

## Left out

- Generators: `topsort_levels`, `topsort_levels_core` and `find_cycles` return the list of everything they would yield; a consumer that changes a yielded list, or stops early, is not modelled.
- Dictionary order: any order of the keys is allowed, fixed during one walk; Python's actual order is not modelled. Items are an abstract type with equality.
- `StaticInformation` beyond the search: attribute and trace printing, `Print`, `RecordAggregationInfo` with its lookup by name, and the types without an id. The type registry is an input; `Uniquefy` has no effect and is left out.
- The loops of `DoGather`, of `load_cdf` and of the rewrite are methods of their own here; the order of their steps is the source's.
- `test.py` beyond the job protocol: options, the lists of tests, XML and HTML output, the printed progress lines. Running a job always returns, with any return code. There is at least one worker.
- Python's threads are steps of a transition relation rather than code: a worker's turn is split at the queue operations, at the test of the interrupt flag and at the job's end. A job is a value that moves between places, so a job read while another thread changes it is not modelled; by the invariant no job is ever in two places.
- `examples/dstcp/fat-tree.cc`: 32-bit wrap-around of the index arithmetic, the ns-3 objects behind the links (devices, channels, addresses, queues, routing), `serverAddresses`, and the flows themselves. Random draws are arguments, below the number of servers; the source's draw can hit that bound itself when the generator returns its maximum.
- PickDestination: returns None when the given draws run out, because the source's loop ends with probability 1 only.
- `shellcmd.py`: splitting a string into tokens (`shlex`), opening and closing files, failing system calls, environment values of the running process, the verbose output and `get_abbreviated_command`. Exit codes are inputs, in the order in which the processes are started.
- The comparison with a shell is of parsed pipelines. How words become nodes is not part of it: quoting and expansion, which words count as assignments, and the order of redirections, which nodes do not keep. Every command is a program of its own that can be started, every cd succeeds, and a cd behind a pipe is in a subshell, as the standard has it unless a shell extends it.
- `check-style.py`: running the indenter and the diff tool, temporary files, the command line, and assertions switched off by an option of the interpreter. Regular expressions are modelled by what they match on a line. Patterns are those of one line with at most one line end at its end; a line end elsewhere makes a pattern fail.
- The local variables of `parse_patchset` (the patches, the current patch and the current chunk) are fields of one object here, so that one invariant can speak of them.
- `rad_util.py`: `int2bin` with a negative width, `bin2int` on strings that are not binary digits (Python's `int` accepts signs, spaces and a prefix), and the rest of the file.
- `cdf.c`: doubles are reals and allocation succeeds. Null tables, lines that `sscanf` cannot read or that are longer than the buffer, and the random draw are not modelled; a table is sampled only once it has an entry.
- Tables in `cdf.c` with a negative or falling value or cdf: loading, averaging and sampling are modelled for them too, but range, monotonicity, refinement and inversion are stated for tables that are nonnegative and never fall.
- `utils/grid.py`, the other example programs, binding generation and build configuration.
