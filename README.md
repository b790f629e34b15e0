# Verified model of the CP Optimizer examples' own logic

The repository is a set of example programs for IBM ILOG CP Optimizer (C++ and Java).
Most of their work happens inside the closed solver library. This project models, in Dafny,
the parts the examples implement themselves, and proves what those parts promise:

- **The job-shop black box** (`examples/src/cpp/sched_jobshop_blackbox.cpp`):
  - `Array2` addressing and the one-block memory layout of `PrecedenceGraphSimulator`;
  - the simulator itself, a class over arrays: `reinit`, `addPrecedence`, `setDuration`,
    `simulate` (a Kahn-style topological pass with an explicit stack), and the integer
    sum behind `getAverageMakespan`;
  - the glue around it: reading the instance, numbering operations `i*nbMachines+j`, and
    the job-chain and machine-sequence precedences `MakespanAVG` adds.
  - `simulate` is proved to solve the longest-path equations of the precedence graph, with
    each makespan the largest end of its sample. The graph is acyclic exactly when every
    incoming count reaches 0, and on an acyclic graph the solution is unique.
- **Frequency allocation** (`src/Allocation.java`):
  - the prefix-sum transmitter index `getTransmitterIndex`, proved in bounds and injective;
  - the two constraint loop nests, proved to post each intended pair exactly once with
    the right separation.
- **The `BoundsCallback` state machine**, in three copies:
  - `examples/src/cpp/callbacks.cpp`, `examples/src/java/Callbacks.java` and `src/Callbacks.java`;
  - one pure transition (`BoundsTracking`) specifies all three classes;
  - the C++ stream-flag guard is modelled as well.
- **The two facility models** (`src/FacilityExplanations.java`, `src/PlantLocation.java`):
  - the `DataReader` over a token stream, with Java's `(int)` cast;
  - the data layouts, with decode/encode round trips;
  - `totalDemand` in 32-bit arithmetic;
  - the posted constraints as `Feasible` predicates and the objectives as functions;
  - the result report and the starting point.

Modules follow the programs:

| module | models |
|---|---|
| `JobShopLayout` | the `Array2` view and the simulator's single block |
| `JobShopGraph` | the precedence graph, the longest-path equations and the invariants of `simulate`, on values |
| `JobShopSimulator` | the `PrecedenceGraphSimulator` class |
| `JobShopModel` | the reading, the numbering and the precedence construction |
| `Allocation` | the frequency-allocation example |
| `BoundsTracking` | the shared transition |
| `CppCallbacks`, `JavaExampleCallbacks`, `SrcCallbacks` | the three classes |
| `TokenReader` | the tokenizer-backed reader |
| `JavaInt` | Java's 32-bit `int` |
| `CpExpr` | the objective expressions |
| `FacilityExplanations` | the facility-explanations program |
| `PlantLocation`, `PlantStart` | the plant-location program |
| `Registry` | the engine's list of registered callbacks, shared by the C++ and Java copies |
| `Wrappers`, `SeqMath` | shared helpers |

Inputs the programs take from outside become parameters:

- the solver's answers to `getObjValue`, `getObjBound`, `getObjGap` and the solve time;
- the order of the machine sequences;
- the sampled durations;
- the final solution values;
- the token stream of the data file.

## Model

| member | source | states |
|---|---|---|
| JobShopLayout.Row | examples/src/cpp/sched_jobshop_blackbox.cpp:106 | `a[i]`, the address `base + i*width` that `operator[]` returns for row `i` |
| JobShopLayout.At | examples/src/cpp/sched_jobshop_blackbox.cpp:106 | `a[i][k]`, the address `k` cells after the start of row `i` |
| JobShopLayout.AtInRegion | examples/src/cpp/sched_jobshop_blackbox.cpp:106 | row `i` of an `Array2` starts `i*width` cells after its base, and every cell of the first `rows` rows lies in the `rows*width` region from the base |
| JobShopLayout.AtInjective | examples/src/cpp/sched_jobshop_blackbox.cpp:106 | two cells within the row width share an address only when they are the same row and column |
| JobShopLayout.LayoutPartition | examples/src/cpp/sched_jobshop_blackbox.cpp:150-159 | the seven regions the constructor carves (durations, ends, makespan, nbIncoming, nbIncoming0, head, outgoing) follow one another in that order, every cell of the `2nm+m+(4+w)n` block belongs to exactly one of them, and none reaches outside the block |
| JobShopLayout.LayoutConsecutive | examples/src/cpp/sched_jobshop_blackbox.cpp:150-159 | the regions are contiguous, from offset 0 to the block size |
| JobShopLayout.ViewsInRegions | examples/src/cpp/sched_jobshop_blackbox.cpp:151-159 | every `[i][k]` access through the durations, ends and outgoing views stays inside the region allotted to that view |
| JobShopLayout.OutgoingEnd | examples/src/cpp/sched_jobshop_blackbox.cpp:156-159 | the outgoing rows end exactly at the end of the block and begin right after `head` |
| JobShopLayout.Fill | examples/src/cpp/sched_jobshop_blackbox.cpp:163-164 | a `memset` changes exactly the cells of its range, to its value |
| JobShopLayout.ReinitAsWritten | examples/src/cpp/sched_jobshop_blackbox.cpp:162-165 | `reinit` as written: `n` zeroes from `nbIncoming0`, then `n*3` cells of -1 from the start of `outgoing`, whatever `w` is; no result when that fill passes the end of the block (the as-written half of the entry under "## Findings") |
| JobShopLayout.Reinit | examples/src/cpp/sched_jobshop_blackbox.cpp:162-165 | `reinit` with the size the constructor gave `outgoing` at line 159: `n` zeroes from `nbIncoming0`, then `n*(w+1)` cells of -1 (the corrected half of the entry under "## Findings") |
| JobShopLayout.ReinitEmpties | examples/src/cpp/sched_jobshop_blackbox.cpp:162-165 | the corrected `reinit` zeroes every `nbIncoming0` entry, turns every slot of every successor row into -1, and leaves the cells before `nbIncoming0` and the `head` region alone |
| JobShopLayout.ReinitAsWrittenAtWidthTwo | examples/src/cpp/sched_jobshop_blackbox.cpp:162-165 | with the out-degree bound 2 the job shop uses, `reinit` as written equals the corrected one |
| JobShopLayout.ReinitAsWrittenCounterexample | examples/src/cpp/sched_jobshop_blackbox.cpp:164 | with four nodes and bound 3 the hard-coded `n*3` never reaches row 3, whose slots all keep their old non-negative values; with one node and bound 3 the row's last slot keeps its old value; with bound 1 the fill writes past the block |
| JobShopSimulator.PrecedenceGraphSimulator.constructor | examples/src/cpp/sched_jobshop_blackbox.cpp:138-160 | allocates regions of the constructor's sizes, fresh and pairwise distinct |
| JobShopSimulator.PrecedenceGraphSimulator.Reinit | examples/src/cpp/sched_jobshop_blackbox.cpp:162-165 | models the corrected fill `JobShopLayout.Reinit` of `n*(w+1)` successor cells, which equals line 164's `n*3` only when `w == 2`, the bound the program uses (`JobShopLayout.ReinitAsWrittenAtWidthTwo`; see "## Findings"): afterwards the graph has no edge, every successor row is empty and the incoming counts agree with it |
| JobShopSimulator.PrecedenceGraphSimulator.AddPrecedence | examples/src/cpp/sched_jobshop_blackbox.cpp:167-172 | appends `j` to row `i` after the successors already there, keeps the -1 terminator, adds one to `nbIncoming0[j]` and changes no other count |
| JobShopSimulator.PrecedenceGraphSimulator.SetDuration | examples/src/cpp/sched_jobshop_blackbox.cpp:123 | changes exactly the duration of node `i` in sample `s` |
| JobShopSimulator.PrecedenceGraphSimulator.StartNode | examples/src/cpp/sched_jobshop_blackbox.cpp:181-184 | a source's ends become its durations and each makespan becomes the larger of itself and the new end |
| JobShopSimulator.PrecedenceGraphSimulator.Relax | examples/src/cpp/sched_jobshop_blackbox.cpp:192-195 | relaxing `h -> i` raises each end of `i` to at least `ends[h][j] + durations[i][j]`, changes no other node, and folds the result into the makespans |
| JobShopSimulator.PrecedenceGraphSimulator.ZeroEnds | examples/src/cpp/sched_jobshop_blackbox.cpp:177 | every end becomes 0 |
| JobShopSimulator.PrecedenceGraphSimulator.Clear | examples/src/cpp/sched_jobshop_blackbox.cpp:175-177 | makespans and ends are 0 and each working count is the node's in-degree, whatever an earlier run left |
| JobShopSimulator.PrecedenceGraphSimulator.Visit | examples/src/cpp/sched_jobshop_blackbox.cpp:180-186 | one round of the source loop keeps the loop invariant: the pushed nodes are the sources seen so far, each pushed once |
| JobShopSimulator.PrecedenceGraphSimulator.PushSources | examples/src/cpp/sched_jobshop_blackbox.cpp:179-187 | after the first loop the stack holds each source once, sources end at their durations, and the worklist invariant holds with nothing finished |
| JobShopSimulator.PrecedenceGraphSimulator.Expand | examples/src/cpp/sched_jobshop_blackbox.cpp:190-199 | relaxing every edge out of a popped node keeps the worklist invariant; a target is pushed once, when its count reaches 0, and the stack stays within `n` |
| JobShopSimulator.PrecedenceGraphSimulator.ProcessNext | examples/src/cpp/sched_jobshop_blackbox.cpp:189-199 | one round of the worklist loop finishes one node that was not finished before, after every node with an edge into it |
| JobShopSimulator.PrecedenceGraphSimulator.Simulate | examples/src/cpp/sched_jobshop_blackbox.cpp:174-201 | every node whose count reaches 0 satisfies its longest-path equation (a source ends at its duration, any other node at the largest predecessor end plus its duration), each makespan is the largest end of its sample, and the graph is acyclic exactly when every count reaches 0 |
| JobShopSimulator.PrecedenceGraphSimulator.MakespanSum | examples/src/cpp/sched_jobshop_blackbox.cpp:204-207 | returns the sum of the per-sample makespans |
| JobShopGraph.InDegree | examples/src/cpp/sched_jobshop_blackbox.cpp:167-168 | the number of successor slots, over all rows, that name `x`: the count `addPrecedence` leaves in `_nbIncoming0[x]` |
| JobShopGraph.Equation | examples/src/cpp/sched_jobshop_blackbox.cpp:179-199 | the longest-path equation `simulate` solves: a node with no predecessor ends at its duration (line 182); any other node ends at the largest of 0 (line 177) and `end[h] + duration` over its predecessors `h` (line 193) |
| JobShopGraph.MakespanOK | examples/src/cpp/sched_jobshop_blackbox.cpp:175-194 | `makespan[j]` starts at 0 (line 175) and is raised to every end of sample `j` (lines 183 and 194): it is the largest of 0 and the ends |
| JobShopGraph.Acyclic | examples/src/cpp/sched_jobshop_blackbox.cpp:188-200 | some rank grows along every edge: the condition under which the worklist of lines 188-200 finishes every node |
| JobShopGraph.RelaxRow | examples/src/cpp/sched_jobshop_blackbox.cpp:193 | each new end is the larger of the old end and the predecessor's end plus the duration |
| JobShopGraph.MaxRow | examples/src/cpp/sched_jobshop_blackbox.cpp:194 | each new makespan is the larger of the old one and the new end |
| JobShopGraph.SpanStep | examples/src/cpp/sched_jobshop_blackbox.cpp:194 | folding a node's new ends into the makespans keeps every makespan the largest end of its sample |
| JobShopGraph.EdgeAdded | examples/src/cpp/sched_jobshop_blackbox.cpp:168-171 | appending `j` to row `i` adds one incoming edge to `j` and none to any other node |
| JobShopGraph.NoEdges | examples/src/cpp/sched_jobshop_blackbox.cpp:163-164 | a graph of empty rows has in-degree 0 everywhere |
| JobShopGraph.InitStart | examples/src/cpp/sched_jobshop_blackbox.cpp:175-177 | after the clearing calls, the invariant of the source loop holds before the first node |
| JobShopGraph.InitStep | examples/src/cpp/sched_jobshop_blackbox.cpp:180-186 | visiting a node pushes it exactly when its count is 0, with its durations as ends |
| JobShopGraph.InitDone | examples/src/cpp/sched_jobshop_blackbox.cpp:187-188 | after the source loop, the worklist invariant holds with nothing finished |
| JobShopGraph.PendingAdd | examples/src/cpp/sched_jobshop_blackbox.cpp:196 | finishing a node removes exactly its edges from every pending count |
| JobShopGraph.EdgePending | examples/src/cpp/sched_jobshop_blackbox.cpp:196 | an edge from an unfinished node is still counted, so a decrement never goes below 0 |
| JobShopGraph.NoPendingEdges | examples/src/cpp/sched_jobshop_blackbox.cpp:196-197 | a node whose count is 0 has all its predecessors finished |
| JobShopGraph.RelaxStep | examples/src/cpp/sched_jobshop_blackbox.cpp:190-199 | relaxing the next edge of the node being expanded keeps the worklist invariant; the target has a positive count and has not been pushed yet |
| JobShopGraph.PopStep | examples/src/cpp/sched_jobshop_blackbox.cpp:189 | a popped node has all its predecessors finished |
| JobShopGraph.FinishStep | examples/src/cpp/sched_jobshop_blackbox.cpp:190-199 | after its last edge, the expanded node counts as finished |
| JobShopGraph.StackPop | examples/src/cpp/sched_jobshop_blackbox.cpp:189 | the popped node was pushed and is not finished |
| JobShopGraph.StackPush | examples/src/cpp/sched_jobshop_blackbox.cpp:197 | pushing a node not pushed before keeps the stack's nodes distinct and its height equal to pushed minus finished |
| JobShopGraph.StackFinish | examples/src/cpp/sched_jobshop_blackbox.cpp:188-200 | finishing the expanded node keeps the stack accounting |
| JobShopGraph.FinishedEquation | examples/src/cpp/sched_jobshop_blackbox.cpp:179-199 | a finished node satisfies its longest-path equation |
| JobShopGraph.AcyclicAllDone | examples/src/cpp/sched_jobshop_blackbox.cpp:188-200 | when the worklist runs dry on an acyclic graph, every node has been finished |
| JobShopGraph.OrderStep | examples/src/cpp/sched_jobshop_blackbox.cpp:189-199 | finishing a node whose predecessors are all finished extends the finishing order |
| JobShopGraph.OrderRanks | examples/src/cpp/sched_jobshop_blackbox.cpp:188-200 | if every node is finished, the finishing order ranks the graph, so it is acyclic |
| JobShopGraph.EquationsUnique | examples/src/cpp/sched_jobshop_blackbox.cpp:174-201 | on an acyclic graph two end tables that both satisfy every equation are equal, so the result of `simulate` is the longest-path end table, whatever the state before it |
| JobShopGraph.UpperBound | examples/src/cpp/sched_jobshop_blackbox.cpp:193 | for two solutions that agree on a node's predecessors, the node's end in the second is at most its end in the first; applied both ways the end is determined |
| JobShopGraph.EquationNonNegative | examples/src/cpp/sched_jobshop_blackbox.cpp:193 | with non-negative durations, a node with predecessors ends at some predecessor's end plus its own duration |
| JobShopModel.DecodeJobShop | examples/src/cpp/sched_jobshop_blackbox.cpp:312-326 | succeeds exactly when both counts are non-negative and the stream holds a (machine, min, max) triple for every operation; the instance then has those counts and tables of that shape |
| JobShopModel.ReadJobShop | examples/src/cpp/sched_jobshop_blackbox.cpp:312-326 | the reading loops produce the decoded instance |
| JobShopModel.EncodeLength | examples/src/cpp/sched_jobshop_blackbox.cpp:319-325 | an encoded instance holds two counts and three numbers per operation |
| JobShopModel.EncodeAt | examples/src/cpp/sched_jobshop_blackbox.cpp:324 | each field of each operation sits at its read position in the stream |
| JobShopModel.DecodeEncode | examples/src/cpp/sched_jobshop_blackbox.cpp:312-326 | reading back a written instance, whatever follows it, gives the instance |
| JobShopModel.OpId | examples/src/cpp/sched_jobshop_blackbox.cpp:346 | operation `j` of job `i` is node `i*nbMachines + j`, as `setObject` numbers it and line 237 uses it |
| JobShopModel.OpIdBijection | examples/src/cpp/sched_jobshop_blackbox.cpp:346 | operation `(i,j)` gets a node below `nbJobs*nbMachines` from which `i` and `j` are recovered by quotient and remainder, so distinct operations get distinct nodes |
| JobShopModel.OpIdOnto | examples/src/cpp/sched_jobshop_blackbox.cpp:346 | every node is the number of some operation |
| JobShopModel.JobChain | examples/src/cpp/sched_jobshop_blackbox.cpp:236-237 | the edges `i*nbMachines+j-1 -> i*nbMachines+j` for `j = 1 .. nbMachines-1`, in the inner loop's order |
| JobShopModel.JobPairs | examples/src/cpp/sched_jobshop_blackbox.cpp:235-237 | the job chains of the first `k` jobs, job after job, as the first loop nest adds them |
| JobShopModel.Pairs | examples/src/cpp/sched_jobshop_blackbox.cpp:240-242 | the edges `p -> c` between consecutive operations of one machine sequence, in sequence order |
| JobShopModel.MachinePairs | examples/src/cpp/sched_jobshop_blackbox.cpp:239-242 | the sequence edges of every machine, machine after machine, as the second loop nest adds them |
| JobShopModel.JobChainFacts | examples/src/cpp/sched_jobshop_blackbox.cpp:236-237 | a job's chain edges have distinct sources and go forward inside the job's block of nodes |
| JobShopModel.JobPairsFacts | examples/src/cpp/sched_jobshop_blackbox.cpp:235-237 | all job-chain edges name nodes and no two leave the same node |
| JobShopModel.JobPairsMembers | examples/src/cpp/sched_jobshop_blackbox.cpp:235-237 | the job-chain edges are exactly the links from operation `j-1` to operation `j` of each job |
| JobShopModel.PairsMembers | examples/src/cpp/sched_jobshop_blackbox.cpp:240-242 | the edges of one machine sequence are exactly its consecutive pairs |
| JobShopModel.MachinePairsMembers | examples/src/cpp/sched_jobshop_blackbox.cpp:239-242 | the machine edges are exactly the consecutive pairs of every machine sequence |
| JobShopModel.MachinePairsFacts | examples/src/cpp/sched_jobshop_blackbox.cpp:239-242 | when no operation appears twice across the sequences, the machine edges name nodes and no two leave the same node |
| JobShopModel.TargetsAtMostOne | examples/src/cpp/sched_jobshop_blackbox.cpp:235-242 | in an edge list whose sources are distinct, each node has at most one successor |
| JobShopModel.PrecedenceGraph | examples/src/cpp/sched_jobshop_blackbox.cpp:232-242 | the graph one evaluation builds has one row per operation |
| JobShopModel.PrecedenceRow | examples/src/cpp/sched_jobshop_blackbox.cpp:235-242 | a node's row is its job successor, if any, then its machine successor, if any; it has at most two nodes, all in range |
| JobShopModel.OutDegreeBound | examples/src/cpp/sched_jobshop_blackbox.cpp:229 | every node of the built graph has at most `MaxOutDegree` = 2 successors, the bound given to the simulator, and every successor is a node |
| JobShopModel.AddEdge | examples/src/cpp/sched_jobshop_blackbox.cpp:237 | one `addPrecedence` from the edge list finds room in its row and leaves the graph of the edges added so far |
| JobShopModel.AddJobChain | examples/src/cpp/sched_jobshop_blackbox.cpp:236-237 | the inner loop adds job `i`'s chain to the chains of the earlier jobs |
| JobShopModel.AddMachineSequence | examples/src/cpp/sched_jobshop_blackbox.cpp:240-242 | the inner loop adds machine sequence `j`'s consecutive pairs after the earlier ones |
| JobShopModel.AddJobShopPrecedences | examples/src/cpp/sched_jobshop_blackbox.cpp:232-242 | `reinit` followed by both loop nests leaves exactly the precedence graph of the instance and sequences |
| JobShopModel.SetOperationDurations | examples/src/cpp/sched_jobshop_blackbox.cpp:258-269 | the sample loop sets operation `x`'s durations to its samples and no other operation's |
| JobShopModel.SetDurations | examples/src/cpp/sched_jobshop_blackbox.cpp:251-278 | after the loops the duration table is the sampled table |
| JobShopModel.EvaluateMakespan | examples/src/cpp/sched_jobshop_blackbox.cpp:219-288 | one evaluation creates the simulator at the first call with `nbJobs*nbMachines` nodes, 30 samples and bound 2, then rebuilds the graph and stores the sampled durations. The ends it computes obey the longest-path equations of that graph, each makespan is its sample's largest end, acyclicity is detected, and the returned total is the sum of the makespans |
| Allocation.PrefixSum | src/Allocation.java:40-44 | the total `idx` that the while loop accumulates over the cells before `cell` |
| Allocation.Holds | src/Allocation.java:57 | `cp.ge(cp.abs(cp.diff(freq[t1], freq[t2])), gap)`: both indices address `freq` and the two frequencies differ by at least `gap` |
| Allocation.AllHold | src/Allocation.java:54-70 | every posted separation holds |
| Allocation.Solution | src/Allocation.java:52-70 | one frequency in `0 .. nbAvailFreq-1` per transmitter (line 52, `intVarArray(nbTransmitters, 0, nbAvailFreq-1)`) and every posted separation holds |
| Allocation.IntraCell | src/Allocation.java:55-59 | the separations of one cell's first `k` channels against its later channels, in the order the two inner loops post them |
| Allocation.Intra | src/Allocation.java:54-60 | the separations of the first loop nest after `k` cells, in posting order |
| Allocation.InterCell | src/Allocation.java:63-69 | the separations of cell `c1` against the cells before `k`, skipped where `dist[c1][c2] <= 0` (line 64) |
| Allocation.Inter | src/Allocation.java:62-70 | the separations of the second loop nest after `k` first cells, in posting order |
| Allocation.TransmitterIndex | src/Allocation.java:39-46 | defined exactly when the loop stays inside `nbChannel` (cell at most the number of cells) |
| Allocation.GetTransmitterIndex | src/Allocation.java:39-46 | the while loop returns the channels of the cells before `cell` plus `channel`, in 32-bit arithmetic, and fails for a cell past the table |
| Allocation.PrefixSumMonotone | src/Allocation.java:42-44 | the index of a cell's first channel never decreases with the cell and stays between 0 and the total |
| Allocation.IndexStep | src/Allocation.java:42-44 | the next cell starts `nbChannel[c]` indices after cell `c` |
| Allocation.Index | src/Allocation.java:39-46 | a transmitter's index lies in its cell's block `[sum before, sum before + nbChannel[cell])` and involves no wrap-around |
| Allocation.NbTransmitters | src/Allocation.java:51 | `getTransmitterIndex(nbCell, 0)` is the total channel count |
| Allocation.ChannelTotal | src/Allocation.java:8-10 | the example's 25 cells hold 148 channels, no count negative |
| Allocation.DistShape | src/Allocation.java:11-37 | the distance table has 25 rows of 25 |
| Allocation.InstanceFacts | src/Allocation.java:6-51 | the example's tables satisfy every assumption of the proofs, and `nbTransmitters` is 148 |
| Allocation.IndexInBounds | src/Allocation.java:51-52 | every transmitter's index addresses the `freq` array |
| Allocation.IndexInjective | src/Allocation.java:39-46 | two transmitters share an index exactly when they are the same cell and channel |
| Allocation.IntraCellConstraints | src/Allocation.java:55-59 | the two inner loops of one cell append that cell's rows of within-cell constraints |
| Allocation.IntraConstraints | src/Allocation.java:54-60 | the first loop nest posts the within-cell enumeration of every cell |
| Allocation.IntraRow | src/Allocation.java:56-58 | the innermost loop for `channel_1`: one separation of 16 between it and each later channel of its cell, in order |
| Allocation.IntraRowFacts | src/Allocation.java:56-58 | one channel's row holds its distinct pairs with the later channels of its cell |
| Allocation.IntraCellFacts | src/Allocation.java:55-59 | a cell's constraints are distinct, name its channels, and are exactly its pairs |
| Allocation.IntraFacts | src/Allocation.java:54-60 | the within-cell constraints of the first `k` cells are distinct and exactly their pairs |
| Allocation.IntraExactlyOnce | src/Allocation.java:54-60 | within each cell every pair of channels `a < b` is constrained exactly once, at distance 16, and nothing else is posted |
| Allocation.InterBlockConstraints | src/Allocation.java:65-69 | the two innermost loops append every channel of `cell1` against every channel of `cell2` |
| Allocation.InterCellConstraints | src/Allocation.java:63-69 | the middle loop appends the blocks of `cell1` with every later cell at positive distance |
| Allocation.InterConstraints | src/Allocation.java:62-70 | the second loop nest posts the between-cell enumeration of every cell |
| Allocation.InterRow | src/Allocation.java:66-69 | the innermost loop for `channel1`: one separation at `dist[cell1][cell2]` between it and each channel of `cell2`, in order |
| Allocation.InterBlock | src/Allocation.java:65-69 | the rows of the first `k` channels of `cell1` against `cell2`, as the two innermost loops post them |
| Allocation.InterRowFacts | src/Allocation.java:66-69 | one channel's row against a cell holds one distinct constraint per channel of that cell, at the cells' distance |
| Allocation.InterBlockSpans | src/Allocation.java:65-69 | a block's constraints are distinct and name a channel of each of the two cells |
| Allocation.InterBlockPairs | src/Allocation.java:65-69 | a block holds exactly the channel pairs of the two cells |
| Allocation.InterCellBounds | src/Allocation.java:63-69 | the constraints of one cell with the later cells are distinct |
| Allocation.InterCellMembers | src/Allocation.java:63-69 | they are exactly its pairs with later cells at positive distance |
| Allocation.InterBounds | src/Allocation.java:62-70 | all between-cell constraints are distinct |
| Allocation.InterMembers | src/Allocation.java:62-70 | they are exactly the pairs of the first cells with later cells |
| Allocation.InterExactlyOnce | src/Allocation.java:62-70 | each channel pair of two cells `c1 < c2` with `dist[c1][c2] > 0` is constrained exactly once, at that distance; no pair at distance 0 and nothing else is posted |
| Allocation.ConstraintsInBounds | src/Allocation.java:54-70 | every posted constraint names two transmitters, so every `freq[...]` lookup is in bounds |
| Allocation.IntraHold | src/Allocation.java:54-60 | the within-cell constraints hold exactly when every channel pair of a cell is far enough apart |
| Allocation.InterHold | src/Allocation.java:62-70 | the between-cell constraints hold exactly when every channel pair of two cells at positive distance is that far apart |
| Allocation.SolutionMeans | src/Allocation.java:52-70 | a frequency plan satisfies the posted model exactly when it has one frequency in `0..255` per transmitter and keeps the required separations, stated cell by cell without the enumeration |
| BoundsTracking.Update | examples/src/cpp/callbacks.cpp:73-84 | `Solution` sets `ub` to `getObjValue()` and `ObjBound` sets `lb` to `getObjBound()`; `getObjGap()` is read into `gap` only when the other bound is finite (lines 76-77 and 82-83); a failing query stops with the fields as they are at that point |
| BoundsTracking.Separator | examples/src/cpp/callbacks.cpp:69-72 | an empty line before a `Solution` or `ObjBound` update exactly when both bounds were finite before it |
| BoundsTracking.Respond | examples/src/cpp/callbacks.cpp:52-99 | one `invoke` for the three copies (also examples/src/java/Callbacks.java lines 39-84 and src/Callbacks.java lines 16-54), parameterised by each copy's texts: the preamble, then the banner on `StartSolve`, the closing line on `EndSolve`, or the separator, the field update and a status line once both bounds are finite; a failing query stops it with `raised` |
| BoundsTracking.Run | examples/src/cpp/callbacks.cpp:102-108 | the solve's events delivered in order to one callback; the first invocation that throws ends the run |
| BoundsTracking.StartSolveResets | examples/src/cpp/callbacks.cpp:57-61 | `StartSolve` forgets the fields, whatever they held, and writes the header |
| BoundsTracking.EndSolveKeeps | examples/src/cpp/callbacks.cpp:62-65 | `EndSolve` keeps all three fields and only writes its closing line |
| BoundsTracking.OtherReasonKeeps | examples/src/cpp/callbacks.cpp:66-69 | any other reason leaves the fields unchanged |
| BoundsTracking.SolutionEffect | examples/src/cpp/callbacks.cpp:73-78 | `Solution` sets `ub` to the objective value and keeps `lb`; it changes `gap` only when `lb` was already known |
| BoundsTracking.ObjBoundEffect | examples/src/cpp/callbacks.cpp:79-84 | `ObjBound` sets `lb` to the bound and keeps `ub`; it changes `gap` only when `ub` was already known |
| BoundsTracking.GapGuarded | examples/src/cpp/callbacks.cpp:73-84 | the gap changes only on a `Solution` with `lb` known or an `ObjBound` with `ub` known |
| BoundsTracking.SeparatorIff | examples/src/cpp/callbacks.cpp:69-72 | an update starts with a separator newline exactly when both bounds were known before the event |
| BoundsTracking.StatusIff | examples/src/cpp/callbacks.cpp:86-97 | an event other than `StartSolve`/`EndSolve` ends with a status line exactly when both bounds are known after it |
| BoundsTracking.RaisesOnlyOnFailure | examples/src/cpp/callbacks.cpp:73-95 | an invocation leaves with an exception only if one of the solver queries fails |
| BoundsTracking.GapMeaningfulPreserved | examples/src/cpp/callbacks.cpp:73-84 | given finite solver answers, a gap other than the initial one is only ever held once both bounds are known, and every event keeps this |
| BoundsTracking.RunGapMeaningful | examples/src/cpp/callbacks.cpp:73-84 | a whole run of events keeps that property |
| BoundsTracking.RunForgetsPast | examples/src/cpp/callbacks.cpp:57-61 | a run that begins with `StartSolve` does not depend on the fields before it |
| BoundsTracking.RespondPreamble | src/Callbacks.java:18 | the announcement line comes before anything an event writes and changes nothing after it |
| BoundsTracking.RunRaisedStays | examples/src/java/Callbacks.java:80-83 | once an invocation has thrown, no later event is handled |
| CppCallbacks.BoundsCallback.constructor | examples/src/cpp/callbacks.cpp:46 | a new callback writes to the given stream and starts with nothing known |
| CppCallbacks.BoundsCallback.Init | examples/src/cpp/callbacks.cpp:47-51 | `lb = -inf`, `ub = +inf`, `gap = +inf` |
| CppCallbacks.BoundsCallback.Invoke | examples/src/cpp/callbacks.cpp:52-99 | the fields and the stream's text follow the shared transition, with this copy's header and closing line; the guard puts the float-field flags back on every exit, and the precision is back unless a query threw after it was set to 1 |
| CppCallbacks.Deliver | examples/src/cpp/callbacks.cpp:106 | delivering the next event extends the run, and after an exception the rest of the run is fixed |
| CppCallbacks.Engine.constructor | examples/src/cpp/callbacks.cpp:104 | an engine writes to the given stream `cp.out()` and has no callback registered |
| CppCallbacks.Engine.AddCallback | examples/src/cpp/callbacks.cpp:105 | the callback is registered after the others |
| CppCallbacks.Engine.RemoveCallback | examples/src/cpp/callbacks.cpp:107 | every registration of the callback is removed |
| CppCallbacks.SolveWithCallback | examples/src/cpp/callbacks.cpp:102-108 | the engine's stream receives the output of the whole run of events and its flags are unchanged; on a normal exit the registered callbacks are as before, and after an exception (which skips line 107) the callback stays registered after the earlier ones |
| JavaExampleCallbacks.BoundsCallback.constructor | examples/src/java/Callbacks.java:33 | a new callback starts with nothing known |
| JavaExampleCallbacks.BoundsCallback.Init | examples/src/java/Callbacks.java:34-38 | `lb = -inf`, `ub = +inf`, `gap = +inf` |
| JavaExampleCallbacks.BoundsCallback.Invoke | examples/src/java/Callbacks.java:39-84 | the fields and standard output follow the shared transition with this copy's texts; a failing query adds the fatal message on standard error and ends the program with status -1 |
| JavaExampleCallbacks.Exit | examples/src/java/Callbacks.java:80-83 | the catch block writes the fatal message on the error stream and sets exit status -1 |
| JavaExampleCallbacks.Engine.AddCallback | examples/src/java/Callbacks.java:90 | the callback is registered after the others |
| JavaExampleCallbacks.Engine.RemoveCallback | examples/src/java/Callbacks.java:92 | every registration of the callback is removed |
| Registry.Without | examples/src/java/Callbacks.java:92 | `removeCallback` (also callbacks.cpp line 107) keeps exactly the other callbacks: the removed one is gone, every other one stays, and nothing new appears |
| Registry.WithoutAdded | examples/src/java/Callbacks.java:89-92 | removing a freshly added callback (also callbacks.cpp lines 104-107) gives back the previous list |
| JavaExampleCallbacks.Deliver | examples/src/java/Callbacks.java:91 | delivering the next event extends the run, and after an exception the rest of the run is fixed |
| JavaExampleCallbacks.SolveWithCallback | examples/src/java/Callbacks.java:87-93 | the console's stdout receives the output of the whole run of events; an exception adds the fatal message to stderr and ends the program with status -1, and otherwise stderr is unchanged and the engine's callbacks are as before |
| SrcCallbacks.BoundsCallback.constructor | src/Callbacks.java:9 | a new callback starts with nothing known |
| SrcCallbacks.BoundsCallback.Init | src/Callbacks.java:10-14 | `lb = -inf`, `ub = +inf`, `gap = +inf` |
| SrcCallbacks.BoundsCallback.Invoke | src/Callbacks.java:16-54 | every invocation prints the announcement first; the fields and output then follow the shared transition with this copy's header and "End Callback" line; a failing query prints the fatal message and exits with -1 |
| SrcCallbacks.BoundsCallback.Dispatch | src/Callbacks.java:19-49 | the branches after the announcement follow the shared transition |
| SrcCallbacks.Exit | src/Callbacks.java:50-53 | the catch block writes the fatal message on the error stream and sets exit status -1 |
| TokenReader.Nval | src/FacilityExplanations.java:27-29 | the tokenizer's `nval` after `k` calls of `nextToken`: 0 before any number, then the last number token's value, kept across words and the end of the input |
| TokenReader.ReadsFrom | src/FacilityExplanations.java:27-30 | the values of `n` consecutive `next()` calls after `start` earlier ones, in order |
| TokenReader.Rows | src/FacilityExplanations.java:60-64 | `rows` consecutive rows of `width` reads each, row after row, as the nested reading loops consume them |
| TokenReader.Read | src/FacilityExplanations.java:27-30 | every `next()` returns a 32-bit `int` |
| TokenReader.DataReader.constructor | src/FacilityExplanations.java:21-25 | a new reader has read nothing |
| TokenReader.DataReader.Next | src/FacilityExplanations.java:27-30 | each `next()` advances one token and returns the value of the last number token, narrowed to `int` |
| TokenReader.ReadNumber | src/FacilityExplanations.java:27-30 | a number token within the `int` range is read back as itself |
| TokenReader.ReadWord | src/FacilityExplanations.java:27-30 | a word token repeats the previous value, or 0 at the start |
| TokenReader.ReadPastEnd | src/FacilityExplanations.java:27-30 | past the end of the input every call repeats the last value read before the end |
| TokenReader.ReadInto | src/FacilityExplanations.java:54-56 | a loop filling an array with `next()` stores the next `a.length` reads |
| TokenReader.ReadsAt | src/FacilityExplanations.java:54-59 | a run of number tokens is read back as its values, wherever it sits in the input |
| TokenReader.ReadRows | src/FacilityExplanations.java:60-64 | the nested loops read `rows` rows of `width` values each |
| TokenReader.RowsAt | src/FacilityExplanations.java:60-64 | the tokens of a table are read back as the table, wherever they sit |
| CpExpr.Eval | src/FacilityExplanations.java:76-78 | the value of a built expression: `scalProd` the sum of coefficient times `open` value, `element` the row's entry at the variable's value, `sum` the sum of both sides |
| JavaInt.Wrap32 | src/PlantLocation.java:44 | the result of `+=` is in the `int` range, congruent to the exact sum modulo 2^32, and equal to it when it fits |
| JavaInt.DoubleToInt | src/FacilityExplanations.java:29 | `(int)` of a double rounds toward zero and saturates at the ends of the `int` range |
| JavaInt.Wrap32Add | src/PlantLocation.java:44 | adding to a wrapped total wraps like adding to the exact total, so a `+=` loop yields the wrapped sum |
| FacilityExplanations.DecodeFacility | src/FacilityExplanations.java:45-64 | succeeds exactly when both counts are non-negative (otherwise `new int[n]` throws); the instance then has those counts and arrays of the matching sizes |
| FacilityExplanations.ReadFacility | src/FacilityExplanations.java:45-64 | the reading loops produce the decoded instance and consume exactly `2 + 2*nbLocations + nbStores*nbLocations` tokens |
| FacilityExplanations.DecodeEncode | src/FacilityExplanations.java:45-64 | reading back a written instance, whatever follows it, gives the instance |
| FacilityExplanations.EncodedCounts | src/FacilityExplanations.java:45-46 | the two counts come first |
| FacilityExplanations.EncodedCapacities | src/FacilityExplanations.java:54-56 | the capacities follow the counts |
| FacilityExplanations.EncodedFixedCosts | src/FacilityExplanations.java:57-59 | the fixed costs follow the capacities |
| FacilityExplanations.EncodedCosts | src/FacilityExplanations.java:60-64 | the cost table comes last, one row per store |
| FacilityExplanations.SuppliersInRange | src/FacilityExplanations.java:66 | one `supplier` per store, each in `0 .. nbLocations-1` |
| FacilityExplanations.InDomain | src/FacilityExplanations.java:66-67 | the domains of `supplier` (line 66) and of `open`, each 0 or 1 (line 67) |
| FacilityExplanations.Feasible | src/FacilityExplanations.java:66-74 | within the domains, every store's supplier is open (line 70) and no location serves more stores than its capacity (line 73) |
| FacilityExplanations.AssignCost | src/FacilityExplanations.java:77-79 | the sum of `cost[p][supplier[p]]` over the first `k` stores |
| FacilityExplanations.Objective | src/FacilityExplanations.java:76-79 | `scalProd(open, fixedCost)` plus every store's cost at its supplier |
| FacilityExplanations.Holds | src/FacilityExplanations.java:69-74 | what one posted constraint means: `element(open, supplier[p]) == 1` (line 70) or `count(supplier, q) <= capacity[q]` (line 73) |
| FacilityExplanations.PostConstraints | src/FacilityExplanations.java:69-74 | within the variable domains, the posted constraints hold exactly when every store's supplier is open and no location supplies more stores than its capacity |
| FacilityExplanations.ObjectiveExpr | src/FacilityExplanations.java:76-79 | the expression `obj` after `k` rounds of the loop: `scalProd(open, fixedCost)` plus `element(cost[p], supplier[p])` for `p < k`, in that order |
| FacilityExplanations.ObjectiveExprValue | src/FacilityExplanations.java:76-79 | the partial objective is the open fixed costs plus the first stores' costs at their suppliers |
| FacilityExplanations.PostObjective | src/FacilityExplanations.java:76-79 | the objective expression equals `sum open[q]*fixedCost[q] + sum cost[p][supplier[p]]` for every assignment in the domains |
| FacilityExplanations.CountsWithinOpenCapacity | src/FacilityExplanations.java:69-74 | in a feasible plan the stores served by the first `n` locations fit in their open capacity |
| FacilityExplanations.CapacityCovers | src/FacilityExplanations.java:69-74 | a feasible plan opens capacity for every store |
| FacilityExplanations.Served | src/FacilityExplanations.java:106-109 | the stores below `k` whose supplier is `q`, in increasing order, as the inner loop prints them |
| FacilityExplanations.ReportLines | src/FacilityExplanations.java:102-112 | one line for each open facility below `k`, in increasing order, listing the stores it serves |
| FacilityExplanations.PrintReport | src/FacilityExplanations.java:102-112 | the report loop produces one line per open facility with the stores it serves |
| FacilityExplanations.ServedFacts | src/FacilityExplanations.java:106-109 | the stores listed for a facility are exactly those it supplies, in increasing order |
| FacilityExplanations.ReportFacts | src/FacilityExplanations.java:102-104 | the report names exactly the open facilities, in increasing order |
| FacilityExplanations.ReportStores | src/FacilityExplanations.java:106-109 | every line lists exactly the stores of its facility |
| FacilityExplanations.ReportListsEveryStore | src/FacilityExplanations.java:102-112 | with a feasible plan, every store appears under its own supplier and under no other facility |
| PlantLocation.DecodePlant | src/PlantLocation.java:29-53 | succeeds exactly when both counts are non-negative; the instance then has those counts and arrays of the matching sizes |
| PlantLocation.TotalDemand | src/PlantLocation.java:40-45 | `totalDemand` is an `int` and equals the sum of the demands whenever that sum fits |
| PlantLocation.ReadPlant | src/PlantLocation.java:29-53 | the reading loops produce the decoded instance and its wrapped total demand, consuming exactly the instance's tokens |
| PlantLocation.ReadTail | src/PlantLocation.java:40-53 | after the costs come the demands (summed), the fixed costs and then the capacities |
| PlantLocation.ReadDemand | src/PlantLocation.java:42-45 | the demand loop stores the next reads and accumulates their sum with Java's wrapping `+=` |
| PlantLocation.DecodeEncode | src/PlantLocation.java:29-53 | reading back a written instance, whatever follows it, gives the instance |
| PlantLocation.EncodedHead | src/PlantLocation.java:29-38 | the counts and then the cost rows come first |
| PlantLocation.EncodedDemands | src/PlantLocation.java:40-45 | the demands follow the cost table |
| PlantLocation.EncodedFixedCosts | src/PlantLocation.java:46-49 | the fixed costs follow the demands |
| PlantLocation.EncodedCapacities | src/PlantLocation.java:50-53 | the capacities come last |
| PlantLocation.CustInRange | src/PlantLocation.java:56-59 | one `cust` per customer, each in `0 .. nbLocation-1` |
| PlantLocation.InDomain | src/PlantLocation.java:56-64 | the domains of `cust` (line 58), of `open`, 0 or 1 (line 63), and of `load[w]`, `0 .. capacity[w]` (line 64) |
| PlantLocation.Load | src/PlantLocation.java:67 | the demand of the first `k` customers assigned to warehouse `w`, the sum `pack` makes `load[w]` equal to |
| PlantLocation.Linked | src/PlantLocation.java:65 | `open[w] == (load[w] > 0)` for every warehouse |
| PlantLocation.Packed | src/PlantLocation.java:67 | `pack(load, cust, demand)`: every load is the total demand of the customers assigned to it |
| PlantLocation.Feasible | src/PlantLocation.java:56-67 | the domains, the open/load link of line 65 and the `pack` of line 67 all hold |
| PlantLocation.AssignCost | src/PlantLocation.java:70-72 | the sum of `cost[c][cust[c]]` over the first `k` customers |
| PlantLocation.Objective | src/PlantLocation.java:69-72 | `scalProd(fixedCost, open)` plus every customer's cost at its warehouse |
| PlantLocation.Holds | src/PlantLocation.java:60-67 | what one posted constraint means: `open[w] == (load[w] > 0)` (line 65) or the `pack` of line 67 |
| PlantLocation.PostConstraints | src/PlantLocation.java:60-67 | within the variable domains, the posted constraints hold exactly when each warehouse is open just when it carries load and each load is the total demand assigned to it |
| PlantLocation.FeasibleDetermined | src/PlantLocation.java:56-67 | the assignment alone decides a feasible plan: the loads are the packed demands, a warehouse is open exactly when its load is positive, and the plan is feasible exactly when the loads fit the capacities |
| PlantLocation.LoadConservation | src/PlantLocation.java:67 | each assigned customer's demand is counted in exactly one warehouse's load |
| PlantLocation.LoadWithinOpenCapacity | src/PlantLocation.java:64-67 | in a feasible plan the loads of the first `n` warehouses fit in their open capacity |
| PlantLocation.DemandFits | src/PlantLocation.java:75 | a feasible plan opens enough capacity for the whole demand: the total demand is at most the scalar product of `open` and `capacity` |
| PlantLocation.ObjectiveExpr | src/PlantLocation.java:69-72 | the expression `obj` after `k` rounds of the loop: `scalProd(fixedCost, open)` plus `element(cost[c], cust[c])` for `c < k`, in that order |
| PlantLocation.ObjectiveExprValue | src/PlantLocation.java:69-72 | the partial objective is the open fixed costs plus the first customers' costs at their warehouses |
| PlantLocation.PostObjective | src/PlantLocation.java:69-73 | the objective expression equals `sum fixedCost[w]*open[w] + sum cost[c][cust[c]]` for every assignment in the domains |
| PlantStart.StartValues | src/PlantLocation.java:81-86 | the table holds 90 warehouse numbers, each in `0..29` |
| PlantStart.StartFrom | src/PlantLocation.java:89-91 | the starting-point loop gives customer `c` the value `values[c]`, and fails at the first customer past the end of the table |
| PlantStart.StartingPoint | src/PlantLocation.java:81-91 | the starting point exists exactly when there are at most 90 customers, and is the first `nbCustomer` table values |
| PlantStart.StartInDomain | src/PlantLocation.java:56-91 | the starting point lies in the assignment domain when there are at least 30 warehouses, and leaves it when a customer starting at warehouse 29 exists but there are fewer |

## Left out

- The solver is not modelled: search, propagation, explanations (`explainFailure`), parameters and `solve()`. Its answers and the final solution values are parameters.
- The duration sampling of `MakespanAVG` is not modelled: its range splitting, random shuffling and floating-point rounding. The sampled table is a parameter.
- JobShopModel.EvaluateMakespan: returns the integer sum of the makespans, not the floating-point division by the sample count that `getAverageMakespan` performs.
- JobShopModel.DecodeJobShop: the C++ reads with `>>` and never checks. A short stream or a negative count is refused here with a `Truncated` or `NegativeSize` error, which the program does not have.
- The C++ `IloInt` values are 64 bits wide. They are unbounded integers here; overflow of durations, ends or sums is not modelled.
- JobShopSimulator.PrecedenceGraphSimulator.AddPrecedence: requires that row `i` has fewer than `w` successors. The C++ does not check, and a full row would lose its -1 terminator and spill into the next row. `JobShopModel.OutDegreeBound` shows the job-shop glue never adds more than 2 successors to a row.
- JobShopSimulator.PrecedenceGraphSimulator.Simulate: on a cyclic graph, nodes whose count stays positive are not characterised. Only the nodes the pass reached satisfy the equations.
- The simulator's regions are separate Dafny arrays, not one block. `JobShopLayout` proves the block layout on offsets. Aliasing between views of the block is therefore not modelled.
- The rest of `main` in the job-shop program is not modelled: creation of interval variables, precedence constraints, the no-overlap constraints and the objective. These are calls into the solver library.
- `getNext`/`getFirst` on sequence variables: machine sequences are given as lists of node numbers.
- JobShopModel.EvaluateMakespan requires `SeqsOK`: every machine sequence names nodes below `nbJobs*nbMachines`, and no operation appears twice across the sequences. The black box at sched_jobshop_blackbox.cpp:239-242 never checks this. It holds because each sequence variable ranges over one machine's interval variables `mchOps[j]` (lines 346-348), each numbered by `setObject` with a distinct `i*nbMachines+j`, and a sequence visits each of its intervals at most once. The model takes that guarantee of the solver as an assumption and does not derive it.
- Allocation: the proofs hold for every network whose tables have the example's shape. `InstanceFacts` ties the 25-cell literal tables to that shape.
- Allocation: the `countDifferent` objective and the solution print-out are not modelled.
- BoundsTracking: the infinities are modelled as an extended real (`NegInf`, `Finite`, `PosInf`) rather than an option. This keeps which sentinel a field holds, and lets the solver itself report an infinite value.
- The formatting of the status line (`\r` overwrite, precisions, `%` sign) is left out. A `Status` event carries the time, both bounds and the gap.
- The text of the exception appended to the fatal messages is left out.
- CppCallbacks.BoundsCallback.Invoke: when a query throws, the partial status text already written before the throw is not modelled.
- CppCallbacks.BoundsCallback.Invoke: when `getInfo` throws while the status line is being written, the stream keeps precision 1 (or its old precision, if the query ran before the manipulators), as the code at lines 88-96 does. `OstreamGuard` (lines 37-44) restores only `flags()`, which in C++ does not hold the precision, and the saved `p` is put back only on the normal exit. The contract states exactly this. It is not recorded as a finding: the exception leaves `solve` and reaches `main` (lines 127-129), which writes only the text `Caught: ` and the exception before the program ends, so no number is ever printed at the wrong precision.
- The callbacks' `IloCP` handle and the other callback reasons are not modelled beyond the fact that they leave the fields alone.
- `SolveWithCallBack` in `src/Callbacks.java` is not modelled: it repeats the example's add/solve/remove, which `JavaExampleCallbacks.SolveWithCallback` covers.
- The tokenizer's character-level scanning is left out: number syntax, comments, quotes and end-of-line handling. The input is a sequence of already-classified tokens.
- In the plant-location model, `cost` rows are sequences built row by row, not a Java `int[][]` filled in place. The tokens each row reads are the same.
- The `addKPI` ratios (mean occupancy, minimum capacity usage) are floating point and are left out. `DemandFits` states the integer inequality behind the first: the total demand is at most the open capacity. It does not make that ratio at most one when no capacity is open. A plan with no customers and every warehouse closed is feasible, and then line 75 divides 0 by 0.
- The `setParameter`, `setStartingPoint` and `cp.solution` calls are left out.
- In FacilityExplanations, the report's first two outputs (lines 100-101) are not modelled: the blank line and the "Optimal value: …" line, including the `int` cast of the objective value. `PrintReport` covers only the per-facility lines 102-112.

## Findings

| source | as written | input that shows it | evidently intended | confidence | as-written member | corrected member |
|---|---|---|---|---|---|---|
| examples/src/cpp/sched_jobshop_blackbox.cpp:164 | `reinit` fills `n*3` outgoing cells with -1, whatever the out-degree bound `w` passed to the constructor | four nodes, one sample, `w == 3`: the 37-cell block puts `outgoing` at cell 21 with rows of 4, and the 12-cell fill stops at cell 32, so row 3 (cells 33 to 36) keeps its old non-negative values, which `addPrecedence` and `simulate` read as successors that no precedence added; with `w == 1` the fill runs past the end of the block. The program itself only uses `w == 2`, where the two agree | fill the `n*(w+1)` cells the constructor allocated to `outgoing` | not executed; latent, since only `w == 2` is used | JobShopLayout.ReinitAsWrittenCounterexample | JobShopLayout.ReinitEmpties |
