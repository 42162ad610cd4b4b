# libane in Dafny

libane compiles small tensor graphs for the Apple Neural Engine. It builds a graph, validates it, cuts it into
fused chains, lowers each chain to one straight-line program, and runs the programs over pooled buffers; beside
that it keeps an LRU cache of compiled programs and patches captured HWX binaries. This project models that
logic and proves what it promises. `dafny verify dfyconfig.toml` checks everything.

The main results:

- **What a fused run returns.** For every graph built through the API, every table of op emitters and every
  prior content of the reused buffers, the fused, buffered run returns at each node-produced output what running
  the groups with surfaces bound by position gives, and what node-by-node evaluation gives if every group the
  outputs depend on has its input ids in decimal order (`Executor.FusionPreservesMeaning`, `Executor.Execute`).
  Where no group lists an input twice that condition is exact (`Evaluation.OutcomeIsReference`,
  `Symbolic.RightIffInOrder`). All rest on the correctness of lowering (`Mil.GroupComputes`), where
  running a program fails on an unassigned read, a second assignment or a missing weight file, so success includes
  single assignment in the body and hygiene of the generated names.
- **The greedy cut is minimal** among all cuts into runs the extension test allows (`Fusion.GreedyIsMinimal`).
- **Validation** of every API-built graph comes down to a table of arities, weight lengths and shapes per op
  (`Acceptance.ValidatedIff`), and the weight files of the lowered program hold the weights in the layout the code
  declares: a MATMUL's transposed, so that the convolution is the product (`Weights.MatmulFile`,
  `MatmulFileConvolves`).
- **Kahn's pass** processes all nodes if and only if the node list is acyclic (`Validator.ProcessAll`).
- **The cache** under every interleaving of two-phase lookups, stores, handle releases and flushes: index and
  list agree, entries are in strictly decreasing order of last use, answers are the latest store, programs are
  released exactly when unreferenced, and entries are conserved (`CacheRuns`).
- **Layouts and generators**: matmul as 1x1 convolution, the column-slice dispatch, four-dimensional transpose,
  pixel shuffle and the piecewise-linear activation, over exact arithmetic and unbounded sizes.
- **The HWX patcher**: what a relocation moves, keeps and makes readable again, and, for every patch that stays in
  its buffer, exactly when the new configuration reads back (`HwxReadBack.PatchReadsBack`) and when the header
  points at the moved section (`HwxHeader.OffsetFollows`, `AddressFollows`).
- **The buffer pool** over all runs: no buffer is idle and lent; a returned buffer is kept exactly when there is
  room, and a new one is made exactly when all of its size are lent (`Pool.ReturnedIsKept`, `AcquireReuses`).

Properties that one would expect but that do not hold of the code are stated with an input that shows it and
with their exact condition:

- A graph input marked as output passes validation (`Witnesses.InputAsOutput`); execution succeeds exactly when
  every marked output is produced by a node (`Executor.Execute`).
- `GraphCompiler::compile` is documented never to throw. It throws exactly on validated graphs with a CAST, a
  TRANSPOSE, a CONCAT or a PIXEL_SHUFFLE outside the emitters' shape limits (`Emitters.ThrowsExactly`,
  `Compiler.Compile`; `Witnesses.CastThrows`, `TransposeThrows`, `ConcatThrows`, `PixelShuffleThrows`).
- ADD(x, x) gives its group a duplicated input (`Witnesses.AddTwiceDuplicates`); a group's inputs, and the
  parameters of its program, are distinct exactly when its head reads no tensor twice
  (`Fusion.DuplicatedInputs`, `Mil.GroupComputes`).
- Fusion does not always preserve meaning. The signature of a fused program is sorted by name, the surfaces come
  in group order, and the runtime binds them by position: the names it would reorder by are those before a `:` in
  the signature, which the fused signature does not have (`src/runtime/ane_runtime.mm:455-497`, `797-820`).
  Binding by position is right for a group of distinct inputs exactly when their ids are in decimal order
  (`Binding.SignatureOrder`, `PositionalComputes`, `PositionalIffDecimalOrder`), and a whole run of such groups is
  right on every backend and all inputs exactly when that holds of every group the outputs depend on
  (`Evaluation.OutcomeIsReference`, `Symbolic.RightIffInOrder`). Decimal order is dictionary order: 10 comes before
  2, as the shorter id is compared with the leading digits of the longer one (`NameOrder.DictionaryOrder`,
  `DecimalOrderInNumbers`). As whole executions, SUB(t1, t0) computes t0 - t1 and SUB(t2, t10) computes t10 - t2
  (`Subtraction.OneMinusZero`, `TwoMinusTen`); `Subtraction.SubExecutes` says what every SUB(x, y) computes.
- The allocation search can exhaust its tries and keep a size that does not fit (`Alloc.SearchCanRunDry`); the
  size kept fits exactly when some size within reach is aligned for every channel count (`Alloc.ChooseAlloc`).
- A patch need not read back. A replaced address can overlap the section-size field of an emitted file
  (`Hwx.SizeCanBeMisread`), and a short op can be wiped where the longer old text ended
  (`HwxReadBack.ShortOpIsWiped`). It reads back exactly when the relocation neither wipes nor replaces an op word
  by another value and the scan leaves the bits that the word count takes from the size field
  (`HwxReadBack.PatchReadsBack`, `EmitReadsBack`); between layouts of 24 to 2^30 - 1 words with the constant section
  in the file, exactly when no replaced address changes those bits (`Hwx.RelocationReadsBack`).
- Validation accepts norms whose weight file is shorter or longer than the constant their code declares: it
  measures the scales by the output's channels, the emitter by the input's (`Acceptance.NormFileTooShort`). The
  files of a validated node have the declared sizes exactly when it is no norm that changes the number of channels
  (`Weights.FilesFillIff`).
- A patch can write outside its buffer (`Hwx.EmitCanLeaveBuffer`), exactly when it shrinks a text that lies
  neither in the file nor in the grown buffer (`Hwx.PatchOp`).
- A piecewise-linear table given from right to left uses only its first and last segment (`Pwl.ReversedValue`);
  the code interpolates exactly when the bounds are in order or the samples lie on one line
  (`Pwl.InterpolatesIff`; `Pwl.ReversedTent`), and is continuous exactly when the bounds are in order or those two
  lines meet (`Pwl.LipschitzIff`; `Pwl.ReversedStep`).
- The column-slice dispatch equals the full matmul under all weights exactly when the padding columns are zero
  (`Layout.SliceIsFullIffPadded`; `Layout.SliceDropsColumn`).
- A cached answer is the program that the latest store for its key compiled, which is the asking entry point's own
  exactly when that entry point made the store (`CachePrograms.AnswerIsLastMakers`, `OneEntryPoint`); a run that
  mixes `libane_matmul_f16` and `libane_compile` gets the other's (`CachePrograms.MixedAnswers`).

Where code and comments disagree the model follows the code: `add_input` says the sequence length must be a
multiple of 8, the shape check demands a positive multiple of 16.

| file | content |
|---|---|
| Names, Sequences, Arith | generated names; sequences; index arithmetic |
| Graph | the graph builder and its invariant |
| Validator, Acceptance | edges, cycles, reachability, per-op checks; the table they amount to |
| Fusion | consumer counts, the extension test, the greedy cut |
| Mil, Weights | programs, emitter templates, lowering of a group; the contents of weight files |
| Binding, NameOrder | binding surfaces to parameters by position; the order of the signature |
| Evaluation, Symbolic | node-by-node values, values bound by position, and when the two agree; the terms that show it |
| Emitters | the emitters' own shape checks, and what validation leaves of them |
| Alloc, Pool, Compiler, Executor | allocation search, buffer pool, compilation, execution |
| Cache, CacheRuns, CachePrograms | the compile cache, its runs, and whose program an answer is |
| Layout, Transpose, Pwl | layouts and code generators |
| Hwx, HwxReadBack, HwxHeader | the HWX patcher and its capture cache; when a patch reads back; what its header says |
| Witnesses, Subtraction | graphs that pass validation and are then not handled as expected |

## Model

| member | source | states |
|---|---|---|
| Graph.AneGraph.AllocTensor | src/graph/ane_graph.cpp:14-24 | appends one tensor under the next id, everything else unchanged |
| Graph.AneGraph.DeclareInput | src/graph/ane_graph.cpp:28-34 | new state is the specified call's, or unchanged when the shape is rejected |
| Graph.AneGraph.AppendOp | src/graph/ane_graph.cpp:38-76 | new state is the specified call's, or unchanged when the shape or an input id is rejected |
| Graph.AneGraph.Mark | src/graph/ane_graph.cpp:80-91 | new state is the specified call's, or unchanged when the id is out of range |
| Graph.AfterKeepsWellFormed | src/graph/ane_graph.cpp:28-91 | every builder call keeps the graph invariant: ids are positions, inputs older than outputs, producers and weight-file names consistent |
| Graph.BuiltIsWellFormed | src/graph/ane_graph.cpp:28-91 | the invariant holds after every sequence of builder calls |
| Graph.SessionRecorded | src/graph/ane_graph.cpp:28-91 | the graph of a session holds its accepted calls as given and in call order: shapes, ops with inputs and weights, inputs, and output marks |
| Graph.InputComesFromEarlierNode | src/graph/ane_graph.cpp:46-53 | a node's input is a graph input or the output of a strictly earlier node |
| Names.DigitsInjective | src/graph/ane_graph.cpp:65-69 | two ids never have the same decimal rendering |
| Names.TensorVarInjective | src/graph/mil_backend.cpp:23-25 | tensor variables of different tensors differ |
| Names.VariableStems | src/graph/mil_backend.cpp:299-303 | a fragment's output and all its internal variables lead back to one tensor, so fragments never share names |
| Names.WeightFilesDistinct | src/graph/mil_backend.cpp:305-330 | weight files and derived beta files of any two nodes all differ |
| Validator.BuildProducers | src/graph/graph_validator.cpp:99-104 | the producer map, with later nodes overriding earlier ones and graph inputs |
| Validator.BuildDegrees | src/graph/graph_validator.cpp:106-124 | in-degree is the number of distinct predecessors; successor lists invert the predecessor relation without duplicates |
| Validator.PrecedesIff | src/graph/graph_validator.cpp:99-124 | a node precedes another if and only if the other reads its output and no later node outputs that tensor |
| Validator.ProcessAll | src/graph/graph_validator.cpp:95-149 | for every node list whose ids are positions, all nodes are processed if and only if there is no cycle |
| Validator.KahnVerdict | src/graph/graph_validator.cpp:133-148 | once the queue is empty, all nodes are in the order if and only if no closed walk exists |
| Validator.WalkAdvances | src/graph/graph_validator.cpp:133-141 | along a walk, positions in the processing order strictly increase |
| Validator.StuckWalk | src/graph/graph_validator.cpp:133-148 | from an unprocessed node unprocessed predecessors can be followed forever |
| Validator.CheckEdges | src/graph/graph_validator.cpp:59-91 | reports nothing if and only if every input is defined earlier and every output is defined |
| Validator.CheckReachability | src/graph/graph_validator.cpp:153-180 | reports nothing if and only if every output is reached by the forward pass |
| Validator.DefinedIff | src/graph/graph_validator.cpp:59-91 | a tensor is defined before a node if and only if it is an input or an earlier node's output |
| Validator.ReachedIff | src/graph/graph_validator.cpp:153-180 | a tensor is reached if and only if it is an input or the output of an earlier node all of whose inputs were reached before it |
| Validator.ApiGraphsPass | src/graph/graph_validator.cpp:59-180 | for every sequence of builder calls the edge, cycle and reachability checks report nothing |
| Validator.Validate | src/graph/graph_validator.cpp:17-33 | no error if and only if all checks pass; for API-built graphs that is inputs and outputs present and the per-node checks alone |
| Validator.ValidatedNodes | src/graph/graph_validator.cpp:184-330 | a node that passes has one to three inputs, an op that is supported or CAST, and weights where the op needs them |
| Acceptance.ValidatedIff | src/graph/graph_validator.cpp:184-560 | an API-built graph validates if and only if it has inputs and outputs and each node follows the table of arity, weight bytes and shapes of its op |
| Acceptance.PassesIsRule | src/graph/graph_validator.cpp:184-560 | the checks of one node, for every op and every arity, amount to that table |
| Acceptance.NormFileTooShort | src/graph/graph_validator.cpp:217-229 | an RMSNORM from more to fewer channels validates, and its file does not fill the scale its code declares |
| Fusion.BuildConsumerCount | src/graph/fusion_rules.cpp:70-89 | the count of a tensor is the number of its occurrences as node input plus as graph output |
| Fusion.SoleConsumer | src/graph/fusion_rules.cpp:109-111 | a count of one means that no other input position and no graph output refers to the tensor |
| Fusion.ComputeGroups | src/graph/fusion_rules.cpp:136-198 | the loop yields the cut of the insertion order into maximal chains of adjacent fusable nodes, each with its inputs and output |
| Fusion.ExtendIsPairTest | src/graph/fusion_rules.cpp:93-132 | on graphs built through the API the extension test is equivalent to a test of the adjacent pair |
| Fusion.CutIsPartition | src/graph/fusion_rules.cpp:150-195 | the groups concatenate to exactly the insertion order |
| Fusion.SharedGroupIff | src/graph/fusion_rules.cpp:93-132 | two adjacent nodes share a group if and only if the second is no CONV2D, CAST or unknown op, reads the first's output as its first input, and that tensor is read nowhere else and not marked |
| Fusion.GreedyIsMinimal | src/graph/fusion_rules.cpp:136-198 | no cut into consecutive runs legal under the extension test has fewer groups |
| Fusion.SideInputsAreExternal | src/graph/fusion_rules.cpp:121-129 | inside a run no input position of any arity, except the chain input, is produced by the run |
| Fusion.RunInputsElements | src/graph/fusion_rules.cpp:161-190 | a group's inputs are exactly its head's inputs, first and in order, and the other nodes' side inputs |
| Fusion.AddNewFront | src/graph/fusion_rules.cpp:161-171 | side inputs join a group one by one in reading order, each once |
| Fusion.GroupInputsAvailable | src/graph/fusion_rules.cpp:161-171 | every tensor a group reads is a graph input or the output of a strictly earlier group |
| Fusion.MarkedOutputsAreGroupOutputs | src/graph/fusion_rules.cpp:83-86 | a marked output that a node produces is never fused away |
| Fusion.DuplicatedInputs | src/graph/fusion_rules.cpp:161-190 | a group lists no input twice if and only if its head reads no tensor twice |
| Mil.FragmentRuns | src/graph/mil_backend.cpp:298-303 | naming is hygienic: a fragment run inside a program computes what its template computes and touches only names of its own node |
| Mil.EntriesDistinct | src/graph/mil_backend.cpp:305-331 | every weight file of a program, beta files included, is supplied once |
| Mil.NormWeightsSplit | src/graph/mil_backend.cpp:306-318 | a layer norm supplies the two halves of its weights, in order, under its own and the derived file name; they make up the weights if and only if the length is even |
| Mil.RunFiles | src/graph/mil_backend.cpp:305-331 | each node of a group finds its own weights under its own file names |
| Weights.TransposedFile | src/core/mil_builder.cpp:151-163 | the loops make the specified data of a transposed file |
| Weights.MatmulFile | src/graph/mil_backend.cpp:320-325 | a validated MATMUL from IC to OC channels is supplied with one file of 2*IC*OC bytes, in which cell c*IC + r is weight cell r*OC + c |
| Weights.MatmulFileConvolves | src/core/mil_builder.cpp:1134-1168 | under any decoding of cells, the 1x1 convolution of channel-major activations with that file is the product of the activations with the weights |
| Weights.OtherFile | src/graph/mil_backend.cpp:326-330 | every op but MATMUL and the layer norms is supplied with one file that holds its weights unchanged, or none if it has none |
| Weights.NormFiles | src/graph/mil_backend.cpp:306-318 | a validated layer norm of C output channels is supplied with the first 2*C bytes under its own name and the last 2*C under the derived one |
| Weights.FilesFillIff | src/core/mil_builder.cpp:1134-1232 | the files of a validated node have the sizes of the constants its code declares if and only if it is no norm that changes the number of channels |
| Mil.ReadsBound | src/graph/mil_backend.cpp:296-303 | each name a fragment reads is a parameter or an earlier variable and holds that input's value |
| Mil.NameIsFree | src/graph/mil_backend.cpp:296-303 | no name of a node is in use before its fragment |
| Mil.ValuesSolveEquations | src/graph/graph_executor.cpp:58-140 | the reference evaluation gives every node its meaning on the values it reads |
| Mil.CompileGroup | src/graph/mil_backend.cpp:278-337 | the lowering loop yields the specified program: sorted signature, fragments in order, last variable, weight entries; or fails where an emitter throws |
| Mil.GroupComputes | src/graph/mil_backend.cpp:278-337 | the program of a group runs to completion on its inputs' values and returns the value of the group's last node; weight files are supplied once; parameters are declared once if and only if the head reads no tensor twice |
| Mil.SortNamesPermutes | src/core/mil_builder.cpp:2336-2341 | the signature is a permutation of the inputs |
| Mil.SortNamesSorts | src/core/mil_builder.cpp:2336-2341 | the signature is alphabetical |
| Mil.SortedFixpoint | src/core/mil_builder.cpp:2336-2341 | sorting leaves the inputs alone if and only if they are alphabetical |
| NameOrder.DictionaryOrder | src/core/mil_builder.cpp:2337-2341 | one name comes no later than another if and only if it is a prefix of it or smaller at the first difference |
| NameOrder.DecimalOrderInNumbers | src/core/mil_builder.cpp:2337-2341 | ids are in decimal order if and only if each leads the next: the shorter is compared with the leading digits of the longer and comes first if equal |
| NameOrder.TenBeforeTwo | src/core/mil_builder.cpp:2337-2341 | 10 comes before 2, and 2 before 20 |
| NameOrder.SignatureOfTwoAndTen | src/core/mil_builder.cpp:2337-2351 | a program that reads t2 and t10 has the signature t10, t2 |
| Mil.ParamsDistinct | src/core/mil_builder.cpp:2345-2351 | the signature declares no parameter twice if and only if the head of the run reads no tensor twice |
| Binding.SignatureOrder | src/core/mil_builder.cpp:2336-2351 | a group's signature is in group order if and only if the input ids are in decimal order |
| Binding.PositionalComputes | src/graph/graph_executor.cpp:119-139 | with ids in that order, binding the surfaces by position computes the value of the group's last node |
| Binding.PositionalIffDecimalOrder | src/graph/graph_executor.cpp:119-139 | for distinct inputs, binding by position gives every input its value, whatever the values, if and only if the ids are in decimal order |
| Evaluation.GroupResultRuns | src/graph/graph_executor.cpp:119-139 | the program of a group, its surfaces bound by position, computes the run's last value from the inputs as the sorted signature renames them |
| Evaluation.InOrderResult | src/runtime/ane_runtime.mm:797-820 | with input ids in decimal order a group computes the reference value from reference values |
| Evaluation.NeededIsClosed | src/graph/graph_executor.cpp:58-140 | what the outputs depend on contains with a group's output all its inputs |
| Evaluation.NeededIsLeast | src/graph/graph_executor.cpp:58-140 | and it is the least such set holding the outputs |
| Evaluation.OutcomeIsReference | src/graph/graph_executor.cpp:58-152 | on every backend and all inputs the outputs of a run get their node-by-node values if every group they depend on has its input ids in decimal order |
| Symbolic.RightGroup | src/graph/graph_executor.cpp:123-132 | in symbolic execution a distinct-input group whose output comes out right has its input ids in decimal order, and its inputs came out right |
| Symbolic.RightIffInOrder | src/core/mil_builder.cpp:2336-2351 | with distinct inputs per group, symbolic execution gives the outputs their node-by-node terms if and only if every group they depend on has its input ids in decimal order, so no weaker condition suffices for all backends |
| Emitters.ThrowsExactly | src/graph/mil_backend.cpp:27-268 | on a validated node the emitter's checks fail if and only if it is a CAST, a TRANSPOSE of channels not a multiple of 16 or width above 16384, a CONCAT whose first input and output have more than 16384 channels, or a PIXEL_SHUFFLE whose rebuilt shapes exceed the limits |
| Alloc.Search | src/graph/graph_compiler.cpp:97-117 | the first fitting candidate within the tries, or the untested one after them |
| Alloc.ChooseAlloc | src/graph/graph_compiler.cpp:83-119 | the result is a candidate within reach, no smaller candidate fits; it fits if and only if some multiple t of 64 within reach has t mod 64c below c for every input and output channel count c, which holds if these have a common multiple of at most 40960 |
| Alloc.FitsIffAligned | src/graph/graph_compiler.cpp:102-105 | for a size that holds the tensor, the stride test is that alignment test |
| Alloc.FirstOrLast | src/graph/graph_compiler.cpp:98-117 | a search that stops at the first fitting size or at the last one stops at a fitting one if and only if there is one |
| Alloc.SearchSucceeds | src/graph/graph_compiler.cpp:98-117 | with such a common multiple one of the 40960 tries fits |
| Alloc.SearchCanRunDry | src/graph/graph_compiler.cpp:98-118 | with 16384 and 10000 channels the size chosen is 3145728 and does not fit |
| Alloc.SixteenChannels | src/graph/graph_compiler.cpp:94-117 | a graph of one small tensor of 16 channels gets 49152 bytes |
| Alloc.FiveChannels | src/graph/graph_compiler.cpp:94-117 | one of 5 channels gets 49280 |
| Pool.BufferPool.Get | src/core/buffer_manager.cpp:275-294 | new state is the specified acquire: an idle buffer of exactly that size, else a fresh one; layout cleared, the buffer lent |
| Pool.BufferPool.GetTensor | src/core/buffer_manager.cpp:300-323 | the same for the larger of logical and minimum size, with the tensor layout set |
| Pool.BufferPool.Return | src/core/buffer_manager.cpp:346-355 | the buffer joins the idle list of its size or is destroyed when that list is full; no other loan changes |
| Pool.BufferPool.Clear | src/core/buffer_manager.cpp:357-360 | all idle buffers go, all lent ones stay |
| Pool.ReturnedIsKept | src/core/buffer_manager.cpp:346-355 | a returned buffer goes on existing, idle and with its content, if and only if fewer than the limit of its size are idle; no other buffer changes |
| Pool.AcquireReuses | src/core/buffer_manager.cpp:275-294 | a new buffer is made if and only if all existing ones of that size are lent; otherwise an idle one is handed out with its content |
| Pool.ReturnThenGet | src/core/buffer_manager.cpp:275-355 | with room, returning a buffer and asking for its size again gives back that buffer with what it held |
| Pool.PoolSafe | src/core/buffer_manager.cpp:275-360 | over all runs: no buffer is idle and lent, idle lists hold distinct buffers of their key size and at most the limit |
| Compiler.LowerAll | src/graph/graph_compiler.cpp:121-137 | lowers every group and lends each output its own buffer of the common size, laid out for its shape; stops at an emitter that throws if and only if one throws before the runtime refuses a program, and at a refused program if and only if one is refused first; buffers lent before keep size, layout and content |
| Compiler.RunCompilesIff | src/graph/mil_backend.cpp:298-303 | a group is lowered if and only if lowering none of its nodes throws |
| Compiler.AllocFor | src/graph/graph_compiler.cpp:83-119 | the per-graph size is that choice for all tensors of the graph and its inputs and outputs |
| Compiler.Compile | src/graph/graph_compiler.cpp:62-140 | null if and only if validation fails, the hardware is absent or the runtime refuses a group before one throws; throws if and only if a validated graph has a group that throws before one is refused, and with a runtime that refuses nothing, a node whose lowering throws; otherwise a faithful compiled graph with that allocation size and its buffers lent; no loan remains on failure; buffers lent before keep size, layout and content |
| Executor.Dispatch | src/graph/graph_executor.cpp:119-139 | overwrites exactly the group's output buffer with the program's result, the i-th surface bound to the i-th parameter, or fails and changes nothing |
| Executor.GroupValue | src/graph/graph_executor.cpp:123-139 | after the earlier groups every lookup succeeds and the dispatch computes the group's result on the values they left, bound by position |
| Executor.AfterDispatch | src/graph/graph_executor.cpp:134-139 | writing a group's output keeps all inputs and earlier outputs in place |
| Executor.PlanRuns | src/graph/graph_executor.cpp:58-140 | any number of groups run without failing and leave their results bound by position, whatever the buffers held |
| Executor.AllGroupsRun | src/graph/graph_executor.cpp:58-140 | all groups run and leave the outcome in every group output's buffer |
| Executor.FusionPreservesMeaning | src/graph/graph_executor.cpp:58-152 | the run leaves in the buffer of every node-produced output the outcome of binding by position, and the node-by-node value if every group the outputs depend on has its input ids in decimal order |
| Executor.RunLoop | src/graph/graph_executor.cpp:58-140 | the loop succeeds if and only if the specified run does and then reaches its state |
| Executor.FillInputs | src/graph/graph_executor.cpp:40-55 | one lent buffer of the common size per graph input, laid out for its shape and holding the caller's value |
| Executor.ReturnInputs | src/graph/graph_executor.cpp:31-38 | all temporary buffers are given back |
| Executor.ReadOutputs | src/graph/graph_executor.cpp:147-152 | succeeds if and only if every output has a buffer, and then reads those buffers |
| Executor.Execute | src/graph/graph_executor.cpp:16-155 | succeeds if and only if the counts match and every output is node-produced; returns that outcome, and the node-by-node values under that order; all temporary buffers are back on every exit, buffers lent to others keep size, layout and content, and the graph can run again |
| Executor.OtherGraphsStay | src/core/buffer_manager.cpp:300-355 | a second compiled graph with buffers of its own is still executable after the first was executed over the shared pool |
| Cache.CompileCache.FindShared | src/core/compile_cache.cpp:36-43 | first phase of a lookup: only counts a hit or a miss |
| Cache.CompileCache.FindExclusive | src/core/compile_cache.cpp:46-51 | second phase: looks again, moves the entry to the front and shares it, or returns null |
| Cache.CompileCache.Add | src/core/compile_cache.cpp:54-80 | replaces, evicts until there is room, inserts in front; returns the new entry |
| Cache.CompileCache.EvictLru | src/core/compile_cache.cpp:82-89 | drops the last entry from list and index, and its bytes |
| Cache.CompileCache.Clear | src/core/compile_cache.cpp:91-96 | drops everything, each pointer once |
| Cache.EvictUntilShape | src/core/compile_cache.cpp:69-71 | eviction takes entries off the old end only, stops once the new entry fits or the list is empty, and takes none it need not |
| Cache.PutKeeps | src/core/compile_cache.cpp:54-80 | a store keeps the invariant, the limit holds afterwards unless one entry is live, and the list behind the new entry is a prefix of the old one without the replaced entry |
| Cache.PromoteKeeps | src/core/compile_cache.cpp:46-51 | promotion keeps the invariant and the number of entries |
| CacheRuns.RunKeeps | src/core/compile_cache.cpp:36-96 | after every interleaving list and index hold the same entries, the byte count is the sum of live sizes and within the limit unless one entry is live |
| CacheRuns.ReleasedExactlyWhenUnreferenced | src/core/compile_cache.hpp:73-77 | a program is released at most once, and exactly when neither cache nor any handle refers to it |
| CacheRuns.ReleaseKeeps | src/libane.cpp:389-397 | a handle giving up its pointer keeps the counts right |
| CacheRuns.LiveIsLatest | src/core/compile_cache.cpp:59-76 | every live entry is the latest store for its key |
| CacheRuns.AnswerIsLatestPut | src/core/compile_cache.cpp:36-52 | a non-null answer is the latest store for the key and not released; a null one means no live entry |
| CacheRuns.ListIsRecent | src/core/compile_cache.cpp:50-76 | after every run the list is in strictly decreasing order of last use |
| CacheRuns.EvictionTakesOldest | src/core/compile_cache.cpp:69-89 | whatever a store evicts was used before everything it keeps |
| CacheRuns.EntriesConserved | src/core/compile_cache.cpp:54-96 | stores = live + evicted + replaced + flushed, and lookups = hits + misses |
| CacheRuns.HitsAreLive | src/core/compile_cache.cpp:36-43 | over all runs, the hits are the lookups whose key had a live entry in their first half |
| CachePrograms.AnswerIsLastMakers | src/libane.cpp:199-217 | over all runs, an answer is the program compiled for the asked key by the entry point of the latest store for it |
| CachePrograms.OneEntryPoint | src/libane.cpp:199-217 | a run of one entry point is always answered with its own program for the key |
| CachePrograms.MixedAnswers | src/libane.cpp:578-631 | after a matmul store the single-op entry point is answered with the matmul program for the same key |
| Layout.TransposeInto | src/core/mil_builder.cpp:151-181 | the loops write the transposed, converted matrix, in the given order of cells |
| Layout.EachCellOnce | src/core/mil_builder.cpp:157-159 | that order visits every target cell exactly once |
| Layout.TransposedCopy | src/libane.cpp:77-87 | packing [m][k] into [k][m] is transposition |
| Layout.UnpackInto | src/libane.cpp:93-103 | unpacking writes every cell of the transposed output exactly once, front to back |
| Layout.TransposeInvolutive | src/libane.cpp:77-103 | unpacking undoes packing |
| Layout.MatmulAsConv | src/libane.cpp:592-611 | pack, 1x1 convolution with transposed weights, unpack is the row-major product for all sizes |
| Layout.MatmulF16 | src/libane.cpp:568-640 | the whole layout path leaves the product in the caller's buffer |
| Layout.StrideExtract | src/graph/graph_executor.cpp:89-96 | the first columns of every channel |
| Layout.StrideInsert | src/graph/graph_executor.cpp:104-111 | those columns back in place and zeros elsewhere |
| Layout.SliceRun | src/graph/graph_executor.cpp:62-116 | extract, run with the transposed weights, insert |
| Layout.SliceDispatch | src/graph/graph_executor.cpp:89-111 | the result is the full convolution in the first columns and zero in the others |
| Layout.SliceIsFullIffPadded | src/graph/espresso_backend.cpp:47-71 | agreement with the full matmul under all weights if and only if the columns left out are zero |
| Layout.SliceDropsColumn | src/graph/graph_executor.cpp:89-111 | one channel of 16 columns with a value in the second: the dispatch of the first column differs from the full product under the unit weight |
| Transpose.TransposeF16 | src/fallback/fallback.cpp:224-257 | the four loops write every target cell exactly once, front to back, with the permuted source cell |
| Transpose.StrideSumIsFlat | src/fallback/fallback.cpp:228-254 | the stride sums are row-major positions |
| Transpose.TransposedCell | src/fallback/fallback.cpp:246-255 | target cell idx holds the source cell whose axis perm[d] is idx[d] |
| Transpose.SourceThere | src/fallback/fallback.cpp:246-255 | every source position is read for some target position |
| Transpose.SourceBack | src/fallback/fallback.cpp:246-255 | different target positions read different source positions |
| Transpose.TransposeRoundTrip | src/fallback/fallback.cpp:224-257 | transposing again by the inverse permutation restores the input |
| Transpose.ShuffledCell | src/core/mil_builder.cpp:2186-2225 | reshape, transpose, reshape puts input cell (c*r+j, s) at output cell (c, s*r+j) |
| Transpose.ShuffledFrom | src/core/mil_builder.cpp:2186-2225 | every output cell has that form |
| Transpose.ShuffleInverse | src/core/mil_builder.cpp:2206-2218 | exchanging the two axes again restores the input |
| Pwl.Coefficients | src/core/mil_builder.cpp:2240-2255 | slopes and intercepts of all segments, or none if the spacing is zero |
| Pwl.Generate | src/core/mil_builder.cpp:2235-2317 | rejects fewer than two samples, has no finite coefficients for equal bounds; otherwise the code assigns each variable once and, run on any x, returns the nested-select value |
| Pwl.NumberedDistinct | src/core/mil_builder.cpp:2295-2301 | the numbered internal names never collide |
| Pwl.InterpolatesIff | src/core/mil_builder.cpp:2232-2312 | for distinct bounds, the value is the linear interpolant of the segment containing x, extrapolating at the ends, and at knot k sample k, if and only if the bounds are in order or the samples lie on one line |
| Pwl.ReversedValue | src/core/mil_builder.cpp:2293-2312 | with the bounds reversed only the first and the last segment are ever chosen |
| Pwl.OneSegment | src/core/mil_builder.cpp:2293-2312 | in either direction of the table exactly one segment contains x |
| Pwl.LipschitzIff | src/core/mil_builder.cpp:2293-2312 | the function is Lipschitz continuous if and only if the bounds are in order or the first and last lines meet at the first threshold |
| Pwl.ReversedTent | src/core/mil_builder.cpp:2293-2312 | the samples 1, 0, 1 from 1 down to -1 are not interpolated and not all met |
| Pwl.ReversedStep | src/core/mil_builder.cpp:2293-2312 | the samples 0, 0, 1, 1 from 3 down to 0 give a function that is not Lipschitz for any constant |
| Pwl.Continuous | src/core/mil_builder.cpp:2294-2312 | with the bounds in order the steepest slope is a Lipschitz constant |
| Pwl.ActivationNode | src/graph/mil_backend.cpp:248-261 | as a node's emitter the code is sound and gives the node the nested selects as its meaning, the interpolant under that condition |
| Hwx.PatchOp | src/graph/hwx_emitter.cpp:120-190 | the in-place edit yields the specified file; it leaves the buffer if and only if it shrinks a text that does not lie in the grown buffer |
| Hwx.ReplaceAddresses | src/graph/hwx_emitter.cpp:178-184 | the scan loop, skipping over each replacement |
| Hwx.ScanResult | src/graph/hwx_emitter.cpp:178-184 | every byte after the scan comes from the new address where a hit covers it and is unchanged elsewhere |
| Hwx.FieldSurvives | src/graph/hwx_emitter.cpp:178-184 | what a reader takes from a field survives the scan if and only if no hit covers it in a byte in which the addresses read differently |
| Hwx.OpWordsReadBack | src/graph/hwx_emitter.cpp:125-129 | after a change between layouts of 24 to 2^30 - 1 words with the constant section in the file the four op words read back as the new configuration |
| Hwx.PatchMovesConst | src/graph/hwx_emitter.cpp:143-161 | the 0x4000-byte constant section arrives unchanged at the next multiple of 64 after the new text |
| Hwx.PatchKeepsText | src/graph/hwx_emitter.cpp:152-170 | all shared text bytes other than the op words keep their value |
| Hwx.SizeReadBack | src/graph/hwx_emitter.cpp:163-187 | the section size reads back if and only if the scan does not disturb it; the instruction count always does |
| Hwx.RelocationReadsBack | src/graph/hwx_emitter.cpp:106-190 | between layouts of 24 to 2^30 - 1 words with the constant section in the file, a patch reads back as the configuration it was given if and only if no replaced address changes bits 2 to 33 of the section size |
| Hwx.SameSizeReadsBack | src/graph/hwx_emitter.cpp:125-131 | without layout change only the op words change and they read back |
| Hwx.SizeCanBeMisread | src/graph/hwx_emitter.cpp:163-184 | emitting an op of 0xC01 words into a file whose own word count is 0xE000 makes the scan overwrite the size, and the configuration reads back wrong |
| Hwx.HwxEmitter.Capture | src/graph/hwx_emitter.cpp:194-208 | the first capture of a shape and of an op wins; invalid files change nothing |
| Hwx.HwxEmitter.Emit | src/graph/hwx_emitter.cpp:222-230 | the empty file if and only if shape or op is missing, else the shape's file patched with the op's configuration, unless that patch leaves the buffer |
| Hwx.EmitCanLeaveBuffer | src/graph/hwx_emitter.cpp:152-155 | a valid file whose section size runs past its end and the new layout makes a shorter op write outside the buffer |
| Hwx.EmitOwnConfig | src/graph/hwx_emitter.cpp:222-230 | emitting the configuration of the file's own capture returns that file |
| HwxReadBack.ResizedWord | src/graph/hwx_emitter.cpp:143-170 | every aligned text word of the old file after a layout change is replaced from the old constant section, wiped or kept, by its place alone |
| HwxReadBack.PatchReadsBack | src/graph/hwx_emitter.cpp:106-190 | every patch of a valid file that stays in its buffer, with any word counts, reads back as the configuration it was given if and only if the relocation leaves the op words their values and the scan leaves the bits of the word count; without layout change, if and only if the file has that word count |
| HwxReadBack.EmitReadsBack | src/graph/hwx_emitter.cpp:222-230 | the same for every emission from a valid captured file |
| HwxReadBack.ReadsBackIfUndisturbed | src/graph/hwx_emitter.cpp:106-190 | between layouts of 24 to 2^30 - 1 words with the constant section in the file that condition is that no replaced address changes the count bits |
| HwxReadBack.ShortOpIsWiped | src/graph/hwx_emitter.cpp:152-155 | an op of 10 words emitted into a file of 100 words and at least 0x9000 bytes reads back stage flags 0, whatever they were |
| HwxHeader.OffsetFollows | src/graph/hwx_emitter.cpp:169-170 | after every patch that changes the layout the header's file offset of the constant section, at 0x260, is that of its new place, in 32 bits, if and only if no replaced address hits the field |
| HwxHeader.AddressFollows | src/graph/hwx_emitter.cpp:166-167 | so is its address, at 0x250: 0x30008000 plus that offset minus 0x4000 |
| HwxHeader.SizeFollows | src/graph/hwx_emitter.cpp:163-164 | so is the size of the text, at 0x208 |
| HwxHeader.ReplacedAddresses | src/graph/hwx_emitter.cpp:174-184 | every address that is replaced was the old section's and reads as the new one's, unless the instruction count overlaps it |
| HwxHeader.OffsetLeadsToSection | src/graph/hwx_emitter.cpp:143-170 | between layouts of 24 to 2^30 - 1 words, following the file offset in the header leads to the unchanged constant section, unless the field was hit or the offset exceeds 32 bits |
| HwxHeader.OpWordPlaces | src/graph/hwx_emitter.cpp:126-187 | the op words are at 0x4010, 0x4030, 0x404C and 0x405C, the instruction count at 0xAE4 |
| HwxHeader.ConfigPlaces | src/graph/hwx_emitter.cpp:106-116 | a configuration is read from there, its word count from 0x208 |
| HwxHeader.ValidIff | src/graph/hwx_emitter.cpp:65-68 | a file is valid if and only if it has 0x4060 bytes and starts with CE FA EF BE |
| HwxHeader.LeavesIff | src/graph/hwx_emitter.cpp:149-155 | a patch leaves the buffer if and only if it shrinks a text that ends past the file and past the new layout |
| Witnesses.InputAsOutput | src/graph/graph_executor.cpp:147-150 | a graph input marked as output passes validation and no node produces it |
| Witnesses.CastThrows | src/graph/mil_backend.cpp:263-267 | a CAST passes validation and throws |
| Witnesses.TransposeThrows | src/core/mil_builder.cpp:2010-2016 | so does every TRANSPOSE of channels not a multiple of 16 or of width above 16384 |
| Witnesses.ConcatThrows | src/graph/mil_backend.cpp:192-195 | so does every CONCAT whose first input and output have more than 16384 channels together |
| Witnesses.PixelShuffleThrows | src/core/mil_builder.cpp:2196-2201 | so does every PIXEL_SHUFFLE by 2 with more than 8192 output channels |
| Witnesses.AddTwiceDuplicates | src/graph/fusion_rules.cpp:184-190 | ADD(x, x) passes validation and its group lists x twice |
| Subtraction.SubBuilt | src/graph/ane_graph.cpp:38-76 | a SUB of any two of n inputs can be built and passes validation |
| Subtraction.SubExecutes | src/graph/graph_executor.cpp:119-139 | executing SUB(x, y) with x and y distinct yields x - y if id x leads id y in decimal order and y - x otherwise, where node-by-node evaluation yields x - y; the output is right if and only if x leads y or the values are equal |
| Subtraction.OneMinusZero | src/core/mil_builder.cpp:2336-2351 | SUB(t1, t0) on a and b yields a - b where its meaning is b - a |
| Subtraction.TwoMinusTen | src/core/mil_builder.cpp:2336-2351 | SUB(t2, t10) yields t10 - t2 |

## Left out

- The runtime (`src/runtime`): a dispatch is taken to compute the program it was given, with the i-th surface bound to the i-th parameter, as the runtime's reordering finds no parameter names in a fused signature. Whether it loads a program is a parameter of `Compiler.Compile`.
- Symbolic.RightIffInOrder: leaves out groups whose head reads a tensor twice, whose programs declare a parameter twice; `Evaluation.OutcomeIsReference` holds for them too.
- Validator.Validate: for a PIXEL_SHUFFLE factor of 0 the code reports an error and then still evaluates a remainder by 0, which is undefined; the model only rejects.
- IOSurface locking, Core Foundation and aligned allocation, byte-count asserts of the copy routines, allocation failure: a buffer is an id with a size, a layout and a content.
- Builds without Apple frameworks, in which execution always fails.
- Routing of groups between the three backends; the whole-graph theorem is about one table of emitters dispatched over surfaces, and the column-slice dispatch is treated by itself in Layout.
- The 128-byte header of a weight file; `Weights` is about the data behind it.
- The bodies of the per-op emitters other than the piecewise-linear one: an emitter is any template that assigns each variable once and after its arguments. Declared tensor types are not modelled.
- Compiler.Compile: takes as hypothesis, for the graph at hand, that an emitter whose shape checks pass returns sound code, since those bodies are not modelled.
- Hwx.PatchKeepsText: takes word counts below 2^30, since the byte size is computed in 32 bits and wraps beyond, and at least 24, so that both layouts contain the op words.
- Hwx.PatchOp: what a write outside the buffer does is undefined in the original; the model only says when it happens.
- Hwx.RelocationReadsBack: takes the same word counts and a constant section that lies in the file; `HwxReadBack.PatchReadsBack` is the statement without them.
- Hwx.OpWordsReadBack: takes the same; `HwxReadBack.ResizedWord` says what becomes of the op words otherwise.
- Pwl.Generate: says only that equal bounds leave no finite coefficients, not what text their infinities and NaNs become.
- fp16 and fp32 rounding, literal formatting and conversion, softmax, norms and activation numerics: exact arithmetic or abstract values instead.
- The weight hash and collisions of cache keys: a program is told apart by its key and the entry point that compiled it.
- 32-bit wrap-around of tensor and node ids, 64-bit wrap-around of byte counts, the cache's disk directory and timestamps.
- Reading HWX files from a directory: the bytes captured are an argument, and an unreadable file is an empty one.
- The Espresso bundle and JSON writers, Python and Swift bindings, logging, error strings, debug names, probing and benchmarks.
