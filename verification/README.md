# Models of the Reko extras

This project models the parts of the repository whose correctness does not follow from reading one
method, and proves what they promise. `dafny verify dfyconfig.toml` checks all of it.

## What is modelled

**Sea of nodes.** `NodeGraphBuilder` turns a procedure into a graph of value nodes and phis while it
walks over the blocks. The model is a class with the builder's tables: nodes, per-block definitions,
incomplete phis and the replacement map, updated in place by the same steps, including the explicit
work stack of `ReadStorage`. Programs are blocks of assignments and copies; their meaning is given
by walks through the flow graph, and the meaning of a node by evaluating it along a walk, each phi
taking the operand of the edge that the walk took. `EveryReadIsCorrect` says for every run, to its
very end, what every read of every statement evaluates to on every walk: what the program leaves in
the storage, unless the search for it comes past an assignment that a block has been made to forget.
`RememberedDefinitionKept` says exactly when forgetting does no harm. `ForgottenExactly` tells from
the program and the order of translation what is forgotten, `AllReadsAreRight` when nothing is, and
`ReadsAfterwardsAreWrong` which reads always come out wrong.
Overlapping registers are a list of definitions that refines a register file of single bits
(`RegisterFile.dfy`), block after block along a line of them (`RegisterChain.dfy`), and the def-use
edges are heap objects whose two lists are kept dual (`Node.dfy`). `LongAddRewriter.dfy` and `PeepholeOptimizer.dfy` show that fusing and simplifying
expressions keeps their values at every width.

**Parallel scanner.** `WorkerProtocol.dfy` and `Registrations.dfy` are state machines of atomic steps,
taken by any number of threads in any order; what they state holds in every reachable state.
`Scanner.dfy` has the scanner's dictionaries as fields and proves `SplitBlock`, one call and any
number of calls as long as each leaves both tables right, against the partial order on control flow
graphs that `Cfg.cs` describes.
`PriorityQueue.dfy` is the heap on an array.

**Segment list.** The sorted list of occupied ranges is shown to be the union and difference of sets
of addresses, for single calls and for whole sequences of them in one sort (`RunOneSort`) and in
several (`RunApart`).

**JSON and type references.** The reader is a pushdown tokenizer and the writer a stack of separators;
reading undoes writing for whole trees, and for references to types.

**Smaller algorithms.** The topological sort of the node renderer, the weakly connected components of
the procedure builder, the block former, and the partition of the address space among threads.

## How the files hang together

| file | holds |
|---|---|
| `FlowGraph`, `SsaSemantics`, `SsaSteps` | walks, what nodes evaluate to, which steps keep cells justified |
| `ReplacementMaps`, `NodeLinks`, `ReadFrames`, `BuilderInvariants` | replaced nodes, the work stack, the builder's invariants |
| `Programs`, `ForgottenAssignments`, `DelayedPhis` | programs, what it does to reads that blocks forget assignments, the list of incomplete phis |
| `NodeGraphBuilder`, `PhiOrigins`, `OverwrittenDefinition` | the builder itself, where contents come from by the program alone, where the builder goes wrong |
| `BlockGraph`, `BlockSplits`, `SplitResults`, `SplitNew`, `SplitOld`, `SplitExamples`, `BlockAdditions`, `Scanner` | blocks with a shared end, the two ways to cut them, the scanner |
| `WorkerProtocol`, `WorkerRuns`, `Registrations` | interleavings of workers |
| `Utf8`, `JsonLexer`, `JsonText`, `JsonRoundTrip`, `JsonEscapes`, `JsonReader`, `JsonWriter`, `TypeReference` | texts and tokens, and the streams that carry them |
| `MachineArithmetic`, `LongExpressions`, `LongAddRewriter`, `PeepholeOptimizer` | arithmetic of words and their parts |
| `RegisterFile`, `RegisterChain` | registers that overlap, in one block and along a line of blocks |
| `SegmentList`, `SegmentRuns` | the segment list, and sequences of calls on it |
| `Node`, `PriorityQueue`, `NodeGraphRenderer`, `ProcedureBuilder`, `BlockSoupAnalysis`, `FindBaseString` | one algorithm each |

## Where the code does not do what it is for

The model follows the code. Where a property fails, a lemma says exactly when it holds.

* `AddPhiOperands` makes a block forget an assignment (line 191). What blocks remember is right exactly
  if all forgotten assignments put back what was there: `RememberedDefinitionKept`. Which they are
  can be told from the program: `ReassignmentForgotten`, `ForgottenExactly`. Loops that save a storage,
  assign it and restore it are among them, and make the builder give later reads the wrong node:
  `SavedAndRestoredIsForgotten`, `ReadsAfterwardsAreWrong`, and a run in `ReadComesOutWrong`.
* `SplitBlock` leaves a stale entry in the table of ends, although the comment in Scanner.cs lines 250-252
  says that the entry moves, and a block that is cut twice keeps an edge past its end: `SplitBlock`,
  `OldEndIsStale`, `NextSplitFails`, and two graphs in `SplitExamples.dfy`.
* A worker can finish with an item in its queue, and waking a worker can throw: `ItemCanBeLost`,
  `LostExactly`, `WakeCanThrow`, `WakeThrowsWhen`, `WakeThrowsThen`,
  `WakeThrowsOnceFinishing`.
* A register that is partly written in the entry block is read as if it were not: `ReadStorage` and
  `Run` in `RegisterChain.dfy`; a divisible register at a nonzero offset is sliced at the wrong place:
  `DivisibleAtOffset`. The documentation of `RegisterDefs` says that definitions are ordered from
  widest to narrowest; the code keeps them in the order of the writes.
* Replacing a node by itself breaks the edges of its consumers: `Replace` in `Node.dfy`.
* Occupying a block around one of another sort does not end: `LoopEndsWhen`, `OccupyEndsWhen` and
  `OccupyingAroundRepeats`, even if the other one is empty, as a release may leave it:
  `EmptySegmentStays`; one that is overlapped by another sort otherwise leaves the list out of
  order: `Occupy`. Releasing does not maintain the byte count: `ReleasedSize`.
* The writer escapes five control characters with a lone backslash, and the reader never leaves an
  escape of one character: `StringRoundTripsIff`.
* A negation that tests whether a number is below zero without sign borrows nothing, and a spilled
  shift is fused for amounts and kinds of shift for which that is wrong:
  `FuseNegationBySubPreserves`, `FuseLongShiftRightPreserves`.
* When the high operand is added after the carry, the flags taken from the wide operation are not
  those of the operation they replace: `FuseOneArgumentPreserves`. Flags of a slice are taken for those
  of the whole: `TakesCarry`.
* The comment on `CollectAnchoredDeps` excludes the node itself from its dependencies; the code does
  not, so that a node feeding itself counts as a cycle.

## Model

| member | source | states |
|---|---|---|
| `NodeGraphBuilders.NodeGraphBuilder.EveryReadIsCorrect` | seaofnodes/SeaOfNodes/Nodes/NodeGraphBuilder.cs:134-157 | After every run, each read that any statement made resolves to a node which, along every walk from the entry, evaluates to what a backward search sees that misses the forgotten assignments; this is what running the statements one by one leaves in the storage if every forgotten assignment puts back what was there before, or the search on that walk comes past none |
| `NodeGraphBuilders.NodeGraphBuilder.LaterReadIsCorrect` | seaofnodes/SeaOfNodes/Nodes/NodeGraphBuilder.cs:606-709 | The same for a storage read at the end of any block after everything has been translated, with a representative that the acyclic replacement map leads to |
| `NodeGraphBuilders.NodeGraphBuilder.Transform` | seaofnodes/SeaOfNodes/Nodes/NodeGraphBuilder.cs:134-157 | Blocks translated in any order, to the very end: afterwards every phi has its operands, every read has a node tied to its storage, and it is recorded which phis were listed early and in which order, in which state each had got its operands, and which assignments were forgotten then |
| `NodeGraphBuilders.NodeGraphBuilder.ReadStorage` | seaofnodes/SeaOfNodes/Nodes/NodeGraphBuilder.cs:606-709 | The explicit work stack always empties (measure: blocks not asked yet, operands still lacking, depth of the block on top); the answer stands for the contents of the storage at the end of the block, nodes handed out before keep their meaning, the outer phis stay open, and a read after translation lists no new incomplete phi |
| `NodeGraphBuilders.NodeGraphBuilder.ResolveBlock` | seaofnodes/SeaOfNodes/Nodes/NodeGraphBuilder.cs:616-662 | First phase: the block answers itself, or a frame for its predecessor is pushed and the invariant of the stack holds one frame higher; only a block that had no definition gets a phi |
| `NodeGraphBuilders.NodeGraphBuilder.ResumeSingle` | seaofnodes/SeaOfNodes/Nodes/NodeGraphBuilder.cs:664-668 | Second phase for one predecessor: its answer becomes the block's answer and its remembered definition |
| `NodeGraphBuilders.NodeGraphBuilder.ResumePhi` | seaofnodes/SeaOfNodes/Nodes/NodeGraphBuilder.cs:670-699 | Second phase for a phi: the operand of predecessor i is taken, and either predecessor i + 1 is asked for or the phi is finished |
| `NodeGraphBuilders.NodeGraphBuilder.ResolveCanonical` | seaofnodes/SeaOfNodes/Nodes/NodeGraphBuilder.cs:554-568 | Returns the one representative, and path compression leaves every node's representative and the set of replaced nodes as they were |
| `ReplacementMaps.AgedIsAcyclic` | seaofnodes/SeaOfNodes/Nodes/NodeGraphBuilder.cs:554-575 | A replacement map in which every entry is younger than the one it leads to has no cycle, so that following it ends |
| `ReplacementMaps.RepresentativeIsUnique` | seaofnodes/SeaOfNodes/Nodes/NodeGraphBuilder.cs:554-568 | Following replacements can end in one node only |
| `ReplacementMaps.TableIsRepresentative` | seaofnodes/SeaOfNodes/Nodes/NodeGraphBuilder.cs:554-568 | The table of representatives that the invariants speak of is what following the map ends in |
| `ReplacementMaps.CompressionKeepsRepresentatives` | seaofnodes/SeaOfNodes/Nodes/NodeGraphBuilder.cs:554-568 | Pointing a node straight at its representative changes nobody's representative |
| `NodeGraphBuilders.NodeGraphBuilder.ReplaceNode` | seaofnodes/SeaOfNodes/Nodes/NodeGraphBuilder.cs:570-575 | All operands and cells that named the phi name the representative of its substitute, no operand is a replaced node, and the map stays acyclic |
| `NodeGraphBuilders.NodeGraphBuilder.WriteStorage` | seaofnodes/SeaOfNodes/Nodes/NodeGraphBuilder.cs:1031-1079 | The block remembers the representative of the value, and nothing else is remembered differently |
| `NodeGraphBuilders.NodeGraphBuilder.CreateDefNode` | seaofnodes/SeaOfNodes/Nodes/NodeGraphBuilder.cs:711-716 | In the entry block the new definition node stands for the initial contents |
| `NodeGraphBuilders.NodeGraphBuilder.CreatePhi` | seaofnodes/SeaOfNodes/Nodes/NodeGraphBuilder.cs:655-661 | The phi is put into the block before its operands are read, and a frame waits for the first of them |
| `NodeGraphBuilders.NodeGraphBuilder.CreateIncompletePhi` | seaofnodes/SeaOfNodes/Nodes/NodeGraphBuilder.cs:627-636 | A block with a predecessor yet to be translated gets a phi without operands, which is listed and is the answer |
| `NodeGraphBuilders.NodeGraphBuilder.ReadLocalStorage` | seaofnodes/SeaOfNodes/Nodes/NodeGraphBuilder.cs:787-830 | A remembered definition, resolved, is the answer |
| `NodeGraphBuilders.NodeGraphBuilder.CopyDefinition` | seaofnodes/SeaOfNodes/Nodes/NodeGraphBuilder.cs:664-668 | What the only predecessor hands over is remembered and is the answer here too |
| `NodeGraphBuilders.NodeGraphBuilder.AddPhiOperand` | seaofnodes/SeaOfNodes/Nodes/NodeGraphBuilder.cs:670-685 | The phi gets what its next predecessor hands over as its next operand, and no other phi changes |
| `NodeGraphBuilders.NodeGraphBuilder.GetTrivialPhiReplacement` | seaofnodes/SeaOfNodes/Nodes/NodeGraphBuilder.cs:964-982 | Finds a node other than the phi that all other operands are, exactly if there is such a node |
| `NodeGraphBuilders.NodeGraphBuilder.FinishPhi` | seaofnodes/SeaOfNodes/Nodes/NodeGraphBuilder.cs:687-698 | A complete phi is removed if it is trivial; either way the answer is right and all invariants hold |
| `NodeGraphBuilders.NodeGraphBuilder.RemovePhi` | seaofnodes/SeaOfNodes/Nodes/NodeGraphBuilder.cs:687-693 | A trivial phi gives way to its one other operand everywhere |
| `SsaSteps.ReplacingTrivialPhiKeepsInv` | seaofnodes/SeaOfNodes/Nodes/NodeGraphBuilder.cs:964-982 | Replacing a trivial phi in operands and cells keeps every cell justified by its predecessors |
| `SsaSteps.NewOperandKeepsInv` | seaofnodes/SeaOfNodes/Nodes/NodeGraphBuilder.cs:676-685 | An operand added to a pending phi keeps every cell justified |
| `SsaSemantics.InIsCorrect` | seaofnodes/SeaOfNodes/Nodes/NodeGraphBuilder.cs:606-709 | In a graph whose cells are all justified, the node of a cell evaluates on every walk to the block to what is seen in the storage on entry, each phi taking the operand of the edge that the walk took; a cell may have been justified when less was forgotten |
| `SsaSemantics.OutIsCorrect` | seaofnodes/SeaOfNodes/Nodes/NodeGraphBuilder.cs:606-709 | The same at the end of the block |
| `FlowGraphs.FlowGraph.SinglePredecessorIsShallower` | seaofnodes/SeaOfNodes/Nodes/NodeGraphBuilder.cs:606-709 | Following single predecessors comes closer to the entry, which bounds how deep the work stack grows without a phi |
| `NodeGraphBuilders.NodeGraphBuilder.VisitIdentifier` | seaofnodes/SeaOfNodes/Nodes/NodeGraphBuilder.cs:548-552 | A statement's read is recorded with a node that stands for the storage; phis are listed only for blocks with a predecessor yet to be translated |
| `NodeGraphBuilders.NodeGraphBuilder.VisitStatement` | seaofnodes/SeaOfNodes/Nodes/NodeGraphBuilder.cs:369-379 | One statement: its reads are made and what it assigns is recorded |
| `NodeGraphBuilders.NodeGraphBuilder.RecordWrite` | seaofnodes/SeaOfNodes/Nodes/NodeGraphBuilder.cs:369-379 | An assignment makes the storage hold what the statement makes or copies, in the model of the program as well |
| `NodeGraphBuilders.NodeGraphBuilder.TranslateBlock` | seaofnodes/SeaOfNodes/Nodes/NodeGraphBuilder.cs:348-357 | One block is translated and marked as visited; the invariants between blocks hold again, and if a predecessor was yet to be translated, all that the block reads on entry has been listed |
| `NodeGraphBuilders.NodeGraphBuilder.AddPhiOperands` | seaofnodes/SeaOfNodes/Nodes/NodeGraphBuilder.cs:172-193 | An incomplete phi gets all its operands; all invariants hold again, and its cell joins the forgotten ones exactly if the phi is trivial in the state it is in then and the block has assigned the storage |
| `NodeGraphBuilders.NodeGraphBuilder.ProcessIncompletePhis` | seaofnodes/SeaOfNodes/Nodes/NodeGraphBuilder.cs:159-170 | All listed phis get their operands, in the order of the list, none is added and every node found before keeps its meaning |
| `NodeGraphBuilders.NodeGraphBuilder.OverwriteDefinition` | seaofnodes/SeaOfNodes/Nodes/NodeGraphBuilder.cs:187-192 | The block remembers the phi's one operand, which is what the storage held on entry: if it has assigned the storage the assignment is forgotten, and all invariants hold with that |
| `NodeGraphBuilders.NodeGraphBuilder.FinishListedPhi` | seaofnodes/SeaOfNodes/Nodes/NodeGraphBuilder.cs:187-192 | The phi is let go exactly if it is trivial, and the state in which it was is kept for the record |
| `NodeGraphBuilders.NodeGraphBuilder.RememberedDefinitionKept` | seaofnodes/SeaOfNodes/Nodes/NodeGraphBuilder.cs:187-192 | When all is done, what the blocks remember evaluates on every walk to what the storages hold at their ends if and only if every forgotten assignment leaves in its storage what was there when the block was entered |
| `OverwrittenDefinitions.ReassignmentForgotten` | seaofnodes/SeaOfNodes/Nodes/NodeGraphBuilder.cs:187-192 | In every run: if all operands of a late block's phi can be followed, through copies and single predecessors, to a statement, to the start or to the phi itself, then the block forgets its assignment if and only if they come from one place besides the phi |
| `OverwrittenDefinitions.ForgottenExactly` | seaofnodes/SeaOfNodes/Nodes/NodeGraphBuilder.cs:172-193 | In a program in which that is so wherever a late block reads a storage and assigns it, what is forgotten is exactly what program and order tell |
| `OverwrittenDefinitions.RememberedByProgram` | seaofnodes/SeaOfNodes/Nodes/NodeGraphBuilder.cs:134-157 | In such a program what the blocks remember is right on every walk if and only if all the assignments told by program and order put back what was there |
| `OverwrittenDefinitions.SavedAndRestoredIsForgotten` | seaofnodes/SeaOfNodes/Nodes/NodeGraphBuilder.cs:187-192 | A loop header that saves a storage and assigns it, and whose other predecessors put the saved value back, is such a block and forgets its assignment |
| `PhiOrigins.TrivialIfOneOrigin` | seaofnodes/SeaOfNodes/Nodes/NodeGraphBuilder.cs:964-982 | A phi whose operands can all be followed is trivial if and only if they come from one place besides itself |
| `PhiOrigins.OutHasOrigin` | seaofnodes/SeaOfNodes/Nodes/NodeGraphBuilder.cs:606-709 | The node at the end of a block stands for where the contents come from by program and order |
| `OverwrittenDefinitions.ReadsAfterwardsAreWrong` | seaofnodes/SeaOfNodes/Nodes/NodeGraphBuilder.cs:187-192 | In every run, if a block computes what it forgets, a read of the storage in a late block that comes after it is wrong on every walk that comes straight from the one to the other: it evaluates to something seen before |
| `OverwrittenDefinitions.ReadComesOutWrong` | seaofnodes/SeaOfNodes/Nodes/NodeGraphBuilder.cs:134-157 | A run of the builder on a program of five blocks in which a statement reads what the storage held when the procedure was entered, where the program has assigned it |
| `OverwrittenDefinitions.ForgottenIsAssigned` | seaofnodes/SeaOfNodes/Nodes/NodeGraphBuilder.cs:172-193 | Only blocks translated before one of their predecessors forget anything, and only storages that they have read on entry and assign |
| `OverwrittenDefinitions.AllReadsAreRight` | seaofnodes/SeaOfNodes/Nodes/NodeGraphBuilder.cs:134-157 | In every run on a program in which no late block forgets an assignment by that condition, above all if none both reads a storage on entry and assigns it, nothing is forgotten and every read evaluates on every walk to what the program leaves in the storage |
| `DelayedPhis.ReadIsWanted` | seaofnodes/SeaOfNodes/Nodes/NodeGraphBuilder.cs:606-662 | A read lists phis only for storages that the reading statement finds unassigned, or that a translated block on the way does not assign |
| `OverwrittenDefinitions.HeaderOverwrites` | seaofnodes/SeaOfNodes/Nodes/NodeGraphBuilder.cs:172-193 | In the state in which the phi of such a block has just got its operands it is trivial, and its block's assignment overwritten, if and only if they come from one place besides it |
| `ForgottenAssignments.SeenIsRight` | seaofnodes/SeaOfNodes/Nodes/NodeGraphBuilder.cs:606-709 | What is seen at a statement is what the storage holds there, on every walk, if all forgotten assignments put back what was there |
| `ForgottenAssignments.RightOnlyIfPutBack` | seaofnodes/SeaOfNodes/Nodes/NodeGraphBuilder.cs:606-709 | And only then: if what is seen at the ends of the blocks is right on every walk, each forgotten assignment puts back what was there |
| `ForgottenAssignments.UnmetIsRight` | seaofnodes/SeaOfNodes/Nodes/NodeGraphBuilder.cs:606-709 | What is seen on a walk is right if the search comes past no forgotten assignment there |
| `DelayedPhis.ListedNext` | seaofnodes/SeaOfNodes/Nodes/NodeGraphBuilder.cs:627-636 | The list of early phis has, after each block, exactly cells of late blocks translated so far, among them all that they read on entry |
| `DelayedPhis.HistoryLonger` | seaofnodes/SeaOfNodes/Nodes/NodeGraphBuilder.cs:159-193 | What is forgotten is accounted for by the phis finished so far |
| `Programs.HoldsByEffect` | seaofnodes/SeaOfNodes/Nodes/NodeGraphBuilder.cs:369-379 | Running the statements of a block one by one does to every storage what their joint effect says |
| `ForgottenAssignments.WritesRunLikeProgram` | seaofnodes/SeaOfNodes/Nodes/NodeGraphBuilder.cs:134-157 | With nothing forgotten, the recorded last assignments of the blocks, run along any walk, come to what the program comes to |
| `Programs.StandsIsCorrect` | seaofnodes/SeaOfNodes/Nodes/NodeGraphBuilder.cs:548-552 | A node tied to a storage at some statement evaluates, on every walk, to what is seen in the storage there |
| `NodeGraphBuilders.NodeGraphBuilder.constructor` | seaofnodes/SeaOfNodes/Nodes/NodeGraphBuilder.cs:41-52 | The empty builder satisfies the invariants |
| `RegisterFiles.RegisterDefs.WriteStorage` | seaofnodes/SeaOfNodes/Nodes/NodeGraphBuilder.cs:1038-1055 | The list of definitions refines the register file that keeps every bit by itself: a write overlays exactly the register's bits |
| `RegisterFiles.WriteRefines` | seaofnodes/SeaOfNodes/Nodes/NodeGraphBuilder.cs:1038-1055 | A new definition after the ones it does not cover represents the overlaid bits |
| `RegisterFiles.RegisterDefs.TryReadRegisterStorage` | seaofnodes/SeaOfNodes/Nodes/NodeGraphBuilder.cs:832-881 | Nothing is returned exactly if nothing is remembered, or part of the register is neither remembered nor available; otherwise each bit that can be had from a whole definition is the most recently written one, or the predecessor's where none was, and with distinguishable bits no other bit is right |
| `RegisterFiles.RegisterDefs.ReadStorage` | seaofnodes/SeaOfNodes/Nodes/NodeGraphBuilder.cs:606-709 | In one block, given what the predecessor answers: a read returns the right bits if every bit can be had from a whole definition, and (for distinguishable bits) only then; in the entry block, a partly written register comes out right if and only if the written bits are the initial ones; what was read is remembered |
| `RegisterChains.Run` | seaofnodes/SeaOfNodes/Nodes/NodeGraphBuilder.cs:606-709 | Any sequence of writes, reads and new blocks along a line of blocks, with registers of such a family: every read returns, bit by bit, what was last written or the initial contents, as long as no read comes back to an entry block that remembers the register in part |
| `RegisterChains.RegisterChain.ReadStorage` | seaofnodes/SeaOfNodes/Nodes/NodeGraphBuilder.cs:606-709 | A read that goes back from block to block as far as it must: the bits of the last writes in all blocks laid over the initial ones, except that an entry block that remembers the register in part answers with the initial contents and forgets the part; all blocks on the way remember what was read, and nothing else that a read could find changes |
| `RegisterChains.RegisterChain.WriteStorage` | seaofnodes/SeaOfNodes/Nodes/NodeGraphBuilder.cs:1038-1055 | A write in the last block of the line overlays the register's bits and touches no other block |
| `RegisterChains.RegisterChain.NextBlock` | seaofnodes/SeaOfNodes/Nodes/NodeGraphBuilder.cs:606-709 | A new block remembers nothing, and what its predecessors remember is as before |
| `RegisterChains.Remembered` | seaofnodes/SeaOfNodes/Nodes/NodeGraphBuilder.cs:606-709 | Remembering what was read changes nothing of what any later read finds |
| `RegisterChains.ForgetsFromKeys` | seaofnodes/SeaOfNodes/Nodes/NodeGraphBuilder.cs:832-881 | Whether a read will forget something shows in which bits the blocks remember, whatever the values |
| `RegisterFiles.FamilyReadsWhole` | seaofnodes/SeaOfNodes/Nodes/NodeGraphBuilder.cs:832-913 | In a nested-or-disjoint family whose members at nonzero offsets are indivisible, every bit can be had from a whole definition, so that reads are always right |
| `RegisterFiles.UncoveredInFamily` | seaofnodes/SeaOfNodes/Nodes/NodeGraphBuilder.cs:1038-1055 | Writes keep the list inside the family |
| `RegisterFiles.DivisibleAtOffset` | seaofnodes/SeaOfNodes/Nodes/NodeGraphBuilder.cs:883-893 | A part of a register at a nonzero offset cannot be had from a whole definition: the slice is taken at the domain's offset instead of the register's, so that the read is wrong for distinguishable bits |
| `RegisterFiles.FindIntersectingRegister` | seaofnodes/SeaOfNodes/Nodes/NodeGraphBuilder.cs:895-913 | Finds the lowest part of the use that one definition supplies, and how far it goes |
| `RegisterFiles.MaybeSlice` | seaofnodes/SeaOfNodes/Nodes/NodeGraphBuilder.cs:883-893 | The share of the node's bits that the range takes, at the domain's offset |
| `RegisterFiles.PieceIsRight` | seaofnodes/SeaOfNodes/Nodes/NodeGraphBuilder.cs:832-881 | A piece is right in each bit that can be had from a whole, and only there |
| `RegisterFiles.GapIsRight` | seaofnodes/SeaOfNodes/Nodes/NodeGraphBuilder.cs:832-881 | The same for the part that comes from the predecessor |
| `Nodes.AddEdge` | seaofnodes/SeaOfNodes/Nodes/Node.cs:125-131 | Every edge is listed as often at one end as at the other before and after; a missing definition adds nothing |
| `Nodes.RemoveFromInputs` | seaofnodes/SeaOfNodes/Nodes/Node.cs:138-145 | The node is left without inputs and every producer has lost exactly the entries for them |
| `Nodes.Node.RemoveOutput` | seaofnodes/SeaOfNodes/Nodes/Node.cs:151-164 | Exactly one entry is removed if there is one; the order may change |
| `Nodes.Replace` | seaofnodes/SeaOfNodes/Nodes/Node.cs:173-195 | After the call the original has no edges, every other node has its inputs redirected in place, with all multiplicities; both ends agree if and only if the nodes were different, or the original had no consumer but itself; number and storage are inherited as in lines 193-194 |
| `Nodes.ReplaceInput` | seaofnodes/SeaOfNodes/Nodes/Node.cs:197-204 | One input is exchanged and both ends agree afterwards, also if the old or new input occurs elsewhere |
| `Nodes.RedirectedCounts` | seaofnodes/SeaOfNodes/Nodes/Node.cs:175-185 | Redirecting moves all uses of the original to the substitute and leaves all other counts alone |
| `Nodes.RedirectConsumers` | seaofnodes/SeaOfNodes/Nodes/Node.cs:175-185 | Walking a copy of the consumers, once per use, redirects every input exactly once and lists the substitute's consumers with the right multiplicity |
| `Nodes.Disconnected` | seaofnodes/SeaOfNodes/Nodes/Node.cs:187-191 | When the original has let go of its inputs, both ends agree if and only if no other node still uses it |
| `Scanners.Scanner.SplitBlock` | parallel/Scanner/Scanner.cs:168-265 | The loop ends; afterwards the blocks have the same starts, are pairwise disjoint, cover the same instructions and hold the old graph in the sense of the design's partial order; the table of ends is right if and only if the new block did not start inside a known one, and the edges are right if and only if at most one known block started inside the new one |
| `Scanners.Scanner.RegisterBlockEnd` | parallel/Scanner/ProcedureWorker.cs:309-367 | A newly traced block and the known ones stay disjoint, cover exactly their instructions and hold the old graph; the whole invariant holds again, so that the next call may be made, if and only if the end was new or the condition of SplitBlock's two tables holds: call after call, as long as the condition holds |
| `Scanners.Scanner.ChopNew` | parallel/Scanner/Scanner.cs:224-242 | The new block is cut down to what comes before the known one; if its new end is free the graph is reconciled, else it is to be reconciled with the block that has that end, which lies strictly before |
| `Scanners.Scanner.ChopOld` | parallel/Scanner/Scanner.cs:243-262 | The known block is cut in two, its out-edges move to the later block, and the graph is reconciled |
| `Scanners.Scanner.EndsMeet` | parallel/Scanner/Scanner.cs:177-187 | The lookups succeed, and of two blocks with the same last instruction one is the tail of the other: the misaligned branch is not taken |
| `Scanners.FindCommonInstructions` | parallel/Scanner/Scanner.cs:340-352 | Returns where the longest common tails of the two sequences start |
| `Scanners.Scanner.StealEdges` | parallel/Scanner/Scanner.cs:330-338 | The edges leave the later block instead, unless it had edges already, when they are lost |
| `Scanners.Scanner.RegisterEdge` | parallel/Scanner/Scanner.cs:150-158 | The edge is appended to those of its source |
| `Scanners.Scanner.Chop` | parallel/Scanner/Scanner.cs:320-328 | The part of the instructions, with the address and the size that go with it |
| `Scanners.Scanner.TryRegisterBlock` | parallel/Scanner/Scanner.cs:133-136 | The block is added exactly if its start was not known |
| `Scanners.Scanner.TryRegisterBlockEnd` | parallel/Scanner/Scanner.cs:85-88 | The end is registered exactly if it was not known |
| `SplitOld.OldReconciled` | parallel/Scanner/Scanner.cs:243-262 | Cutting a known block reconciles the graph |
| `SplitNew.NewReconciled` | parallel/Scanner/Scanner.cs:224-242 | Cutting the new block until its end is free reconciles the graph |
| `SplitOld.ChoppedEndIsNew` | parallel/Scanner/Scanner.cs:258-262 | The end of the part that is cut off is always free, so that the loop stops here |
| `SplitOld.OldEndIsStale` | parallel/Scanner/Scanner.cs:250-262 | After a known block has been cut, the table still has it under its old end, against the comment in lines 250-252 |
| `SplitExamples.StaleEndLeft` | parallel/Scanner/Scanner.cs:243-262 | A graph of two blocks that splitting leaves with a stale end |
| `SplitExamples.StrayEdgeLeft` | parallel/Scanner/Scanner.cs:224-242 | A graph of three blocks that splitting leaves with an edge past the end of its source |
| `SplitOld.OldWithin` | parallel/Scanner/Cfg.cs:139-153 | Every instruction, every way on by falling through and every edge of the old graph is found again after the cut |
| `SplitNew.NewWithin` | parallel/Scanner/Cfg.cs:139-153 | The same when the new block has been cut |
| `BlockSplits.OneIsTail` | parallel/Scanner/Scanner.cs:177-223 | For instructions of one length, one of two blocks with the same end is the tail of the other |
| `BlockSplits.CutOneMore` | parallel/Scanner/Scanner.cs:224-242 | One more known block cut off the end of the new one keeps the account of all cuts |
| `SplitResults.NewIsApart` | parallel/Scanner/Scanner.cs:224-242 | What is left of the new block shares no instruction with any known block |
| `SplitResults.NewBlockEdges` | parallel/Scanner/Scanner.cs:224-242 | The new block's edges are right if and only if it was cut at most once |
| `BlockAdditions.AddedIsValid` | parallel/Scanner/ProcedureWorker.cs:309-367 | A block with a new end joins the graph with the invariant kept |
| `BlockAdditions.NextSplitFails` | parallel/Scanner/Scanner.cs:340-352 | Once the table is stale, the next block that comes to that end has no last instruction in common with the block found there, and the search for common instructions comes back with both indices past the end, where line 200 reads an instruction |
| `WorkerProtocol.NextKeepsInv` | parallel/Scanner/ProcedureWorker.cs:77-214 | Every atomic step of any of any number of threads (the loop, calls that enqueue, calls that wake, new threads started) keeps the invariant |
| `WorkerProtocol.ReachableInv` | parallel/Scanner/ProcedureWorker.cs:77-214 | The invariant holds in every reachable state |
| `WorkerProtocol.QueueTouchedByHolder` | parallel/Scanner/ProcedureWorker.cs:110-190 | Whenever the queue changes, the thread that changes it is the one whose exchange set QueueBusy, and no other thread is inside |
| `WorkerProtocol.OneLoop` | parallel/Scanner/ProcedureWorker.cs:447-479 | Across all suspend and wake cycles at most one thread runs the worker's loop or is about to have it run, and none while the worker is suspended |
| `WorkerProtocol.NotFinishingWhileDequeuing` | parallel/Scanner/ProcedureWorker.cs:144-158 | The state is never Finishing, Suspending or Suspended where the loop tries to dequeue: the assertion in line 156 never fails |
| `WorkerProtocol.FinishingIsAbsorbing` | parallel/Scanner/ProcedureWorker.cs:196-199 | Once finishing, always finishing, with the queue left as it is |
| `WorkerProtocol.NeverInBoth` | parallel/Scanner/Scanner.cs:276-296 | The scanner never has the worker among the running and the suspended ones at once |
| `WorkerProtocol.ThreadStepFollows` | parallel/Scanner/Scanner.cs:276-296 | No step of a reachable state finds the worker missing among the suspended ones, or already there |
| `WorkerProtocol.ThreadStepKeepsItems` | parallel/Scanner/ProcedureWorker.cs:110-190 | Every item accepted is in the queue or has been taken out, never both or twice |
| `WorkerProtocol.LeftoversAreLost` | parallel/Scanner/ProcedureWorker.cs:84-93 | What is in the queue when the worker finishes is never taken out |
| `WorkerRuns.LostExactly` | parallel/Scanner/ProcedureWorker.cs:84-93 | What is lost is exactly what is in the queue at that moment |
| `WorkerRuns.ItemCanBeLost` | parallel/Scanner/ProcedureWorker.cs:84-93 | A run in which an accepted item is lost |
| `WorkerRuns.WakeCanThrow` | parallel/Scanner/ProcedureWorker.cs:447-479 | A run in which a call that wakes the worker comes to the throw in line 475 |
| `WorkerRuns.WakeThrowsWhen` | parallel/Scanner/ProcedureWorker.cs:447-479 | In every run from a start, a call that has come to the throw saw Working or Finishing at its first exchange, and at its second, later one the state was not Working any more, and if it was QueueBusy then another thread held the queue |
| `WorkerRuns.WakeThrowsThen` | parallel/Scanner/ProcedureWorker.cs:447-479 | Conversely, a call whose first exchange sees Working or Finishing, and which at its next step sees any state but Working, comes to the throw with that step |
| `WorkerRuns.WakeThrowsOnceFinishing` | parallel/Scanner/ProcedureWorker.cs:447-479 | A call that wakes the worker once it is finishing can end in the throw only, whatever all threads do |
| `WorkerRuns.WakeUndisturbed` | parallel/Scanner/ProcedureWorker.cs:447-479 | With no step of another thread between its two exchanges, and the worker not finishing, it never throws |
| `WorkerRuns.InNeitherDictionary` | parallel/Scanner/Scanner.cs:276-296 | A reachable state in which the scanner has the worker in neither dictionary |
| `Registrations.NothingFails` | parallel/Scanner/ProcedureWorker.cs:326-335 | Over every interleaving of workers, the throw in line 328, the assertion in Scanner.cs line 207 and the lookups in Scanner.cs lines 177-201 never fail |
| `Registrations.AtMostOnce` | parallel/Scanner/ProcedureWorker.cs:110-129 | Each block start is parsed at most once and each end address is given out-edges at most once |
| `Registrations.DictionariesAgree` | parallel/Scanner/Scanner.cs:80-136 | Block keys are among the candidate keys, and registered ends name block keys |
| `Registrations.NextKeepsInv` | parallel/Scanner/Scanner.cs:168-265 | Every step of any worker keeps the invariant |
| `Registrations.ReachableInv` | parallel/Scanner/Scanner.cs:80-136 | The invariant holds in every reachable state |
| `SegmentLists.SegmentList.Occupy` | prologs/SegmentList.cs:516-535 | Whenever the merging ends at all: the list holds what it held and the block in its sort; it is in order if and only if no segment of another sort reached into the block, and then the block is held in its sort alone and the byte count stays the number of occupied addresses if it was; every segment afterwards has come out of one of its sort or of the block, so that no sort changes and none becomes empty |
| `SegmentLists.SegmentList.InsertAndMerge` | prologs/SegmentList.cs:87-130 | The same for a block put in at its place, with the change of the byte count in both cases and the "BUG FOUND" branch dead |
| `SegmentLists.SegmentList.InsertAndMergeCore` | prologs/SegmentList.cs:140-248 | Two touching neighbours of one sort become one with the right change of the count; overlapping ones of different sorts only have their pieces counted, and the list is left alone |
| `SegmentLists.SegmentList.JoinSameSorts` | prologs/SegmentList.cs:214-227 | Afterwards no two neighbours are of one sort, and pieces without gaps between them hold the same addresses and have the same total size as before |
| `SegmentLists.LoopEndsWhen` | prologs/SegmentList.cs:108-117 | The loop of lines 110-117 is over after finitely many rounds if and only if the first segment of another sort that the block, as it grows, overlaps is not inside it |
| `SegmentLists.OccupyingAroundRepeats` | prologs/SegmentList.cs:108-117 | A list of two segments on which the loop repeats its state for ever |
| `SegmentLists.EndsAfterClash` | prologs/SegmentList.cs:108-117 | A segment of another sort that sticks out of the block ends the loop in two rounds, with the list as it was |
| `SegmentLists.ClearEnds` | prologs/SegmentList.cs:87-130 | A block that no segment of another sort reaches into always lets the loop end |
| `SegmentLists.OneSortEnds` | prologs/SegmentList.cs:516-535 | On a list of segments of one sort, empty ones included, occupying a block of that sort ends and clashes with nothing |
| `SegmentRuns.RunOneSort` | prologs/SegmentList.cs:516-554 | Any sequence of calls of occupy and release in one sort, from a new list: every call ends, the segments are strictly separated and of that sort, they hold the union and difference of the blocks in turn, and the byte count is off by exactly the addresses given back, so that it is right if no call was a release |
| `SegmentRuns.RunApart` | prologs/SegmentList.cs:516-554 | The same for any sorts, as long as no block clashes with what is held and no release leaves an empty segment, both told from the calls: the segments are exactly the runs of addresses that the calls have left in one sort |
| `SegmentRuns.OccupyEndsWhen` | prologs/SegmentList.cs:108-117 | Occupying a block ends if and only if the first segment of another sort that reaches into it sticks out of it |
| `SegmentRuns.OccupyEndsByHeld` | prologs/SegmentList.cs:108-117 | Without empty segments, if and only if the first run of another sort that is held in it does not lie inside it |
| `SegmentRuns.SegmentsAreRuns` | prologs/SegmentList.cs:140-248 | Without empty segments, a segment is in the list exactly if its addresses are a run held in its sort: the list is determined by what is held |
| `SegmentRuns.LeavesEmptyByHeld` | prologs/SegmentList.cs:250-316 | When a release leaves an empty segment, told from what is held |
| `SegmentRuns.EmptySegmentRepeats` | prologs/SegmentList.cs:108-117 | A list with an empty segment in the block, on which the loop repeats its state for ever |
| `SegmentRuns.EmptySegmentStays` | prologs/SegmentList.cs:250-316 | A run of two calls in one sort after which no address is held, and yet occupying a block of another sort never ends |
| `SegmentLists.SegmentList.MergeForwards` | prologs/SegmentList.cs:108-117 | If it ends: what is held stays, the rest of the list is in order if and only if no segment of another sort overlaps the block, and the count is off by exactly what the overlapped pieces come to |
| `SegmentLists.SegmentList.MergeBackwards` | prologs/SegmentList.cs:119-129 | What is held stays and so does the difference between count and sizes; the list is in order afterwards if and only if the part from the block on was |
| `SegmentLists.SegmentList.Release` | prologs/SegmentList.cs:542-554 | Exactly the block's addresses are no longer held, whatever the sorts, and the list stays in order; every segment left is part of one of its sort, and a list without empty segments gets one exactly if a segment that ends inside the block starts with it, or touches one before it that starts inside |
| `SegmentLists.SegmentList.Remove` | prologs/SegmentList.cs:250-316 | The same, recursing from the position found; the "Unreachable reached" branch is dead |
| `SegmentLists.SegmentList.Search` | prologs/SegmentList.cs:362-382 | The first segment that ends after the address |
| `SegmentLists.SegmentList.NextFreePos` | prologs/SegmentList.cs:389-403 | The least address from the given one on that no segment has |
| `SegmentLists.SegmentList.IsOccupiedAt` | prologs/SegmentList.cs:455-466 | Whether any segment has the address; the fallback branch marked with a TODO is dead |
| `SegmentLists.SegmentList.OccupiedBySort` | prologs/SegmentList.cs:473-484 | The sort of the segment that has the address, if there is one |
| `SegmentLists.OneSort` | prologs/SegmentList.cs:140-248 | No address is held in two sorts |
| `SegmentLists.OneSortSeparated` | prologs/SegmentList.cs:140-248 | With one sort the segments are strictly separated |
| `SegmentLists.SizeIsCardinality` | prologs/SegmentList.cs:87-130 | The sizes of the segments add up to the number of occupied addresses |
| `SegmentLists.OccupiedSet` | prologs/SegmentList.cs:516-535 | Occupying makes the set the union with the block |
| `SegmentLists.ReleasedSize` | prologs/SegmentList.cs:542-554 | Releasing makes the set the difference with the block; the byte count, which is not told, is still the size if and only if nothing was released |
| `JsonRoundTrip.DocumentRoundTrips` | rekodb/rekodb/JsonWriter.cs:21-196 | Reading the text of any tree of lists, objects, 64-bit or larger integers and strings of safe characters yields exactly the tree's tokens and payloads, each at the scope depth of its nesting, and then the end of the stream twice |
| `JsonRoundTrip.ReadTree` | rekodb/rekodb/JsonReader.cs:48-415 | The same in the middle of a document, in every scope that may take a value, leaving exactly what follows the text |
| `JsonEscapes.StringRoundTripsIff` | rekodb/rekodb/JsonWriter.cs:123-155 | A string of the basic plane comes back, as bytes and decoded, if and only if it has none of the seven characters with short escapes |
| `JsonEscapes.AddsNoMore` | rekodb/rekodb/JsonReader.cs:48-373 | From the middle of any written string, reading adds no more bytes than the string has, and fewer once a short escape has been written |
| `JsonReaders.JsonReader.Read` | rekodb/rekodb/JsonReader.cs:28-37 | Returns the next token, which may have been looked at before |
| `JsonReaders.JsonReader.Peek` | rekodb/rekodb/JsonReader.cs:39-46 | Returns what the next read will return, and changes nothing about what is read after it |
| `JsonReaders.JsonReader.ReadToken` | rekodb/rekodb/JsonReader.cs:48-373 | The loop over characters does what the pushdown tokenizer does, with the one character pushed back |
| `JsonReaders.EofStays` | rekodb/rekodb/JsonReader.cs:48-373 | After the end of the stream every read is the end of the stream |
| `JsonReaders.TokenTakesCharacter` | rekodb/rekodb/JsonReader.cs:48-373 | Every other token takes at least one character, so that reading token by token ends |
| `Utf8.AddUtf8IsStandard` | rekodb/rekodb/JsonReader.cs:417-443 | The bytes added for a character number are the octet sequence of section 3 of RFC 3629, exactly for numbers that are not surrogates |
| `Utf8.StandardIsUnique` | rekodb/rekodb/JsonReader.cs:417-443 | No other octets stand for the character |
| `Utf8.BitFields` | rekodb/rekodb/JsonReader.cs:417-443 | The shifts and masks of the code are the quotients and remainders of the model |
| `Utf8.DecodedEncoded` | rekodb/rekodb/JsonReader.cs:452-455 | Decoding the bytes of a string gives the string back |
| `JsonWriters.JsonWriter.WriteTree` | rekodb/rekodb/JsonWriter.cs:21-196 | Writing a tree through the separator stack appends exactly its text and leaves the stack as it was |
| `JsonWriters.JsonWriter.WriteListItem` | rekodb/rekodb/JsonWriter.cs:157-167 | A comma exactly if there was an item before, and the item's text |
| `JsonWriters.JsonWriter.WriteKeyValue` | rekodb/rekodb/JsonWriter.cs:169-183 | The same for the fields of an object |
| `JsonWriters.JsonWriter.WriteString` | rekodb/rekodb/JsonWriter.cs:123-155 | The quoted string with every character as the code escapes it (a lone backslash for control characters with short escapes) |
| `JsonWriters.JsonWriter.WriteLong` | rekodb/rekodb/JsonWriter.cs:113-121 | The digits, quoted beyond the exact range of a 64-bit float; the least 64-bit integer has no absolute value and fails |
| `JsonWriters.JsonWriter.WriteSeparator` | rekodb/rekodb/JsonWriter.cs:185-196 | A comma is written exactly if one was due, and one is due from then on |
| `JsonWriters.JsonWriter.BeginList` | rekodb/rekodb/JsonWriter.cs:21-25 | A bracket, and a new level on which no separator is due |
| `JsonWriters.JsonWriter.EndList` | rekodb/rekodb/JsonWriter.cs:27-31 | A bracket, and the level below |
| `JsonWriters.JsonWriter.BeginObject` | rekodb/rekodb/JsonWriter.cs:33-37 | A brace, and a new level on which no separator is due |
| `JsonWriters.JsonWriter.EndObject` | rekodb/rekodb/JsonWriter.cs:39-43 | A brace, and the level below |
| `TypeReferences.TypeRoundTrips` | rekodb/rekodb/TypeReferenceDeserializer.cs:15-55 | The text of a type reference, read back, gives the type if it is built of words, signed integers and pointers, and the error for unknown types if and only if it is not |
| `TypeReferences.NameParses` | rekodb/rekodb/TypeReferenceDeserializer.cs:57-65 | The name of a word or signed integer of any 32-bit size parses to it; other primitive types are refused |
| `TypeReferences.SizeParses` | rekodb/rekodb/JsonReader.cs:375-378 | The digits of a pointer's size parse back |
| `TypeReferences.TypeReferenceSerializer.Serialize` | rekodb/rekodb/TypeReferenceSerializer.cs:16-89 | Appends the JSON text of words, primitive types and pointers |
| `TypeReferences.TypeReferenceSerializer.VisitPointer` | rekodb/rekodb/TypeReferenceSerializer.cs:56-63 | A list of the letter, the size and the pointee |
| `TypeReferences.TypeReferenceDeserializer.Deserialize` | rekodb/rekodb/TypeReferenceDeserializer.cs:15-55 | Consumes exactly the tokens of one type and returns it, or fails as the code does, on any input |
| `TypeReferences.TypeReferenceDeserializer.DeserializePointer` | rekodb/rekodb/TypeReferenceDeserializer.cs:15-55 | The rest of a pointer, from its size on |
| `TypeReferences.TypeReferenceDeserializer.Expect` | rekodb/rekodb/AbstractDeserializer.cs:14-20 | Consumes one token and fails if it is another one |
| `TypeReferences.BitSize` | rekodb/rekodb/TypeReferenceDeserializer.cs:57-65 | The loop over digits in wrapping 32-bit arithmetic |
| `LongAddRewriters.FuseAddSubPreserves` | seaofnodes/SeaOfNodes/Analysis/LongAddRewriter.cs:197-261 | For all widths and operands, the slices of the wide addition or subtraction are the low sum and the high sum with carry if and only if the high one takes the low one's carry, and then the wide carry is the high one |
| `LongAddRewriters.TakesCarry` | seaofnodes/SeaOfNodes/Analysis/LongAddRewriter.cs:207-219 | It does unless the flags are those of a slice that does not reach the top of the low part |
| `LongAddRewriters.FuseOneArgumentPreserves` | seaofnodes/SeaOfNodes/Analysis/LongAddRewriter.cs:197-261 | The same for the form in which the next addition or subtraction brings the other high operand; the wide carry is then the sum of the two carries of the high part, so that it is the flags' carry if and only if the second of them is zero |
| `LongAddRewriters.OneAtATime` | seaofnodes/SeaOfNodes/Analysis/LongAddRewriter.cs:197-261 | Adding carry and operand in two steps gives the same sum, and the two carries add up |
| `LongAddRewriters.ChainFuses` | seaofnodes/SeaOfNodes/Analysis/LongAddRewriter.cs:197-261 | Fusing a chain of limbs one after the other, each in one of the two forms, gives the sums of all limbs if and only if no limb below the last carries in its own second step; then the wide carry is the sum of the last limb's two, and the sign is the last limb's |
| `LongAddRewriters.WideAddSub` | seaofnodes/SeaOfNodes/Analysis/LongAddRewriter.cs:197-261 | A wide sum or difference is that of the low parts, and one with its carry of the high parts |
| `LongAddRewriters.FuseNegationPreserves` | seaofnodes/SeaOfNodes/Analysis/LongAddRewriter.cs:381-436 | Negating with the borrow of the low part, in both forms, is a wide negation |
| `LongAddRewriters.FuseNegationBySubPreserves` | seaofnodes/SeaOfNodes/Analysis/LongAddRewriter.cs:488-553 | Subtracting the borrow is a wide negation; in the form that tests whether the low negation is below zero without sign, fusing is right if and only if the low part is zero |
| `LongAddRewriters.FuseSarRorCPreserves` | seaofnodes/SeaOfNodes/Analysis/LongAddRewriter.cs:116-147 | A shift right by one and a rotation through carry are a wide shift right by one, with the same carry out |
| `LongAddRewriters.FuseShlRolCPreserves` | seaofnodes/SeaOfNodes/Analysis/LongAddRewriter.cs:149-180 | The same to the left |
| `LongAddRewriters.FuseLongShiftRightPreserves` | seaofnodes/SeaOfNodes/Analysis/LongAddRewriter.cs:555-646 | A shift with spill, logical or arithmetic and by any amount, is the wide shift if and only if: a logical one is by at most the low width or spills nothing; an arithmetic one up to the low width has a low part with a clear top bit or spills set bits only, and beyond it the high part, taken with its sign, fits into the bits by which the amount exceeds the width and has the sign of the low part |
| `LongAddRewriters.ArithmeticSpillBeyond` | seaofnodes/SeaOfNodes/Analysis/LongAddRewriter.cs:555-599 | The case of an arithmetic shift beyond the low width: the high slice is always right, the low one exactly then |
| `MachineArithmetic.Carry` | seaofnodes/SeaOfNodes/Analysis/LongAddRewriter.cs:197-261 | A carry out of the low part is what the whole adds to the high part, for any sum of parts, negative ones included |
| `MachineArithmetic.Spilled` | seaofnodes/SeaOfNodes/Analysis/LongAddRewriter.cs:555-599 | A whole shifted right within the low width, part by part |
| `MachineArithmetic.OrOfHighParts` | seaofnodes/SeaOfNodes/Analysis/LongAddRewriter.cs:555-599 | Or-ing into the upper bits leaves the lower bits alone |
| `PeepholeOptimizers.BinPreserves` | seaofnodes/SeaOfNodes/Analysis/PeepholeOptimizer.Bin.cs:12-123 | Whatever node is made of a binary operation has the operation's value modulo 2 to the width, for every operation, operands and width |
| `PeepholeOptimizers.WithConstantPreserves` | seaofnodes/SeaOfNodes/Analysis/PeepholeOptimizer.Bin.cs:31-88 | Adding a negative constant as a subtraction, or the other way round, or leaving out zero |
| `PeepholeOptimizers.AddPreserves` | seaofnodes/SeaOfNodes/Analysis/PeepholeOptimizer.Bin.cs:31-88 | Constants of nested additions and subtractions taken together |
| `PriorityQueues.PriorityQueue.TryDequeue` | parallel/Scanner/PriorityQueue.cs:75-86 | Returns an item of the highest priority of all, and the rest stays, in heap order; false exactly if there was none |
| `PriorityQueues.PriorityQueue.Enqueue` | parallel/Scanner/PriorityQueue.cs:67-73 | Adds exactly the item and keeps the heap order |
| `PriorityQueues.PriorityQueue.TrickleDown` | parallel/Scanner/PriorityQueue.cs:48-63 | Sinking the hole to a leaf before the item bubbles up restores the heap order and keeps the items |
| `PriorityQueues.PriorityQueue.BubbleUp` | parallel/Scanner/PriorityQueue.cs:36-46 | Moves the hole up to where the item belongs |
| `PriorityQueues.PriorityQueue.GrowHeap` | parallel/Scanner/PriorityQueue.cs:29-34 | Twice the capacity and one, with the items in their places |
| `PriorityQueues.PriorityQueue.constructor` | parallel/Scanner/PriorityQueue.cs:23-27 | An empty heap |
| `PriorityQueues.RootIsMax` | parallel/Scanner/PriorityQueue.cs:75-86 | In heap order no item has a higher priority than the first |
| `PriorityQueues.HoleUp` | parallel/Scanner/PriorityQueue.cs:36-46 | The hole moves up with the order kept everywhere else |
| `PriorityQueues.HoleDown` | parallel/Scanner/PriorityQueue.cs:48-63 | The hole moves down to the greater child with the order kept everywhere else |
| `PriorityQueues.Drain` | parallel/Scanner/PriorityQueue.cs:67-86 | Dequeuing until nothing is left gives all items in non-increasing order of priority |
| `NodeGraphRenderers.TopologicalSortAnchored` | seaofnodes/SeaOfNodes/Nodes/NodeGraphRenderer.cs:221-286 | A list of all anchored nodes, each once: first exactly those neither on a cycle nor behind one, each after all anchored nodes that feed it through floating ones, and before all the others that could have come next in the order of phis, terminators and numbers; then the rest |
| `NodeGraphRenderers.CollectAnchoredDeps` | seaofnodes/SeaOfNodes/Nodes/NodeGraphRenderer.cs:295-321 | The recursive search adds only what feeds the node and leaves nothing of what it visits unaccounted for; it ends |
| `NodeGraphRenderers.AnchoredDeps` | seaofnodes/SeaOfNodes/Nodes/NodeGraphRenderer.cs:295-321 | Exactly the anchored nodes that feed the node |
| `NodeGraphRenderers.Sort` | seaofnodes/SeaOfNodes/Nodes/NodeGraphRenderer.cs:235-286 | The same for Kahn's loop on any relation, cyclic or not |
| `NodeGraphRenderers.Decrement` | seaofnodes/SeaOfNodes/Nodes/NodeGraphRenderer.cs:266-275 | The degrees go on counting unmet dependencies, and exactly the nodes that have none become ready |
| `NodeGraphRenderers.MinReady` | seaofnodes/SeaOfNodes/Nodes/NodeGraphRenderer.cs:244-263 | The node that comes first in the order of phis, terminators and numbers |
| `NodeGraphRenderers.NoFirstNodeHasCycle` | seaofnodes/SeaOfNodes/Nodes/NodeGraphRenderer.cs:221-286 | Nodes that all depend on one another's set are each on a cycle or behind one |
| `NodeGraphRenderers.LeftAreBlocked` | seaofnodes/SeaOfNodes/Nodes/NodeGraphRenderer.cs:260-283 | When no more nodes are ready, those left are the ones on a cycle or behind one, and no others |
| `NodeGraphRenderers.RespectedIsNotBlocked` | seaofnodes/SeaOfNodes/Nodes/NodeGraphRenderer.cs:221-286 | No node of a list that respects the dependencies is on a cycle or behind one |
| `ProcedureBuilders.ProcedureBuilder.BuildProcedures` | interactive/ProcedureBuilder.cs:27-50 | The clusters share no block, contain all blocks, and each that is not empty is one weakly connected component whose entries are exactly its blocks without predecessors; both loops end |
| `ProcedureBuilders.ProcedureBuilder.FindWcc` | interactive/ProcedureBuilder.cs:83-112 | Takes exactly what is connected with the address out of the remaining blocks; an address that is not among them gives an empty cluster |
| `BlockSoupAnalyses.BuildBlocks` | blocksoup/BlockSoupAnalysis.cs:83-149 | Every instruction is in exactly one block, once; each block is a chain of fall-through addresses with no target of a jump inside; every edge joins keys of the result and the calls of each address are counted; nothing comes out exactly if an end of some edge is not an instruction |
| `BlockSoupAnalyses.CollectTargets` | blocksoup/BlockSoupAnalysis.cs:86-102 | The targets are those of edges other than calls, the called addresses those of calls, with their number |
| `BlockSoupAnalyses.Place` | blocksoup/BlockSoupAnalysis.cs:109-140 | One more instruction, at the end of the block that waits for it or in one of its own |
| `BlockSoupAnalyses.JoinBlocks` | blocksoup/BlockSoupAnalysis.cs:143-147 | Every edge between instructions becomes one between the blocks they are in |
| `FindBaseStrings.ThreadsFindAll` | findbaseaddr/find_load_addr/FindBaseString.cs:152-259 | For up to 65536 threads and any power-of-two stride, a base is found by some thread if and only if a single scan of all addresses finds it, with the same count |
| `FindBaseStrings.RangesAbut` | findbaseaddr/find_load_addr/FindBaseString.cs:152-183 | The ranges start at zero, each ends where the next starts, and the last ends at the end of the 32-bit space |
| `FindBaseStrings.OnlyLastShareEnds` | findbaseaddr/find_load_addr/FindBaseString.cs:152-183 | Up to 65536 threads no range but the last is cut off at the end of the space, in 64-bit arithmetic |
| `FindBaseStrings.ShareFits` | findbaseaddr/find_load_addr/FindBaseString.cs:152-183 | Up to 65536 threads the product in the formula for a share does not wrap around |
| `FindBaseStrings.FoundTwice` | findbaseaddr/find_load_addr/FindBaseString.cs:152-259 | A base is found by two neighbouring threads exactly if it matches and is where their ranges meet |
| `FindBaseStrings.FindMatches` | findbaseaddr/find_load_addr/FindBaseString.cs:201-259 | The heap has exactly the aligned bases of the interval with at least one match, with their counts |
| `FindBaseStrings.CountHits` | findbaseaddr/find_load_addr/FindBaseString.cs:201-259 | How many different pointers the strings come to at a base |
| `FindBaseStrings.RebasedIs` | findbaseaddr/find_load_addr/FindBaseString.cs:261-274 | A 64-bit sum is used exactly if it does not wrap around |

## Left out

- NodeGraphBuilders.NodeGraphBuilder.Transform: `PopulateExitUses` is represented by `LaterReadIsCorrect`, and statements by assignments of a fresh value and copies.
- OverwrittenDefinitions.ReassignmentForgotten: phis with an operand that comes from the entry of another block with several predecessors, or past an assignment that may itself have been forgotten, are characterised by the run alone (`RememberedDefinitionKept`, `AddPhiOperands`), because whether such nodes become one depends on the order in which they are replaced.
- OverwrittenDefinitions.ReadsAfterwardsAreWrong: readers that follow the forgetting block directly; what is seen in all others is in `EveryReadIsCorrect`.
- NodeGraphBuilders.NodeGraphBuilder.ReadStorage: covers storages that do not overlap; data types are not modelled, and a block without predecessors that is not the entry (the throw in line 646) is excluded by reachability. Nodes are numbered values rather than heap objects here; their edges as heap objects are in `Node.dfy`.
- RegisterFiles.RegisterDefs.ReadStorage: one register domain in one block, the predecessor's answer being given; `RegisterChains.RegisterChain.ReadStorage` has it come from the blocks before, along a line of blocks with one predecessor each. Partial reads around loops recurse without a registered phi (NodeGraphBuilder.cs lines 946-953). Not modelled: flag groups, sequences, stack slots and memory.
- Scanners.Scanner.SplitBlock: instructions of one length on one architecture, so that the branch for misaligned instructions (Scanner.cs lines 187-223) is proved dead rather than followed; blocks end in a transfer of control when they are registered, and call edges with their fall-through are not told from other edges.
- Scanners.Scanner.RegisterBlockEnd: one worker at a time; the interleavings of the dictionaries are in `Registrations.dfy`, without the contents of blocks, and `RegisterEdge` is one step there, which it is not in the code.
- WorkerProtocol.ReachableInv: one worker object; a second one started for the same procedure while the first is in neither dictionary, liveness, the balance of `pendingCalls`, delay slots and exceptions inside `Process` other than its failure are not modelled.
- Nodes.Replace: nodes have inputs, outputs, a number and a storage; data types and kinds of nodes are not modelled.
- SegmentLists.SegmentList.Occupy: requires exactly that the loop ends (`LoopEndsWhen`), for otherwise there is no state afterwards to speak of. Segments are values, so that aliasing of `Segment` objects between copies of a list is not captured; `next_pos_with_sort_not_in`, `occupied_by` and `copy` are left out as easy.
- SegmentLists.SegmentList.InsertAndMerge: the same.
- SegmentRuns.RunApart: sequences with a clash or with an empty segment left over are covered call by call (`Occupy`, `Release`), not as a whole, unless they are of one sort.
- JsonRoundTrip.DocumentRoundTrips: strings of safe characters of the basic plane and nothing else; characters beyond it (surrogate pairs), booleans, null and fractions are not in the trees. The tokenizer follows the code for fractions and exponents, but nothing is stated about their values.
- JsonWriters.JsonWriter.WriteString: characters are 16-bit; a string that is null is not modelled.
- TypeReferences.TypeReferenceDeserializer.Deserialize: `GetString` on bytes that are not UTF-8 gives one replacement character for every byte, which may differ in number from .NET's; types other than words, primitives and pointers are not in the model. Most of them throw; an unknown type is written as an object with its size (TypeReferenceSerializer.cs lines 121-126), which the deserializer refuses.
- LongAddRewriters.FuseAddSubPreserves: expressions are values; the work list, the replacement of nodes in the graph and `TryFuseLongOperation` are left out. Flags stand for their carry, so that the zero flag, which `ReplaceCondOfs` changes, is not modelled. Adjacent halves are plain concatenations.
- LongAddRewriters.FuseLongShiftRightPreserves: shift amounts from the width on give zero, or copies of the sign; the processor's own treatment of them is not modelled.
- PeepholeOptimizers.BinPreserves: all operands of an operation have the width of its result; operations other than those simplified are uninterpreted.
- PriorityQueues.PriorityQueue.Enqueue: the order of items of equal priority is not stated, for the code does not keep it; clearing, copying and enumerating are left out as easy.
- NodeGraphRenderers.TopologicalSortAnchored: which inputs count (reachability, memory chains, control nodes) is part of the graph that is given; scheduling of floating nodes and the text are left out.
- BlockSoupAnalyses.BuildBlocks: the adapter is part of each instruction, and no two instructions have one address, which the instruction collector sees to (adding a second one throws).
- FindBaseStrings.FindMatches: reading strings and pointers, progress and the merging of the threads' results by rank are left out.
- The disassembler, architectures, I/O, user interface, rendering and all unfinished string searches are not modelled.
