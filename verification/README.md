# A model of the bdc compiler's algorithms and circuits

`bdc/` compiles a handshake dataflow graph into four-phase asynchronous circuits. This project models the parts its
correctness rests on and proves what each of them is for:

- **Storage placement.** Tarjan's algorithm with its explicit work stack, the check that every cycle has storage, the
  rule that cuts every cycle with a link, and the rule that deepens links until every cycle has three stages. The
  second rule's loop bound and the unreachability of its error branches rest on one fact (`RingDepth.DeepenLifts`,
  `RingDepth.NeverTwice`): the deepened cycle is a lightest one, so deepening a link on it lifts *every* cycle through
  that link, and no link is chosen twice.
- **Operator fusion.** Capped union-find, constant absorption, region building, and the replacement of a region by one
  cell, with the leak check that follows. Operations are given a stream semantics (a channel is the tokens ever offered
  and the number taken), and fused and separate cells are shown to have the same histories, over a whole function, in
  both directions.
- **Handshake circuits**, as interleaved step systems over every run: one memory station; a store and a load chained
  through an arbitrated port, with the words they move, against a sequential memory; the N-input arbitrated merge; the
  Muller pipeline, its order and its draining; the ring of link controllers. The variants the repository warns about have runs, or exhaustive
  bounds, that show what goes wrong.
- **Reader and printer** of the textual graph: a grammar of the text with its meaning, written without the reader, and
  the proof that the reader takes every file of the grammar as what it means and accepts no other text
  (`FileTexts.FileReads`, `FileTexts.ReadIsFile`); the token-level round trip with the exact conditions under which it
  holds, the producer and reader tables, and the reader as a class with a position, each method proved against the
  function it computes.
- **Arithmetic kernels** in 32-bit words: trial division, binary gcd, and the two replicas of the bench signature.
- **Width resolution** and the **heaviest-ring** enumeration.

Where the source works step by step the model is a method or a class proved against a specification; where it computes
a value it is a function. A reader may start from the last lemma or method of a module: the main results are there.

What the model shows of the code that its own documentation does not say:

- A fused cell is left reading a dead value exactly when some region has *only* literals for operands
  (`LinkSites.DeadInputIff`); `1 + 2` is an example (`LinkSites.LiteralSumIsStranded`). The fallback at
  `bdc/emit.py:865-877` makes a constant live again in the region, but `compute_fusion` has put it and its source in
  `skip` and `dead_values` already. The leak check does not report it: links are never asked for on a constant's value
  (`LinkSites.PlaceLinks`). Told from the function before fusion: it cannot happen if every fusable operation has an
  operand that does not fold (`Stranding.LiveOperandsSuffice`), and it does happen if one computes a constant that
  nothing fusable reads (`Stranding.ConstantResultStrands`).
- The replica's wrapping `isprime` is right about every word but 2^31 - 1, which is prime and for which it says 0
  (`IsPrime.IsPrimeWrapping`).
- A floating-point attribute of one digit below 1e-4 or from 1e16 on is printed without a decimal point, as in `1e-05`,
  and is not read back (`Attributes.NumberRoundTripIff`).
- `bdc/mem.py:180-186` says that on the plain port the token chain gets the data right. There the load can
  hand on the word just stored whatever address it reads (`StoreLoad.SharedPortMisreads`).
- A quoted string survives printing and reading exactly if no backslash in it is followed by `n`; results survive exactly
  if no group of one is among them; a function's names survive exactly if both name lists are there or no port is named;
  a file survives exactly unless a module was asked for around functions that had none.

## Model

| member | source | states |
|---|---|---|
| Graphs.OnCycleIff | bdc/slack.py:327-336 | a node is on a cycle exactly when one of its successors leads back to it |
| Dataflow.BuildNodeGraph | bdc/slack.py:241-254 | the edge list holds each edge as often as its producer lists the value times as often as its consumer reads it, and nothing else |
| Dataflow.Adjacency | bdc/slack.py:248-254 | successor lists agree with the edges, for every node |
| Dataflow.StringLessIff | bdc/emit.py:1173-1178 | value names are ordered by a common beginning, then the end of the one or its smaller character |
| Dataflow.StringLessTotal | bdc/emit.py:1173-1178 | the order that breaks ties between value names is total (with the two lemmas before it, a strict order) |
| Tarjan.VisitFollowed | bdc/slack.py:299-304 | numbering a node and putting it on both stacks leaves every followed arc accounted for |
| Tarjan.LowerKeeps | bdc/slack.py:307-308 | lowering the top node's `low` to the number of a stack node it reaches keeps every invariant of the search |
| Tarjan.DescendInv | bdc/slack.py:298-306 | advancing the iterator to an unnumbered neighbour and visiting it keeps every invariant |
| Tarjan.MeetInv | bdc/slack.py:307-308 | meeting a numbered neighbour, on the stack or not, keeps every invariant |
| Tarjan.RetreatInv | bdc/slack.py:311-314 | leaving a node that reaches below itself hands its `low` to its parent and keeps every invariant |
| Tarjan.RootComponent | bdc/slack.py:315-323 | when `low` equals the number, the stack from that node up is one whole strongly connected component |
| Tarjan.CloseInv | bdc/slack.py:315-323 | popping that component keeps every invariant |
| Tarjan.Scan | bdc/slack.py:296-310 | running the top iterator ends with a new frame or an exhausted one; the finished set does not change |
| Tarjan.PopComponent | bdc/slack.py:316-322 | the pop loop takes exactly the stack from the root up, in reverse order |
| Tarjan.Leave | bdc/slack.py:311-323 | a finished node leaves; if a component comes out it is one, is new, and joins the finished set |
| Tarjan.Explore | bdc/slack.py:285-323 | from an unnumbered start everything reachable is numbered and the components found so far stay disjoint and right |
| Tarjan.TarjanScc | bdc/slack.py:267-324 | terminates on every graph and returns a partition of the listed nodes into the strongly connected components of the restricted graph |
| Tarjan.SharedComponentIff | bdc/slack.py:267-324 | two listed nodes are in one of the returned components exactly when each reaches the other |
| Slack.IsCycleIff | bdc/slack.py:327-336 | the two-nodes-or-self-loop test says exactly that each node of the component is on a cycle |
| Slack.LiveComponents | bdc/emit.py:1160 | the genuine cycles among the components: disjoint, and together all nodes on a cycle |
| Slack.LooseIff | bdc/slack.py:392-408 | the cyclic residual components hold exactly the nodes on cycles without storage |
| Slack.VerdictIff | bdc/slack.py:392-408 | no cyclic component is left without the storage nodes exactly when every cycle visits one of them |
| Slack.CheckCycles | bdc/slack.py:376-416 | no violation exactly when every cycle of the whole graph visits a storage node; the reported nodes are exactly those on cycles that do not, none of them in two violations, and a violation lists exactly its component's inner edges |
| Storage.First | bdc/emit.py:1173-1178 | the pick leads into a control_merge, merge or mux if any candidate does, and no candidate like it has a smaller name |
| Storage.Untouched | bdc/emit.py:1163-1180 | with one producer per value, links picked in earlier components of a batch leave this component's edges alone |
| Storage.HeaderEdge | bdc/emit.py:1163-1178 | if every cycle passes a loop header, each live component has an unlinked inner edge into one |
| Storage.CutEach | bdc/emit.py:1163-1180 | one batch: in each live component in turn, one edge is linked, the pick of those still unlinked there; it lies on a cycle free of the links before the batch; the error needs a value with two producers |
| Storage.StillCyclic | bdc/emit.py:1156-1162 | the live components of the residual graph, all of them; none left means the residual graph is acyclic |
| Storage.Progress | bdc/emit.py:1155-1180 | every batch leaves fewer unlinked values, so the loop ends |
| Storage.CycleSites | bdc/emit.py:1110-1180 | terminates; the graph without linked and excluded channels is acyclic; the links come from batches of one pick in each component still cyclic, and from nothing else; each lies on a link-free cycle, at a header if all cycles have one; the error is unreachable with one producer per value |
| ShortestPaths.PopMin | bdc/emit.py:1253 | the least queued pair: nearest, then lowest node number |
| ShortestPaths.StagesAdd | bdc/emit.py:1237-1257 | a path's stages are those of its links added up, none on a channel without a link |
| ShortestPaths.RelaxAll | bdc/emit.py:1256-1259 | relaxing a settled node's edges keeps the tree, the settling order and the queue sound, over zero-weight edges too |
| ShortestPaths.Dijkstra | bdc/emit.py:1248-1260 | distances are exactly those of lightest trails, and the predecessor edges form a tree ranked by settling order |
| RingDepth.WayBack | bdc/emit.py:1273-1277 | tracing predecessors ends and gives a simple trail of the distance's weight, also over zero-weight edges |
| RingDepth.CloseRing | bdc/emit.py:1264-1281 | an edge and the shortest way back is a simple cycle, and no cycle that sets out over the edge is lighter |
| RingDepth.NamesAre | bdc/emit.py:1282 | what breaks a tie between rings is the sorted list of their values |
| RingDepth.NamesLessIff | bdc/emit.py:1282-1284 | such lists are ordered by a common beginning, then the end of the one or its smaller name |
| RingDepth.LightestCycle | bdc/emit.py:1242-1285 | a simple cycle no heavier than any cycle of any length, and least by weight and then sorted names among a lightest one over each edge; none only if there is no cycle |
| RingDepth.DeepenLifts | bdc/emit.py:1287-1304 | deepening a link on the lightest cycle by what it lacks lifts every cycle through that link to the floor, and spoils no link lifted before |
| RingDepth.NeverTwice | bdc/emit.py:1287-1304 | a link on a cycle under the floor has not been chosen before |
| RingDepth.RingNeeds | bdc/emit.py:1212-1218 | the deepened cycle is under the floor with plain links, and the new depth takes it no further than the floor |
| RingDepth.WeightlessIff | bdc/emit.py:1292-1300 | a cycle weighs nothing exactly if it carries no link |
| RingDepth.Round | bdc/emit.py:1287-1304 | one round chooses a new link and keeps what the rounds before achieved |
| RingDepth.RingDepths | bdc/emit.py:1204-1304 | from one stage for each link, round by round, the pick on the chosen lightest cycle gets what the cycle lacks; depths are returned exactly when every cycle has a link, never the did-not-converge error; every cycle then adds up to at least 3 stages, each depth is 1 to 3, and a link is deeper than 1 only as far as some cycle through it needs with every other link a plain one |
| RingDepth.PlaceStorage | bdc/emit.py:1462-1486 | cutting, then deepening: with one producer per value it always succeeds, every cycle adds up to at least 3 stages, each added link lay on a cycle that had none, and no link is deeper than some cycle needs |
| UnionFind.Forest.constructor | bdc/emit.py:716-718 | every item is a component of its own |
| UnionFind.Forest.Find | bdc/emit.py:720-724 | path halving ends at the component's root and changes no component |
| UnionFind.Forest.UnionIf | bdc/emit.py:726-737 | two components become one exactly if they differ and fit under the cap together; otherwise nothing changes |
| UnionFind.MergedClasses | bdc/emit.py:726-737 | a merge changes one class only, which gains exactly the other's members |
| TopoOrder.Visit | bdc/emit.py:795-802 | the recursive visit ends, and appends a node after everything it depends on when there is no dependency cycle |
| TopoOrder.TopologicalOrder | bdc/emit.py:780-805 | every member once, and after its dependencies if they are acyclic |
| ValueUse.ProducerMap | bdc/emit.py:888-891 | each value's producer |
| ValueUse.ConsumerMap | bdc/emit.py:911-914 | each value's readers in node order, with repetitions |
| ValueUse.SoleReader | bdc/emit.py:931-938 | a value with one reader is read at one place only |
| Literals.Port | bdc/emit.py:946-950 | the first operand position that reads the value |
| Literals.AbsorbConstants | bdc/emit.py:926-953 | the absorbed nodes are exactly the foldable constants and their sources, the folded places exactly those that read them, each with its constant's value |
| Grouping.MergeClosesProducer | bdc/emit.py:813-821 | merging along an edge leaves no open member in the producer's part |
| Grouping.MergeKeepsOneOpen | bdc/emit.py:813-821 | so a component never has two results that leave it, when each value has one reader |
| Grouping.FusableEdges | bdc/emit.py:959-964 | the edges between fusable operations, all of them and no other |
| Grouping.SortByValue | bdc/emit.py:965 | a permutation, in value order |
| Grouping.Group | bdc/emit.py:955-967 | components hold at most four fusable operations, have one open member each, two joined by an edge do not fit together, and they are what joining along the edges in the order of their values leads to |
| Regions.Dependencies | bdc/emit.py:785-792 | each member's dependencies inside the region |
| Regions.RegionOrder | bdc/emit.py:780-811 | the members, once each, producers first if the fusable operations form no cycle |
| Regions.Sinks | bdc/emit.py:822-835 | exactly the members whose result leaves the region or is read by nobody; refused only if a member has not one result |
| Regions.LastIsSink | bdc/emit.py:813-843 | a region has a sink: its last member |
| Regions.SinkIsOpen | bdc/emit.py:813-843 | and with one reader per value no other |
| Regions.Wire | bdc/emit.py:848-863 | every operand is wired to its literal, its member or an external input; every external input is read, and listed once |
| Regions.NoInputsIff | bdc/emit.py:865-872 | there is no external input exactly when all operands are literals or interior |
| Regions.UnfoldOne | bdc/emit.py:873-877 | making one literal live again gives such a region its one external input, and leaves the other wires as they were |
| Regions.BuildRegion | bdc/emit.py:808-879 | a region of exactly the members, ordered, with a single sink for anchor and every operand wired; refused exactly if a member has not one result, not one result leaves, or there is nothing to make live again |
| Fusion.AddRegion | bdc/emit.py:978-983 | members get the region, all but the anchor are skipped, and exactly their results die |
| Fusion.Groups | bdc/emit.py:969-971 | the members of each component under its root |
| Fusion.BuildRegions | bdc/emit.py:973-983 | one region for each component, each node in its own |
| Fusion.ComputeFusion | bdc/emit.py:882-986 | regions partition exactly the eleven combinational operations, hold at most four, have one anchor each, cannot be merged further, and are those that taking the edges in value order leads to; skipped nodes and dead values are exactly the buried members', the absorbed constants' and their sources'; always succeeds on a materialised function |
| LinkSites.DeadIsInternal | bdc/emit.py:978-985 | a dead value is read inside its own region, as a literal, or as a constant's trigger |
| LinkSites.DeadInputIff | bdc/emit.py:865-877 | a fused cell's external input is dead exactly when some region has nothing but literals to read |
| LinkSites.LiteralSumIsStranded | bdc/emit.py:865-877 | on `1 + 2`, well formed and materialised, every fusion plan leaves an external input dead |
| Stranding.LiveOperandsSuffice | bdc/emit.py:865-877 | if every fusable operation has an operand that does not fold, no plan leaves a cell reading a dead value |
| Stranding.LiveFunctionsUnfold | bdc/emit.py:882-986 | and every history of the fused function unfolds into one of the separate operations |
| Stranding.ConstantResultStrands | bdc/emit.py:865-877 | an operation that computes from literals alone, directly or through others, and that nothing fusable reads, strands some cell under every plan |
| Stranding.StrandedIff | bdc/emit.py:865-877 | where connected fusable operations fit into one cell, a cell is stranded exactly if there is such an operation |
| LinkSites.MeasurabilitySites | bdc/emit.py:1076-1107 | exactly the wide, non-constant values read by a fused cell, a mux or a many-input merge |
| LinkSites.NothingLeaks | bdc/emit.py:1471-1483 | neither rule asks for storage on a dead value, if cuts are at loop headers |
| LinkSites.PlaceLinks | bdc/emit.py:1458-1483 | on a materialised function whose cycles all pass a loop header the leak check never fires, whatever it holds of literals; the links are the measurability sites and values on cycles those leave free, they cut every cycle, and none is dead |
| LinkSites.PlaceFusedStorage | bdc/emit.py:1454-1486 | fusing, linking, checking and deepening together: it succeeds under the same conditions, every cycle then adds up to at least 3 stages, and every stage is on a live channel |
| Operators.BitwiseBits | bdc/compute.py:62-79 | bit k of an and, or, exclusive or depends on the operands' bits k only |
| Operators.BitwiseOperations | bdc/compute.py:62-72 | digit k of andi is 1 exactly if both operands' are, of ori if either is, of xori if they differ, for the meaning and for the emitted expression |
| Operators.ShiftLeftMultiplies | bdc/compute.py:62-79 | `<<` multiplies by a power of two within the width |
| Operators.ShiftRightDivides | bdc/compute.py:62-79 | `>>` divides by it |
| Operators.ShiftRightSignedDivides | bdc/compute.py:62-79 | `>>>` divides the signed value, rounding down |
| Operators.FlipAdds | bdc/compute.py:348-363 | flipping the sign bit moves a value by half the range |
| Operators.FlipOrders | bdc/compute.py:74-91 | one unsigned comparison of flipped operands decides all ten predicates, at every width from 1 |
| Operators.SignedArithmetic | bdc/compute.py:62-79 | sums, differences and products are the same for signed and unsigned readings |
| Operators.SignedIff | bdc/compute.py:348-363 | the signed reading is the one number of the signed range that is the value modulo the width |
| Operators.LoweredOperations | bdc/compute.py:62-91 | which operations and which comparison predicates have a lowering |
| Operators.UnitsAgree | bdc/emit.py:989-1038 | fused or separate, each operation computes its meaning on two's complement values, a select hands on the operand its condition names, and the result fits |
| Operators.ArithmeticOperations | bdc/compute.py:62-79 | sum, difference, product and shifts, each by its name, as arithmetic modulo the width |
| Operators.ComparisonOperations | bdc/compute.py:74-91 | the ten comparisons, each by its name and the order of the unsigned or signed readings |
| Streams.Shortest | bdc/emit.py:2432-2534 | a join fires as often as all its operands have tokens, endless ones not counting |
| Streams.WellTypedIff | bdc/emit.py:989-1038 | which widths an operation's operands and result have: a choice is one bit, a comparison's answer is one bit, all others alike |
| Streams.Zip | bdc/emit.py:2432-2534 | the stream a cell makes of its operands', token by token, as long as all last |
| FusedCell.CellComputes | bdc/emit.py:2450-2478 | the wires of the fused cell carry the tokens the separate operations would produce |
| FusedCell.AnchorIsLast | bdc/emit.py:2480-2482 | the anchor is the last in producers-first order |
| FusedCell.AllLead | bdc/emit.py:2511-2519 | each member is offered and acknowledged as often as the anchor |
| FusedCell.SeparateIsFused | bdc/emit.py:2432-2534 | whatever separate cells, live constants and sources do at a region's boundary, the one cell does: same output stream, same number of tokens taken from each input |
| Unfusing.FusedIsSeparate | bdc/emit.py:2432-2534 | and whatever the cell does, the separate cells can do, with the hidden channels filled in |
| FusionMeaning.SeparateHistoriesFuse | bdc/emit.py:882-986 | over a whole function: a history of all separate cells is one of the fused function |
| FusionMeaning.OneHider | bdc/emit.py:978-985 | no value is hidden by two regions |
| FusionMeaning.FusedHistoriesUnfold | bdc/emit.py:882-986 | over a whole function without all-literal regions: a fused history unfolds into one of the separate cells that shows the same on every live channel |
| Station.StepInv | bdc/mem.py:366-425 | every gate, producer, port and consumer step keeps the phase and count invariant, with any number of operands |
| Station.OneAccessPerSet | bdc/mem.py:58-81 | in every run claims, accesses, results and releases follow each other, one of each per operand set |
| Station.ReofferedAtPortQuiet | bdc/mem.py:58-81 | an operand is offered again only with claim, join and port acknowledge low |
| Station.Persistent | bdc/mem.py:384-425 | no event disables another: no gate glitches, whatever its delay |
| Station.NeverStuck | bdc/mem.py:366-425 | in every reachable state something can happen |
| Station.NaiveAckSwallows | bdc/mem.py:323-335 | with operands acknowledged straight by the consumer, a run answers two operand sets with one access |
| Chain.StepInv | bdc/mem.py:366-425 | every step of store, load, token, arbiter and RAM keeps the invariant of the chain |
| Chain.EdgesAlternate | bdc/mem.py:156-186 | RAM edges alternate store, load, one for each completed access, in every run |
| Chain.OneSlotServed | bdc/mem.py:165-170 | the arbitrated port acknowledges one slot at a time, the one it grants |
| Chain.NeverStuck | bdc/mem.py:110-139 | the chain built with `done` and the arbiter can always go on |
| Chain.Persistent | bdc/mem.py:110-139 | and no move takes away another's turn |
| Chain.UnlatchedStops | bdc/mem.py:110-121 | with `p_req = joined` every run ends within a bound, after at most one RAM edge and with no load served; where it ends both stations claim the port |
| Chain.SharedPortSwallows | bdc/mem.py:179-186 | on the plain port with one shared acknowledge a run completes a load that made no RAM edge |
| StoreLoad.StepInv | bdc/mem.py:366-425 | with addresses, data and the RAM added, every step keeps joined, performed and taken accesses in account |
| StoreLoad.LoadsReadSequentially | bdc/mem.py:156-186 | in every run of the chain the consumer takes, in order, what each load returns in a sequential memory that alternates store and load; the word holds still from result offered to acknowledge fallen |
| StoreLoad.SharedPortMisreads | bdc/mem.py:180-186 | on the shared-acknowledge port a run hands on the word just stored for a load of an address never written |
| Amerge.DataMuxPicks | bdc/emit.py:382-387 | the chain of conditionals selects the indexed input |
| Amerge.WinnerHolds | cells/verify/inits.py:171-193 | while a transaction is on, a state node that moves is below the winner and does not change it |
| Amerge.StepInv | bdc/emit.py:390-485 | every step of the n-input cascade keeps its invariant, and the winner while a transaction is on |
| Amerge.IndexNamesTheServed | bdc/emit.py:367-387 | for every n and run, from the merged request rising to the output acknowledge falling, the priority chain names the one input acknowledged, and holds still |
| Amerge.AcknowledgesMatch | cells/README.md:247-258 | input acknowledges are the output transactions, one for one, in order |
| Amerge.RequestPersists | bdc/emit.py:390-485 | the merged request is not withdrawn before it is acknowledged |
| Amerge.RequestsAnswered | bdc/emit.py:390-485 | while an input waits, the merge, its consumer or the served client can move |
| Amerge.UnfrozenOverAcknowledges | cells/verify/inits.py:171-182 | with the unfrozen state node a run makes two acknowledges of one transaction |
| Pipeline.ControlTokens | cells/verify/inits.py:142-149 | a controller that moves neither gains nor loses a value; the first, rising, takes one in |
| Pipeline.StepInv | cells/rtl/bd_link.v:1-30 | every step of the link pipeline, latches moving on their own, keeps accepted = delivered + content |
| Pipeline.AtMostHalf | cells/rtl/bd_link.v:14-18 | at most one value in two stages |
| Pipeline.PipelineIsFifo | cells/rtl/bd_link.v:1-30 | for every length and run, delivered values are a prefix of accepted ones, in order; at most (N+1)/2 wait for an acknowledge, and while one is being acknowledged at most N/2 more are inside |
| Draining.Persistent | cells/rtl/bd_link.v:1-30 | no event disables a controller about to move, nor an answer due |
| Draining.NeverStuck | cells/rtl/bd_link.v:1-30 | in every state but rest something other than the producer's choice can move |
| Draining.MoveShrinks | cells/rtl/bd_link.v:1-30 | every such move brings the pipeline nearer to rest |
| Draining.EverythingComesOut | cells/rtl/bd_link.v:1-30 | from every reachable state, once nothing more is offered, every run ends within a bound, and where nothing can move everything accepted has been delivered |
| Pipeline.EarlyChangeCorrupts | cells/rtl/bd_link.v:6-12 | with data released at request-fall a run delivers a value that was never accepted |
| Ring.ExcitedIff | bdc/emit.py:1183-1199 | a stage is excited exactly when it differs from the stage before and agrees with the one after |
| Ring.BoundariesCount | bdc/emit.py:1183-1199 | the boundaries are the places at which the ring differs from itself turned by one stage |
| Ring.FireMovesBoundary | bdc/emit.py:1183-1199 | firing moves a value boundary one stage on |
| Ring.BoundariesConserved | bdc/emit.py:1183-1199 | in every run the number of boundaries stays |
| Ring.ExcitedStays | bdc/emit.py:1183-1199 | an excited stage stays excited until it fires |
| Ring.StuckIff | bdc/emit.py:1183-1199 | a ring cannot move exactly when it has no boundary or one at every stage |
| Ring.TwoStagesStuck | bdc/emit.py:1183-1199 | two stages cannot move from any state |
| Ring.OneValueCirculates | bdc/emit.py:1183-1199 | one value in a ring gets stuck exactly if the ring has fewer than three stages, in every reachable state |
| Ring.FloorIsExact | bdc/emit.py:1183-1199 | the floor the links are deepened to is exact: a ring of n stages can hold one value and is never stuck with it, in any run, exactly if n is at least the floor |
| HeaviestRing.CyclesAboveExact | bdc/ring_stages.py:70-102 | the pruned walk lists each simple cycle, from its smallest node, once |
| HeaviestRing.CycleWeightIs | bdc/ring_stages.py:83-97 | a cycle weighs what its arcs, the closing one among them, weigh together |
| HeaviestRing.HeaviestIsMax | bdc/ring_stages.py:70-102 | the remembered pair is a cycle's, and no cycle is heavier |
| HeaviestRing.Walker.Dfs | bdc/ring_stages.py:83-96 | the recursion logs exactly the cycles beyond its path, up to one over the cap, and restores the path |
| HeaviestRing.HeaviestRing | bdc/ring_stages.py:70-102 | `walked` counts the cycles up to one over the cap, and within the cap the answer is the heaviest of them |
| HeaviestRing.WalkIsExact | bdc/ring_stages.py:70-102 | those are all the simple cycles, so within the cap the answer is their maximum |
| Widths.RuleGrows | bdc/emit.py:212-310 | no rule refuses later or forgets: knowing more operands only adds answers |
| Widths.AnswersTyping | bdc/emit.py:212-310 | an operation is well typed (stated for each operation between its operands', its results' and its clause's types) exactly when the rule, asked about the typing, answers the typing |
| Widths.ReadyIff | bdc/emit.py:195-310 | the rule answers in full as soon as the operands that decide are known: the first, the second, or any one of those that must agree |
| Widths.AnswersGrow | bdc/emit.py:212-310 | on an operation that is well typed by its own relation, every answer is the typing's, whatever is known so far |
| Widths.Sweep | bdc/emit.py:1537-1553 | a pass keeps everything sound; a pass that answers nothing changes nothing |
| Widths.ResolveWidths | bdc/emit.py:1499-1564 | at most one pass per node; on a typeable graph no rule refuses, the result is the least assignment closed under what each operation can answer, below the typing, and complete, with the typing's channel for every result, exactly if every node could be answered |
| Widths.OrderIrrelevant | bdc/emit.py:1499-1564 | which is the same for every order of the nodes, and below the typing |
| IsPrime.Remainder | kernels/isprime/isprime.c:34-44 | the shift-and-subtract loops give `n mod d` and no step of them overflows |
| Primes.NoSmallDivisor | kernels/isprime/isprime.c:32-50 | trial division up to the root decides primality |
| Words.S32Iff | cells/hw/uniform_oracle.py:33-35 | the wrapped word is the one signed 32-bit number that differs by whole turns of 2^32 |
| IsPrime.IsPrime | kernels/isprime/isprime.c:28-53 | for every int: 1 exactly for the primes below 2147395600, which is 46340 squared, 0 exactly for non-primes, and signed overflow exactly for the primes from there on |
| IsPrime.IsPrimeWrapping | cells/hw/uniform_oracle.py:112-128 | for every word the wrapping replica ends; it says 1 exactly for the primes below 2147483641, and is right about every word but 2^31 - 1 |
| IsPrime.SmallStops | cells/hw/uniform_oracle.py:112-128 | below 46340 * 46340 a square that has not wrapped ends the loop |
| IsPrime.StopsIff | cells/hw/uniform_oracle.py:112-128 | some wrapped square exceeds a word exactly if the word is below 2147483641, the largest such square |
| IsPrime.OnePrimeLeft | cells/hw/uniform_oracle.py:112-128 | of the words the loop does not stop for only 2^31 - 1 is prime |
| Primes.LargestIsPrime | cells/hw/uniform_oracle.py:112-128 | 2^31 - 1 is prime, by a Pocklington certificate, so that the replica's answer there is wrong |
| BinaryGcd.GcdIsGcd | cells/hw/uniform_oracle.py:50-72 | the specification has exactly the common divisors |
| BinaryGcd.GcdUnique | cells/hw/uniform_oracle.py:50-72 | and nothing else does |
| BinaryGcd.GcdHalf | cells/hw/uniform_oracle.py:62-65 | a factor of two does not count against an odd operand |
| BinaryGcd.StripTwos | cells/hw/uniform_oracle.py:62-65 | the stripping loop leaves an odd number with the same divisor |
| BinaryGcd.GcdWrapping | cells/hw/uniform_oracle.py:50-72 | on all operands in [0, 2^31) the wrapping kernel ends without wrapping and returns the greatest common divisor |
| BinaryGcd.GcdStein | cells/hw/host_gcd_replay.py:38-67 | so does the host's, on all natural numbers |
| Signature.TwoSteps | cells/hw/host_gcd_replay.py:27-30 | the two register steps, written differently, are one function on words |
| Signature.RegisterBits | cells/hw/uniform_oracle.py:43-47 | the register moves up by one bit, and its new low bit is the parity of bits 31, 21, 1 and 0 |
| Signature.NeverZero | cells/hw/uniform_oracle.py:43-47 | a nonzero register stays nonzero |
| Signature.StateNonZero | cells/hw/uniform_oracle.py:169-182 | for every seed, zero included, the register is never zero |
| Signature.FoldBits | cells/hw/host_gcd_replay.py:33-35 | folding flips a bit of the result exactly if the bit below it of the signature is 1, the lowest if the highest is |
| Signature.RunByRun | cells/hw/uniform_oracle.py:169-182 | seed, operands and signature run by run: two register steps a run, the sign bits cleared, the rotated signature flipped by the divisor |
| Signature.UniformSig | cells/hw/uniform_oracle.py:169-182 | the oracle's signature is that of mathematical gcds, run by run, for every seed and run count |
| Signature.Replay | cells/hw/host_gcd_replay.py:70-83 | the host's is the same, and its last run is the last run |
| Escapes.QuotingIff | bdc/hs/parse.py:995-997 | a quoted string reads back exactly if no backslash in it is followed by `n` |
| Escapes.EscapedIsQuotable | bdc/hs/parse.py:316 | an escaped string is one token of the lexer, whatever it holds |
| Attributes.GroupStands | bdc/hs/parse.py:431-457 | what follows a balanced group does not change where it ends |
| Attributes.GroupIff | bdc/hs/parse.py:431-457 | the reader takes as a balanced group exactly what is an opening bracket, pieces that nest, and its closing bracket |
| Attributes.AttrRoundTrip | bdc/hs/parse.py:906-957 | a printed attribute value, nested to any depth, is read back, with and without type suffixes |
| Attributes.NumberRoundTripIff | bdc/hs/parse.py:1036-1044 | a number, typed or not, reads back exactly if it is whole or its shortest spelling has a decimal point |
| Attributes.TypedBoolLost | bdc/hs/parse.py:1041-1044 | a truth value with a type never reads back |
| Attributes.DictRoundTrip | bdc/hs/parse.py:884-904 | so is a dictionary, in order |
| Attributes.AssignAt | bdc/hs/parse.py:884-904 | a repeated key is replaced where it stands |
| AttrTexts.ReaderIff | bdc/hs/parse.py:906-957 | the value reader succeeds exactly on a written value (typed numbers, hexadecimal ones, symbols, opaque groups, arrays and dictionaries at any nesting, quoted keys, last commas), with what it means and where it ends |
| AttrTexts.DictionaryIff | bdc/hs/parse.py:884-904 | the same for a dictionary: a repeated key keeps its place and takes its last value |
| TypeClauses.AtomIff | bdc/hs/parse.py:837-856 | the reader steps over exactly what is written as a type |
| TypeClauses.ClauseIff | bdc/hs/parse.py:858-881 | and over exactly what is written as a type clause: types, with `to types`, `-> types`, both or neither |
| TypeClauses.ClauseStands | bdc/hs/parse.py:837-881 | what may follow a type clause does not change where it ends |
| Statements.RefRoundTrip | bdc/hs/parse.py:764-771 | an operand, whole or one of a group, is read back |
| Statements.SquareRoundTrip | bdc/hs/parse.py:785-820 | bracketed operands with type suffixes, and bare tokens, are read back |
| Statements.RoundRoundTrip | bdc/hs/parse.py:723-732 | so are parenthesised operands |
| Statements.ArgsRoundTrip | bdc/hs/parse.py:681-738 | operand segments and inline attributes come back in order, each with its comma or without |
| Statements.UpdateIs | bdc/hs/parse.py:685-695 | a dictionary among the operands updates the attributes entry by entry |
| Statements.FormatLhs | bdc/hs/parse.py:1069-1099 | the printer's run-by-run loop gives the grouping that `Grouped` says |
| Statements.ExpandGrouped | bdc/hs/parse.py:1069-1099 | grouping loses no result |
| Statements.LhsRoundTripIff | bdc/hs/parse.py:751-762 | results survive exactly if they are whole ones and groups of two or more |
| Statements.BracedIs | bdc/hs/parse.py:1123-1145 | braced are the attributes that no operand spells, in order |
| Statements.InlinesAre | bdc/hs/parse.py:1123-1145 | spelled inline are the `key = value` operands, in order |
| Statements.StmtRoundTrip | bdc/hs/parse.py:1123-1145 | a whole operation is read back: results, operands, inline and braced attributes in their places, and any type clause of the grammar |
| StmtTexts.StatementReads | bdc/hs/parse.py:651-749 | every written statement is read as what it means: groups of any size, commas that may be left out or added, a dictionary anywhere among the operands, the dialect's name dropped |
| StmtTexts.ReadIsStatement | bdc/hs/parse.py:651-749 | whatever is read as a statement is a written one: bindings, mnemonic, operand segments, inline attributes, at most one dictionary, type clause; and every token of it is in what is returned |
| Functions.TypeRoundTrip | bdc/hs/parse.py:605-648 | a port type is read back |
| Functions.WidthWordIff | bdc/hs/parse.py:640-648 | the words a channel type may hold are `i` or `f` with digits |
| Functions.ArgListRoundTrip | bdc/hs/parse.py:560-589 | arguments are read back, with and without names and `...` |
| Functions.ResultsRoundTrip | bdc/hs/parse.py:591-603 | no result type, one, or several |
| Functions.NamesKeptIff | bdc/hs/parse.py:1173-1185 | printing leaves the attributes alone exactly if no port is named or both name lists are there |
| Functions.FuncRoundTrip | bdc/hs/parse.py:1148-1195 | a function is read back, whatever item follows; that its body reads only what it defines is part of being well formed |
| Resolution.ItemRefsAre | bdc/hs/parse.py:246-258 | a group's values are its items', with a type or without, and none for a bare token |
| Resolution.OperandsAre | bdc/hs/parse.py:246-258 | a statement reads the values of its groups in order, none for an attribute |
| Resolution.AddAliases | bdc/hs/parse.py:969-978 | `%v#0` gets the producer of `%v` exactly where it has none of its own |
| Resolution.Resolve | bdc/hs/parse.py:959-992 | the producer table holds for each name its last definition, results over arguments; the reader table lists each use in order; the error comes exactly if a value read has no producer |
| Functions.ItemsRoundTrip | bdc/hs/parse.py:474-498 | nested module blocks are read back as the paths they stand for |
| Functions.EmitFlatten | bdc/hs/parse.py:1202-1220 | printing functions by their paths prints the nesting the paths came from |
| Functions.FileRoundTripIff | bdc/hs/parse.py:1223-1245 | a well-formed file reads back as the same functions in the same blocks, exactly unless a module was asked for around functions that had none |
| FileTexts.FileReads | bdc/hs/parse.py:460-557 | every file of the grammar is read as the functions it means, each in its modules, unless a statement after a type clause begins with `to` or `_` |
| FileTexts.ReadIsFile | bdc/hs/parse.py:460-557 | the reader never swallows text: whatever it accepts is, token by token, a file of the grammar, and it returns the functions that file means |
| Parsing.Parser.ConsumeBalanced | bdc/hs/parse.py:431-457 | the bracket stack takes exactly one balanced group, and fails exactly where there is none |
| Parsing.Parser.ParseAttrValue | bdc/hs/parse.py:906-957 | reads what `ParseAttr` says from the tokens ahead and stops where it says, or fails as it does |
| Parsing.Parser.ParseAttrDict | bdc/hs/parse.py:884-904 | the same for `ParseDict` |
| Parsing.Parser.TryTypeList | bdc/hs/parse.py:858-865 | steps over exactly the types ahead, none, or fails after a comma without a type |
| Parsing.Parser.ParseTypeClause | bdc/hs/parse.py:867-881 | the clause `ParseClause` says, kept as it is |
| Parsing.Parser.ParseResultNames | bdc/hs/parse.py:656-664 | the bindings `ParseLhs` says |
| Parsing.Parser.ParseBracketGroup | bdc/hs/parse.py:785-820 | the items `ParseSquare` says |
| Parsing.Parser.ParseOpItem | bdc/hs/parse.py:681-738 | one turn of the operand loop reads one step of `ParseArgs` |
| Parsing.Parser.ParseOp | bdc/hs/parse.py:651-749 | the statement `ParseStmt` says |
| Parsing.Parser.ParseArguments | bdc/hs/parse.py:560-589 | the arguments `ParseArgList` says |
| Parsing.Parser.ParseFunction | bdc/hs/parse.py:500-558 | the function `ParseFunc` says, or its error, that of an operand nobody produces included |
| Parsing.Parser.ParseTopItem | bdc/hs/parse.py:474-498 | appends exactly the functions of one item, with their module paths, or fails |
| Parsing.Parser.ParseFile | bdc/hs/parse.py:460-472 | the whole reader agrees with `ParseModule` on every token sequence |
| Parsing.ReadBack | bdc/hs/parse.py:1008-1011 | the reader, run on a printed well-formed file, succeeds with the same functions in the same blocks, exactly unless a module was asked for around functions that had none |

## Left out

- Verilog text, instance and port names, padding, and the two-pin tops: the circuit a template denotes is modelled, not its characters.
- Matched delays, guardbands, metastability, grant overlap and the request's lead over its data: physical quantities.
- The timing assumptions the circuit models make: an arbiter's grants and merged request are functions of (r1, r2, q); client acknowledges settle in the same step as the output's; a join is a flat C-element, as the four-phase discipline allows; a latch has settled before its controller closes it.
- The `%v#0` alias in the graph: the node graph looks readers up under the exact result name. The tables of `_resolve` are built and proved, but a function's value does not hold them.
- `check_cycles`' counts of all cyclic components, which are diagnostics; `check_tokens`.
- The `leaked_mem` check and memory-accessor absorption: `exclude` is any set of values.
- The first, unused `dijkstra(u)` call of `lightest_cycle`; `heapq` is the least element of a set of pairs, which is what it pops; a pair queued twice is popped once.
- `BDC_RING_PAD`, `select_channels` and the unfused link rule `measurability_sites`.
- Regions.BuildRegion: the fallback may make any folded operand live again; the source takes the one recorded first.
- Word widths, gangs of RAMs and the address range: words are natural numbers, and the RAM has an address for each. Only two slots are arbitrated, as in the source.
- FusedCell.SeparateIsFused: compares complete histories (tokens ever offered and taken); storage inside a region, which fusion removes, could take tokens early and is not on the separate side.
- Widths.ResolveWidths: a type clause's atoms and a literal's type are given as data, not parsed from text; memref arguments have no channel and are not listed.
- Lexing, whitespace, comments and indentation, and source positions: the reader starts from tokens, numbers among them by value, and `_emit_level`'s text is the token list that `Emit` says.
- Attributes.AttrRoundTrip: strings with a backslash before `n` and keys that are not identifiers are excluded; they are not read back.
- Statements.StmtRoundTrip: a statement without a type clause must be the last of its body, and an empty dictionary is not printed.
- FileTexts.FileReads: a statement whose mnemonic is `to` or `_` must not follow a type clause; no operation has such a name.
- Functions.FileRoundTripIff: attributes of a module block are read and dropped, so they are not part of a file; an empty block holds no function and is not part of one either.
- Collatz, xorshift and ipow; gcd operands outside [0, 2^31), which the bench masks off.
- INIT constants as numbers, cost fits, sizing scripts and benches.
