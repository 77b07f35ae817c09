# Verified model of stax's core

A Dafny model of the state machines and tree transformations inside stax, a macOS profiler, with
proofs about all inputs, all runs or all interleavings. `dafny verify dfyconfig.toml` checks it.

## What is modelled

- **Attribution.** Recorded samples and scheduler intervals (`Credits`, `Aggregator`) are turned into a
  stack tree and a per-address rollup by a two-pointer walk. A tree means the family of all sums over its
  nodes selected by a predicate on their paths (`Tries`); every later transformation is stated in those
  terms. `WalkLaws`, `TreeLaws` and `AttributionLaws` relate the walk to a naive filter, the rollup and
  the totals to the tree, and the all-thread pass to the single-thread ones; `NodeLaws` states every node of
  the finished tree in terms of samples and intervals only; `SessionLaws` follows the trace records to the
  finished tree.
- **Views.** Grouping by symbol and folding recursion (`FlameGraph`, `FoldRecursion`, `FlameLaws`), the
  family tree of a symbol (`Neighbors`, `NeighborLaws`), the bucketed timeline (`Timeline`), basic blocks
  (`Cfg`, `CfgLaws`, `CfgEdges`), highlighted tokens (`Highlight`).
- **Event front end.** The kperf sample parser (`KperfParser`, `KperfLaws`), the client's trigger scanner
  over the same records (`ProbeScanner`), the context-switch interval tracker (`Offcpu`, `OffcpuLaws`)
  and what it reports told from the records alone (`TraceLaws`), their composition, what reaches the sink and
  how that fits the aggregator (`Pipeline`, `SinkLaws`, `PipelineLaws`), the jitdump tailer
  (`Jitdump`, `JitdumpLaws`), the kernel slide vote (`KernelSlide`), image scanning and symbol tables
  (`ImageScan`), the image registry and its index (`Ranges`, `Binaries`).
- **Queues and runs.** The drop-oldest queues as objects and as interleaved actors (`SendQueue`,
  `ClientQueue`), the lock-free maximum, and the server's run registry as one step per critical section
  (`RunRegistry`), with what it keeps of each run (`RunStory`) and the events on their way to the aggregator
  (`EventRouting`).

Objects whose methods update fields are classes; each method's contract ties its whole new state to a
specification function, and the laws are about those functions. Counters of the tree are 64-bit and
saturating; clocks, record contents, scheduling and the answers of the operating system are arbitrary
inputs. Where a map is walked in an unspecified order the choice is left open and the result is proved
not to depend on it.

## Where the code falls short of its intent

Each is proved with the exact condition under which the intent holds; most have a lemma with a failing
input or run beside it:

- `CfgLaws.BlockGraphIsInstructionGraph`: truncated decoding, and branches into the middle of an
  instruction, put edges into the block graph that control cannot take.
- `JitdumpLaws.IncrementalReturnsBatch`: after a bad magic later bytes are read as a file of their own, and a
  code size near the end of the address space panics the tailer (arithmetic wraps, as in a release build;
  a debug build panics at the sum itself).
- `WalkLaws.KeepsSamplesIff`: intervals out of order lose samples.
- `OffcpuLaws.TimeIsKeptIff`: a repeated switch record, or one thread running on two cpus, loses time.
- `RunRegistry.OrderlyIsExact`: a stop or finaliser reaps whatever shade is stored when it gets there, the
  next run's included.
- `RunRegistry.StoppedReasonKept`: a failure report overwrites a user stop.
- `RunRegistry.LateMarkIsExact`: the ingest flag may be set for a run that is gone. Nothing in the server reads
  the flag.
- `EventRouting.SwapBetweenIff`: an event may land in the next run's aggregator.
- `KernelSlide.WinnersAreRightIff`: unevenly overlapping segments elect wrong slides.
- `Binaries.IndexFindsWhatIsCovered` and `Ranges.SearchIsScan`: nested images and overlapping symbols hide
  what they overlap.
- `ClientQueue.EveryInterleaving`: the batch in hand at an abort is missing from the accounts.
- `FoldRecursion.FoldedSiblingsIff`: folding may leave siblings with one symbol.
- `Highlight.HighestIndexWinsIff`: the comment above the sweep says the highest pattern index wins; the code
  lets an earlier start win first.

## Model

| member | source | states |
|---|---|---|
| `Tallies.PlusAssoc` | stax-live/src/aggregator.rs:222-235 | combining counters with saturating addition is associative, in every field |
| `Tallies.PlusComm` | stax-live/src/aggregator.rs:222-235 | and commutative |
| `Tallies.AddReasonIsPlus` | stax-live/src/aggregator.rs:83-97 | adding time to one off-CPU reason is adding the counters of one interval |
| `Tries.CreditStep` | stax-live/src/aggregator.rs:642-650 | one step of the tree walk adds to exactly the node one frame deeper |
| `Tries.CreditAdds` | stax-live/src/aggregator.rs:642-650 | crediting a stack adds that stack's contribution, and nothing else, to every sum over the tree's nodes selected by their paths |
| `Tries.BuildMeaning` | stax-live/src/aggregator.rs:642-650 | every sum over a built tree equals the same sum taken over the credited stacks |
| `Tries.BuildTallyAt` | stax-live/src/aggregator.rs:642-650 | the node at any path exists exactly when some stack runs through it, and carries the sum of those stacks |
| `Tries.MergeComm` | stax-live/src/aggregator.rs:222-235 | `StackNode::merge` is commutative |
| `Tries.MergeAssoc` | stax-live/src/aggregator.rs:222-235 | and associative |
| `Tries.BuildConcat` | stax-live/src/aggregator.rs:222-235 | merging the trees of two credit lists gives the tree of their concatenation |
| `Tries.BuildSwap` | stax-live/src/aggregator.rs:686-699 | so credit lists may be merged in either order |
| `Aggregator.CreditAddresses` | stax-live/src/aggregator.rs:626-641 | the leaf gets self credit, and every distinct address of the stack total credit exactly once, however often it recurs; no other address changes |
| `Aggregator.CreditTree` | stax-live/src/aggregator.rs:642-650 | the walk credits the caller-first path of the stack |
| `Aggregator.MatchSamples` | stax-live/src/aggregator.rs:512-532 | the two loops move the cursor to the first sample not before the interval and collect the kept samples up to its end |
| `Aggregator.CreditInterval` | stax-live/src/aggregator.rs:492-568 | one interval leaves tree, rollup and both totals equal to those of the extended credit list, and the cursor where the walk needs it |
| `Aggregator.AggregateThread` | stax-live/src/aggregator.rs:486-570 | a thread's intervals extend the result by exactly that thread's attribution |
| `Aggregator.Aggregator.Aggregate` | stax-live/src/aggregator.rs:457-590 | the result is the one that any order of visiting the queried threads gives |
| `Aggregator.Aggregator.RecordPetSample` | stax-live/src/aggregator.rs:284-303 | the thread's sample queue gains the sample and loses its oldest one only when full; the clock and the bounds of everything recorded are kept |
| `Aggregator.Aggregator.RecordInterval` | stax-live/src/aggregator.rs:305-319 | the same for intervals; no recorded interval lies past the clock |
| `Aggregator.Aggregator.RecordWakeup` | stax-live/src/aggregator.rs:323-342 | a wakeup gives its wakee an entry and moves the clock |
| `Aggregator.Aggregator.NoteTimestamp` | stax-live/src/aggregator.rs:344-355 | the first timestamp anchors the session, the latest is kept, zero is ignored |
| `Aggregator.ClockIs` | stax-live/src/aggregator.rs:344-355 | whatever times are noted, a new clock holds the first of them and the latest, zeros aside |
| `AttributionLaws.ResultIsUnique` | stax-live/src/aggregator.rs:572-590 | a pass over given credits has exactly one correct result |
| `AttributionLaws.AggregateIsMergeOfThreads` | stax-live/src/aggregator.rs:472-590 | all-thread aggregation is the merge of the single-thread aggregations, taken in any order |
| `WalkLaws.WalkIsFloorWalk` | stax-live/src/aggregator.rs:486-532 | for time-ordered samples and arbitrary intervals the cursor walk equals a per-interval filter that ignores samples below the highest start seen |
| `WalkLaws.CursorWalkIsFilter` | stax-live/src/aggregator.rs:486-532 | when both streams are time-ordered the cursor walk is the naive per-interval filter |
| `WalkLaws.LateStartLoses` | stax-live/src/aggregator.rs:512-519 | for one interval: it keeps its samples if and only if no kept sample lies between its start and the highest start before it |
| `WalkLaws.KeepsSamplesIff` | stax-live/src/aggregator.rs:486-532 | over a whole walk of ordered samples and arbitrary intervals, every interval keeps the samples a filter gives it, if and only if no kept sample of an interval lies below the highest start before it; and then both credit the same |
| `WalkLaws.OutOfOrderStartsLoseSamples` | stax-live/src/aggregator.rs:512-519 | out-of-order intervals really lose time: a whole duration vanishes |
| `WalkLaws.ChargedAtMostOnce` | stax-live/src/aggregator.rs:512-532 | with disjoint on-CPU intervals every recorded sample is charged at most once |
| `WalkLaws.WalkConserves` | stax-live/src/aggregator.rs:533-548 | a walk distributes each credited interval up to the rounding of its shares: the loss is between 0 and credited samples minus credited intervals |
| `WalkLaws.ThreadsConserve` | stax-live/src/aggregator.rs:533-548 | the same over all threads |
| `TreeLaws.TotalIsOutermost` | stax-live/src/aggregator.rs:633-641 | an address's total is the sum of the inclusive counters of only the outermost nodes with that address on each path |
| `TreeLaws.SelfIsExclusive` | stax-live/src/aggregator.rs:627-632 | an address's self counters and everything called from its nodes make up the inclusive counters of all its nodes |
| `TreeLaws.RollupAgreesWithTree` | stax-live/src/aggregator.rs:572-590 | both, for the finished rollup and the finished tree of any pass |
| `TreeLaws.TreeHoldsTheTime` | stax-live/src/aggregator.rs:533-568 | when no credited stack is empty and the on-CPU total does not saturate, off-CPU time is conserved exactly per reason, and the on-CPU total minus the time of the top-level nodes is between 0 and credited samples minus credited intervals |
| `NodeLaws.NodeCarries` | stax-live/src/aggregator.rs:492-568 | for time-ordered samples and starts, the finished node at a caller-first path exists exactly when an interval is charged to a stack entered along it, and each of its counters is the capped sum, over the on-CPU intervals and the kept samples inside each whose own stack was entered along the path, of the sample's equal share, of one, or of that sample's own event counts, plus the lengths of the kept waits whose stack was; the totals are the charged time and the waits per reason |
| `FlameGraph.GroupSource` | stax-live/src/lib.rs:1441-1487 | grouping the children of one source loses and duplicates nothing: every sum over the groups grows by the source's |
| `FlameGraph.SortEntries` | stax-live/src/lib.rs:1489-1498 | every symbol once, heaviest first |
| `FlameGraph.WeightIsAllTime` | stax-live/src/lib.rs:1489-1498 | the weight siblings are ordered by is the capped sum of on-CPU time and of all off-CPU reasons |
| `FlameGraph.BuildChildren` | stax-live/src/lib.rs:1401-1521 | the grouped nodes have the same sum as the sources for every predicate on symbol paths; each symbol occurs once among siblings, heaviest first, under the address of a merged call site that no other exceeds in on-CPU time |
| `FlameGraph.ComputeFlame` | stax-live/src/lib.rs:1304-1322 | every sum over the finished flame graph is the sum over the tree nodes that survive folding, each at its collapsed path, and no resolved node has a child with its own symbol |
| `FlameLaws.TreeMeansStacks` | stax-live/src/lib.rs:1401-1521 | symbolising after building the tree means the same as symbolising the stacks first |
| `FlameLaws.GroupedNodeMeaning` | stax-live/src/lib.rs:1401-1521 | the grouped node at a symbol path carries exactly the counters of the stacks whose caller-first symbolised form has that path as a prefix |
| `FlameLaws.FlameNodeMeaning` | stax-live/src/lib.rs:1304-1322 | after folding, the nodes at a symbol path together carry exactly the counters of the stacks that start with it once adjacent repeats are collapsed |
| `FoldRecursion.SpliceRepeats` | stax-live/src/lib.rs:1369-1379 | the scan that removes, splices and re-examines terminates and leaves the flattened sibling list |
| `FoldRecursion.Fold` | stax-live/src/lib.rs:1369-1383 | the in-place fold computes the folded tree |
| `FoldRecursion.FoldedHasNoSelfChild` | stax-live/src/lib.rs:1369-1387 | no resolved node anywhere keeps a child with its own symbol |
| `FoldRecursion.FoldMeaning` | stax-live/src/lib.rs:1369-1387 | folding a forest is collapsing adjacent repeats in every stack: surviving nodes keep their own counters and move to their collapsed paths |
| `FoldRecursion.FoldConservesExclusive` | stax-live/src/lib.rs:1369-1387 | per symbol, folding takes the counters of the removed nodes, and nothing else, off the symbol's nodes and off their children alike |
| `FoldRecursion.ExclusiveUnchanged` | stax-live/src/lib.rs:1369-1387 | so short of saturation every exclusive counter of every symbol is unchanged |
| `FoldRecursion.FoldedSiblingsIff` | stax-live/src/lib.rs:1369-1387 | folding splices and does not merge: the children of a folded node have each symbol once if and only if, over all depths of its recursion, the node calls no symbol twice |
| `FoldRecursion.FoldingRepeatsSiblings` | stax-live/src/lib.rs:1369-1387 | a node for which they do not |
| `Neighbors.MergeCallers` | stax-live/src/lib.rs:1109-1116 | the ancestor chain is credited innermost caller first |
| `Neighbors.MergeDescendants` | stax-live/src/lib.rs:1085-1092 | merging a subtree adds its sums, read by symbol, to every sum over the callees |
| `Neighbors.Walk` | stax-live/src/lib.rs:1094-1132 | each subtree adds exactly its own occurrences to the three results, and the shared ancestors vector comes back as it was |
| `NeighborLaws.CallersMeaning` | stax-live/src/lib.rs:1094-1132 | the unpruned callers node at a chain carries the inclusive counters of exactly those target occurrences whose nearest ancestors symbolise to the chain |
| `NeighborLaws.CalleesMeaning` | stax-live/src/lib.rs:1085-1132 | the unpruned callees node at a path carries the inclusive counters of exactly the nodes that lie below an occurrence along those symbols |
| `NeighborLaws.OwnMeaning` | stax-live/src/lib.rs:1105-1109 | the target's own counters are the inclusive counters of all its occurrences, nested ones counted again |
| `Timeline.Distribute` | stax-live/src/lib.rs:977-1000 | the bucket loop adds to every bucket the interval's exact overlap with it, and to the total the clipped duration |
| `Timeline.BuildTimeline` | stax-live/src/lib.rs:943-1023 | buckets and totals of both kinds are the capped exact sums over all intervals |
| `Timeline.AtMost201Buckets` | stax-live/src/lib.rs:944-958 | there are between 1 and 201 buckets whatever the recording length |
| `Timeline.BucketsAreFine` | stax-live/src/lib.rs:944-958 | buckets are 50 ms wide, or else there are 201 of them |
| `Timeline.FrameFits` | stax-live/src/lib.rs:952-958 | the buckets cover the recording, the last one included, and no bucket boundary overflows |
| `Timeline.ClippedIsWithinSession` | stax-live/src/lib.rs:965-980 | for an interval the clock has seen, the buckets clip exactly to the session |
| `Timeline.TimelineIsExact` | stax-live/src/lib.rs:977-1017 | short of saturation the buckets add up to the reported total, and both to the clipped durations |
| `Timeline.SumsConcat` | stax-live/src/lib.rs:965-965 | so the order threads are visited in does not matter |
| `Cfg.CollectLeaders` | stax-live/src/cfg.rs:298-322 | the leader set |
| `Cfg.FillBlocks` | stax-live/src/cfg.rs:324-353 | each instruction's line goes to the block of the last leader at or below it |
| `Cfg.BuildBlocksAndEdges` | stax-live/src/cfg.rs:282-409 | the whole pass, against the specification the laws are about |
| `CfgLaws.LeadersFromIs` | stax-live/src/cfg.rs:298-322 | the leaders increase strictly and are exactly the first address, the in-function targets and the addresses after block-ending instructions |
| `CfgLaws.LeadersAreStarts` | stax-live/src/cfg.rs:298-322 | when in-function targets are instruction starts, no leader, and so no target, lands inside an instruction |
| `CfgLaws.BlocksPartitionLines` | stax-live/src/cfg.rs:327-353 | concatenating the block lines in id order gives back the instruction list, whatever the targets are |
| `CfgEdges.EdgesStand` | stax-live/src/cfg.rs:355-405 | every edge stands for the last instruction of the block it leaves, in the way of its kind, and leads to the block the address falls into; and every way out of such an instruction has its edge |
| `CfgEdges.KindsAreRight` | stax-live/src/cfg.rs:355-405 | in tiled functions whose graph has their control flow: an edge of a kind leads from the block one instruction ends to the block another starts exactly when the first ends a block and passes control there in that way: conditional or unconditional target, or, falling through, the next instruction, after a call or not |
| `CfgEdges.NoTwoOfAKind` | stax-live/src/cfg.rs:355-405 | no block has two edges of one kind, so a conditional branch to its own next instruction has one of each |
| `CfgEdges.EndsSomeIs` | stax-live/src/cfg.rs:298-353 | an instruction ends a block exactly when it is the last, ends blocks by its kind, or some branch leads to its end or inside it |
| `CfgEdges.BlocksAre` | stax-live/src/cfg.rs:324-353 | blocks are numbered in order and start at the first address, at targets or after block-ending instructions |
| `CfgLaws.BlockGraphIsInstructionGraph` | stax-live/src/cfg.rs:282-409 | for every tiled function, whatever its targets, the block graph has exactly the control flow between instructions, if and only if the last decoded instruction does not run into undecoded bytes unnoticed and no branch leads into the middle of an instruction whose successor starts no block |
| `CfgLaws.ReachabilityAgrees` | stax-live/src/cfg.rs:282-409 | then an instruction reaches another in the graph exactly when control can get there |
| `CfgLaws.AlignedTargetsAreClear` | stax-live/src/cfg.rs:282-409 | when in-function targets are instruction starts, the control flow is preserved if and only if decoding ends with the function or at an instruction that does not fall through |
| `CfgLaws.TruncatedTailLoops` | stax-live/src/cfg.rs:362-379 | a last instruction that falls through into undecoded bytes gets a spurious edge back to the start of its block, unless a branch leads into it or right behind it |
| `CfgLaws.MidTargetMisleads` | stax-live/src/cfg.rs:381-405 | a branch into the middle of an instruction gets a spurious edge to the next one, unless that starts a block |
| `CfgLaws.UnalignedTargetMisleads` | stax-live/src/cfg.rs:381-405 | three instructions for which it does |
| `Offcpu.CpuIntervalTracker.Feed` | stax-mac-kperf-parse/src/offcpu.rs:144-271 | one record's effect on residents, thread states, closed intervals, wakeups and counters |
| `Offcpu.CpuIntervalTracker.NoteSample` | stax-mac-kperf-parse/src/offcpu.rs:133-142 | a user stack replaces the cached stacks, a sample without one is ignored |
| `OffcpuLaws.NeverBothOpen` | stax-mac-kperf-parse/src/offcpu.rs:159-221 | in every run a thread never has an on-CPU and an off-CPU interval open at once |
| `OffcpuLaws.ThreadIntervalsChain` | stax-mac-kperf-parse/src/offcpu.rs:159-221 | in every run in time order a thread's intervals, both kinds together, are non-empty, ordered and disjoint, end before its open one starts, and make up its on-CPU total |
| `OffcpuLaws.ChainIsDisjoint` | stax-mac-kperf-parse/src/offcpu.rs:159-221 | members of such a chain never overlap |
| `OffcpuLaws.CpuIntervalsChain` | stax-mac-kperf-parse/src/offcpu.rs:159-181 | however inconsistent the records, the on-CPU intervals one cpu closes are disjoint and end by its last switch |
| `OffcpuLaws.OnCpuTimeIsBounded` | stax-mac-kperf-parse/src/offcpu.rs:152-224 | total emitted on-CPU time never exceeds the cpus seen times the elapsed time |
| `OffcpuLaws.TimeIsKeptIff` | stax-mac-kperf-parse/src/offcpu.rs:159-224 | in every run in time order the on-CPU intervals a cpu closes add up to at most the time it was seen running threads, and to all of it if and only if every switch on it replaces the running thread and no other cpu's switch has touched that thread since |
| `OffcpuLaws.ConsistentRecordsLoseNothing` | stax-mac-kperf-parse/src/offcpu.rs:159-181 | when every switch brings in a thread that is not already running, a cpu's intervals add up to all the time it was seen running threads |
| `OffcpuLaws.RepeatedSwitchForgets` | stax-mac-kperf-parse/src/offcpu.rs:165-222 | a switch record that repeats the running thread after any time loses that time for good, whatever follows |
| `OffcpuLaws.WakeupsUsedOnce` | stax-mac-kperf-parse/src/offcpu.rs:186-268 | intervals that name a waker, with a wakeup still held, never outnumber the wakeups reported for the thread |
| `TraceLaws.ReportedIntervals` | stax-mac-kperf-parse/src/offcpu.rs:159-221 | on every run, told from the records alone: a thread's intervals are exactly the non-empty times from a switch that brings it in to the next that takes it off, and the non-empty gaps from there to the next that brings it in with a user stack known by then, each with the stacks last sampled and the wakeup held |
| `TraceLaws.OffSinceIs` | stax-mac-kperf-parse/src/offcpu.rs:159-191 | a gap starts at the switch that takes the thread off, and no switch in between touches it |
| `TraceLaws.TotalOffIsGaps` | stax-mac-kperf-parse/src/offcpu.rs:191-198 | the off-CPU total of a thread is the capped sum of all its gaps |
| `TraceLaws.GapsAreReported` | stax-mac-kperf-parse/src/offcpu.rs:191-213 | which are the reported off-CPU intervals and the gaps of which no stack was known |
| `TraceLaws.ReportedWakeups` | stax-mac-kperf-parse/src/offcpu.rs:226-268 | the wakeups reported are exactly the wakeup records blamed on another thread that was on their cpu and had been sampled, each with that thread's last stacks |
| `TraceLaws.SchedulerRecords` | stax-mac-kperf-parse/src/offcpu.rs:144-160 | the records read as switches and wakeups, by the numbers the kernel writes |
| `KperfParser.Parser.Feed` | stax-mac-kperf-parse/src/parser.rs:92-219 | one record's effect on the parser, and the sample it emits |
| `KperfParser.Parser.AppendChunk` | stax-mac-kperf-parse/src/parser.rs:221-231 | at most four words, and no more than still wanted, join the stack being received |
| `KperfParser.Parser.NormalizeUserFixup` | stax-mac-kperf-parse/src/parser.rs:233-255 | the remove-and-insert puts the frames in normalised order |
| `KperfLaws.StartedAreAccountedFor` | stax-mac-kperf-parse/src/parser.rs:104-162 | on every run, samples started are emitted, orphaned or open, and the emitted count is the number handed out |
| `KperfLaws.StreamsAreIndependent` | stax-mac-kperf-parse/src/parser.rs:164-205 | inside a sample, user, kernel and counter records do not disturb one another, and nothing is emitted |
| `KperfLaws.FixupInCallOrder` | stax-mac-kperf-parse/src/parser.rs:233-255 | a frame chain that ends in its fixup comes out in call order: the fixup right after the first frame, or dropped when it is there already, all other frames in order |
| `KperfLaws.ParsingUndoesPrinting` | stax-mac-kperf-parse/src/parser.rs:92-255 | from any state, a printed sample whose three streams are interleaved in any way parses to exactly that sample |
| `KperfLaws.NothingIsCut` | stax-mac-kperf-parse/src/parser.rs:131-146 | a stack of real frames loses none of them |
| `KperfLaws.KindIs` | stax-mac-kperf-parse/src/parser.rs:92-219 | each kind of record, by the numbers the kernel writes |
| `KperfLaws.ErrorsAreCounted` | stax-mac-kperf-parse/src/parser.rs:206-219 | on every run failed user and kernel walks are each counted |
| `ProbeScanner.KperfProbeTriggerScanner.Feed` | staxd-client/src/lib.rs:858-894 | one record's effect on the trigger scanner, and the trigger it reports |
| `ProbeScanner.AlwaysInStep` | staxd-client/src/lib.rs:858-894 | on every record stream scanner and parser have the same sample open, and it has been triggered if the parser has or expects a user frame |
| `ProbeScanner.WalkedSamplesWereTriggered` | staxd-client/src/lib.rs:858-894 | every sample emitted with a user stack had a trigger of its own, in the same order, and no started sample triggers twice |
| `ProbeScanner.TriggersAre` | staxd-client/src/lib.rs:858-894 | told from the records: a sample triggers at the first header that announces user frames for it, with its own thread and time, and nothing else triggers |
| `Pipeline.RecordPipeline.ProcessRecords` | stax-mac-kperf-parse/src/pipeline.rs:250-368 | a batch hands the sink its samples, then its wakeups, then the intervals of threads ever sampled, and leaves nothing waiting |
| `SinkLaws.BatchesDoNotMatter` | stax-mac-kperf-parse/src/pipeline.rs:250-368 | samples and wakeups reach the sink as in one batch of all records, however they are batched |
| `SinkLaws.PrintedSampleArrives` | stax-mac-kperf-parse/src/pipeline.rs:300-325 | a printed sample, its streams interleaved with one another and with scheduler records in any way, leaves exactly one event: for its thread and time, with its user stack frame by frame in call order, its kernel stack, and the four counters from their own positions; one without a user stack leaves none |
| `SinkLaws.SessionShowsSample` | stax-mac-kperf-parse/src/pipeline.rs:250-325 | and so it does in a whole session, whatever the batching, between what the records before and after it leave |
| `SinkLaws.WakeupsArrive` | stax-mac-kperf-parse/src/pipeline.rs:325-334 | every wakeup the records should report reaches the sink once, in order |
| `SinkLaws.IntervalsArrive` | stax-mac-kperf-parse/src/pipeline.rs:335-368 | in every session in time order a thread's intervals that reach the sink are exactly those the records tell of that end in a batch by whose end the thread has been sampled |
| `PipelineLaws.SinkGetsTail` | stax-mac-kperf-parse/src/pipeline.rs:326-368 | however records are batched, the sink gets a tail of each thread's intervals and all its samples with a user stack |
| `PipelineLaws.SamplesInOrder` | stax-mac-kperf-parse/src/pipeline.rs:250-325 | a thread's samples reach the sink in time order |
| `PipelineLaws.AggregatorKeepsTail` | stax-live/src/aggregator.rs:284-319 | the aggregator's bounded queues hold a tail of what the sink received, and drop only what is over the bound |
| `PipelineLaws.RecordedAsSent` | stax-live/src/aggregator.rs:284-319 | of each thread the aggregator holds the last events sent, all of them up to 100000, unchanged and in order |
| `PipelineLaws.Deliver` | stax-server/src/main.rs:1496-1567 | events applied one by one leave the aggregator with exactly the queues recorded in order, and its clock moved to each of their times in turn |
| `PipelineLaws.PipelineFeedsTheWalk` | stax-mac-kperf-parse/src/pipeline.rs:250-368 | in every session in time order, what the aggregator then holds for a thread is disjoint and ordered, so the cursor walk is the per-interval filter and charges no sample twice |
| `SessionLaws.SessionHoldsTheTime` | stax-mac-kperf-parse/src/pipeline.rs:250-368 | in every session, however batched and whatever its records, whose credited on-CPU time does not saturate, the aggregated tree holds all off-CPU time per reason and the on-CPU time up to the rounding of the shares |
| `SessionLaws.SessionNodes` | stax-mac-kperf-parse/src/pipeline.rs:250-368 | in every session in time order the order the previous law needs is there, so every node of the finished tree is what it says |
| `Jitdump.JitdumpTailer.Tick` | stax-mac-kperf-parse/src/jitdump_tail.rs:74-144 | one tick: new position and records returned, or a panic that returns nothing and leaves the offset |
| `Jitdump.PanicIsWrap` | stax-mac-kperf-parse/src/jitdump_tail.rs:146-171 | parsing a load record panics exactly when its code size runs past the address space |
| `JitdumpLaws.IncrementalReturnsBatch` | stax-mac-kperf-parse/src/jitdump_tail.rs:74-171 | every schedule of appends and ticks returns, without a panic, exactly what one parse of the final file returns, if and only if the file has nothing beyond a header, or a good magic and no load record whose code size runs past the address space, or a bad magic and, anywhere past its header, no good one with a load or such a record behind it |
| `JitdumpLaws.IncrementalIsBatch` | stax-mac-kperf-parse/src/jitdump_tail.rs:74-171 | every schedule moreover leaves the tailer where one parse leaves it, if and only if the file has nothing beyond a header, or a good magic and no complete load record whose code size runs past the address space |
| `JitdumpLaws.SecondStartSpeaks` | stax-mac-kperf-parse/src/jitdump_tail.rs:98-105 | a file with a bad magic whose later bytes look like a file with a load: a tick that ends where those bytes start makes the next one return it, or panic |
| `JitdumpLaws.PanicDropsTheRest` | stax-mac-kperf-parse/src/jitdump_tail.rs:120-171 | for every file with such a record, ticks that found the records before it have returned them, while one parse of the whole returns nothing |
| `JitdumpLaws.PanickingFile` | stax-mac-kperf-parse/src/jitdump_tail.rs:157-163 | an honest record followed by such a record is such a file |
| `JitdumpLaws.BadMagicRereads` | stax-mac-kperf-parse/src/jitdump_tail.rs:98-105 | after a bad magic, bytes appended later are read as a file of their own |
| `JitdumpLaws.ReadingUndoesWriting` | stax-mac-kperf-parse/src/jitdump_tail.rs:74-171 | written code loads with NUL-free names come back unchanged and in order under every schedule, with as much code as they state or none if less is there, and a partial record at the tail is not consumed |
| `JitdumpLaws.PartialIsNoRecord` | stax-mac-kperf-parse/src/jitdump_tail.rs:113-121 | no proper prefix of a record is taken for a record |
| `KernelSlide.SlideEstimator.Observe` | stax-mac-kperf-parse/src/kernel_symbols.rs:216-242 | after any observations each slide's tally is the number of (observation, segment) pairs it explains, skipped segments aside |
| `KernelSlide.VoteSegment` | stax-mac-kperf-parse/src/kernel_symbols.rs:218-241 | one segment adds one vote to exactly the aligned slides that put the observation inside it |
| `KernelSlide.SlideEstimator.Finalize` | stax-mac-kperf-parse/src/kernel_symbols.rs:250-256 | a slide with the most explained pairs and its votes per observation, or none exactly when nothing is explained |
| `KernelSlide.NarrowIsNotSkipped` | stax-mac-kperf-parse/src/kernel_symbols.rs:230-237 | a segment of at most 64 MiB is never skipped |
| `KernelSlide.HitsAreDepth` | stax-mac-kperf-parse/src/kernel_symbols.rs:216-242 | with narrow segments an aligned slide gets one vote for each segment it puts the observation in, any other none |
| `KernelSlide.WinnersAreRightIff` | stax-mac-kperf-parse/src/kernel_symbols.rs:216-256 | with narrow segments, any winner explains every observation whenever one slide does, if and only if covered addresses a multiple of the alignment apart are covered by equally many segments |
| `KernelSlide.WinnerExplainsAll` | stax-mac-kperf-parse/src/kernel_symbols.rs:216-256 | with disjoint segments and one slide that explains every observation, any winner explains every observation |
| `KernelSlide.OverlapMisleads` | stax-mac-kperf-parse/src/kernel_symbols.rs:216-256 | three copies of a segment with which a wrong slide outvotes the one that explains everything |
| `Highlight.PushRun` | stax-live/src/highlight.rs:114-128 | appending a run keeps tokens non-empty and coalesced, and appends its text and classes |
| `Highlight.SpansToTokens` | stax-live/src/highlight.rs:72-112 | token texts concatenate to the input, every position has the class of its winning span or Plain, no token is empty or shares its neighbour's class |
| `Highlight.WinnerIs` | stax-live/src/highlight.rs:80-82 | the winner of a position is a covering span that no covering span outranks: earlier start first, then higher pattern index |
| `Highlight.HighestIndexWinsIff` | stax-live/src/highlight.rs:66-105 | the documented rule, that where spans overlap one with the highest index wins, holds of every position if and only if at no span's start or end the leading span is joined by one that starts later and has a higher index |
| `Highlight.ShowsHighestIndexIff` | stax-live/src/highlight.rs:66-105 | then every covered position is shown in the class of a span with the highest index there, in any theme; and in a theme that tells spans of different index apart, only then |
| `Highlight.EveryThemeIff` | stax-live/src/highlight.rs:66-105 | every theme shows the highest index everywhere if and only if at every span's start or end the leading span shares its capture with one of the highest index there |
| `Highlight.EarlierStartWins` | stax-live/src/highlight.rs:80-82 | an input: an earlier start beats a higher index |
| `Highlight.FirstCoverIsWinner` | stax-live/src/highlight.rs:80-105 | the first covering span in sorted order is that winner |
| `Highlight.TokensAreDetermined` | stax-live/src/highlight.rs:72-128 | text, classes and maximal runs leave only one token list |
| `SendQueue.BatchSendQueue.EnqueueDropOldest` | staxd/src/session.rs:290-316 | undisturbed, a full queue loses its oldest batch to a batch with records and turns a heartbeat away; drops are counted |
| `SendQueue.EveryInterleaving` | staxd/src/session.rs:290-347 | in every interleaving of drain thread and sender, drained records are sent, in a hand, queued or counted as dropped, the queue stays within capacity and holds the newest of what it accepted, and batches are sent in the order drained |
| `SendQueue.RetrySucceeds` | staxd/src/session.rs:290-316 | the retry after an eviction always finds room |
| `SendQueue.ReadsStayInBounds` | staxd/src/session.rs:468-474 | whatever the reads return, the next read size is at least the minimum, at most the maximum and within the buffer |
| `SendQueue.SizesFollowTheReads` | staxd/src/session.rs:468-474 | two full reads in a row bring the read size to the maximum, two that fill less than a quarter back to the minimum, as one empty read does; anything else leaves it alone |
| `ClientQueue.DropOldestQueue.EnqueueDropOldest` | staxd-client/src/lib.rs:578-596 | undisturbed, a full queue loses its oldest batch to any batch; drops and greatest depth are counted |
| `ClientQueue.EveryInterleaving` | staxd-client/src/lib.rs:578-640 | in every interleaving with the worker and an abort, batches are processed in order, the queue holds the newest of what it accepted, and once nothing is in flight the records offered are those processed and those counted as dropped, short of exactly the batch the worker held when it saw the abort |
| `ClientQueue.AbortLosesTheBatchInHand` | staxd-client/src/lib.rs:913-960 | such a batch is really lost to the accounts |
| `ClientQueue.MaximumIsExact` | staxd-client/src/lib.rs:773-781 | in every interleaving of calls, spurious failures included, the cell never decreases, and it is the exact maximum once all calls have returned |
| `RunRegistry.ServerState.ClearStale` | stax-server/src/main.rs:679-699 | first critical section of `begin_run` |
| `RunRegistry.ServerState.Install` | stax-server/src/main.rs:718-728 | second critical section: succeeds exactly when no run is active |
| `RunRegistry.ServerState.StopActive` | stax-server/src/main.rs:1254-1300 | the active run is stopped in place and handed back; a reap for it begins once the lock is released |
| `RunRegistry.ServerState.FinalizeRun` | stax-server/src/main.rs:1587-1619 | a run ends up in history once, with its own reason if it was stopped before; a reap for it begins once the lock is released |
| `RunRegistry.ServerState.DiscardStartFailed` | stax-server/src/main.rs:938-957 | a failed start ends up in history as a recorder error |
| `RunRegistry.ServerState.ShadeSpawned` | stax-server/src/main.rs:537-541 | a spawned shade is stored for its run, whatever was stored and whatever run is active |
| `RunRegistry.ServerState.TakeShadeChild` | stax-server/src/main.rs:554-560 | a reap takes whatever child is stored |
| `RunRegistry.ServerState.TryRegisterShade` | stax-server/src/main.rs:391-426 | accepted exactly for the active run when no shade is registered |
| `RunRegistry.ServerState.ShadeChildExited` | stax-server/src/main.rs:602-612 | clears the child's own record and asks for finalisation exactly when its run is still active |
| `RunRegistry.ServerState.ShadeSessionClosed` | stax-server/src/main.rs:433-442 | clears the registration only if it is that shade's |
| `RunRegistry.EveryInterleavingIsSound` | stax-server/src/main.rs:678-751 | in every interleaving of the critical sections ids stay distinct, history holds only stopped runs with reasons and only grows, the cancel handle is the recording run's, a registered shade belongs to the active run, a stored child was spawned for a run that is active or in history, and reaps are under way only for stopped or finished runs |
| `RunRegistry.HistoryIsFinal` | stax-server/src/main.rs:1587-1617 | a finished run keeps its entry, is never active again, and late finalisers or failure reports for it change nothing |
| `RunRegistry.ReapTakesAnothersChild` | stax-server/src/main.rs:1617-1619 | in every reachable state a reap leaves active run, history, handles and registration alone, and takes another, active run's child if and only if its own run is already in history and the active run's child is stored |
| `RunRegistry.OrderlyIsExact` | stax-server/src/main.rs:554-560 | in every run that installs no run while a reap could still meet its shade, and stores no shade for a run neither active nor about to be reaped, each reap finds no child or its own run's; and these conditions are exact: after any step that breaks one, some continuation that keeps them has a reap facing another run's child |
| `RunRegistry.FinaliserTakesTheNextShade` | stax-server/src/main.rs:1617-1619 | a run in which the first run's finaliser, past its lock, takes the second run's shade |
| `RunRegistry.FinaliserCompletesTheRun` | stax-server/src/main.rs:602-626 | no run is lost: once installed it is active or in history, never both, and its finaliser leaves it in history with the user's reason or its own |
| `RunStory.SummaryIsTheStory` | stax-server/src/main.rs:1496-1620 | told from the steps taken after a run is installed, whatever other calls come between: it is active until its finaliser, its failure report or the first `begin_run` after a stop, and in history from then on, with its title, with what was counted in between, and with the reason and time of the failure report, else of the last stop, else of the finaliser |
| `RunRegistry.StoppedReasonKept` | stax-server/src/main.rs:938-957 | a stopped active run keeps its reason if and only if the step is not the failure report for that very run |
| `RunRegistry.UserStopIsOverwritten` | stax-server/src/main.rs:938-957 | an input: a user stop followed by a failed start is recorded as a recorder error |
| `RunRegistry.BeginSucceedsUnlessRecording` | stax-server/src/main.rs:678-751 | undisturbed, `begin_run` succeeds exactly when no run is recording, and a stale stopped run goes to history unchanged |
| `RunRegistry.RefusedNeverRuns` | stax-server/src/main.rs:718-724 | the id of a refused call never names a run |
| `RunRegistry.LateMarkIsExact` | stax-server/src/main.rs:1353-1362 | in every reachable state where the attached flag is clear or stands for the active run, a step keeps it so if and only if it is not a mark for a run no longer active put on a clear flag; the flag stands with no run exactly after a mark that finds none |
| `RunRegistry.FlagBelongsThroughout` | stax-server/src/main.rs:1342-1362 | over whole runs the flag stands for the active run throughout if and only if no mark comes too late |
| `RunRegistry.LateMarkMisleads` | stax-server/src/main.rs:1353-1362 | a late mark leaves the flag standing with no run, or for a run that has no channel |
| `EventRouting.EveryEventLands` | stax-server/src/main.rs:1496-1520 | in every interleaving of the registry's sections, the run checks, the writes and the replacements of the aggregator, an event lands in an aggregator that is not its run's if and only if some replacement came between its own run's and its write |
| `EventRouting.SwapBetweenIff` | stax-server/src/main.rs:730-732 | when no run is installed before the last `begin_run` has replaced the aggregator, that is if and only if a replacement falls between the event's check and its write |
| `EventRouting.InTimeLandsRight` | stax-server/src/main.rs:1496-1567 | and an event written while its run is active lands in its own run's aggregator |
| `EventRouting.SerialIsExact` | stax-server/src/main.rs:678-732 | the condition is exact: after an install that breaks it, the active run may lose the aggregator to another's `begin_run`, however orderly the steps from there on |
| `EventRouting.LateWriteLandsInTheNextRun` | stax-server/src/main.rs:1496-1520 | from any state with a checked event of the active run, a continuation in which it lands in the next run's aggregator |
| `Ranges.SearchIsScan` | stax-live/src/binaries.rs:305-318 | a binary search for the last start finds what a first-match scan finds, for every address, if and only if no range reaches past the start of a later one |
| `Binaries.BinaryRegistry.Insert` | stax-live/src/binaries.rs:194-205 | an image replaces any other at its base and its symbols are sorted; the index is never stale |
| `Binaries.BinaryRegistry.Remove` | stax-live/src/binaries.rs:207-210 | an image goes, and the index with it |
| `Binaries.BinaryRegistry.BinaryForAddress` | stax-live/src/binaries.rs:219-250 | the lazily rebuilt index gives the same answer as one built afresh, and lookups change nothing else |
| `Binaries.LookupIs` | stax-live/src/binaries.rs:219-250 | the image found is the one with the highest base at or below the address, if it reaches that far |
| `Binaries.IndexFindsWhatIsCovered` | stax-live/src/binaries.rs:219-250 | an image is found for exactly the addresses some image covers, if and only if no image reaches over the end of one that starts later |
| `Binaries.DisjointImagesAreFound` | stax-live/src/binaries.rs:219-250 | among disjoint images the one found is the one that covers the address |
| `Binaries.LabelsMatchDisassembly` | stax-live/src/binaries.rs:295-318 | the binary search for labels and the linear search for disassembly name the same symbol when every image's symbols are separate |
| `Binaries.OverlapMislabels` | stax-live/src/binaries.rs:305-318 | where a symbol starts inside an earlier one they disagree |
| `Binaries.AddressRoundTrip` | stax-live/src/binaries.rs:597-605 | the two address translations undo each other, wrap-around included |
| `Binaries.BaseMapsToText` | stax-live/src/binaries.rs:597-605 | an image's base is where its text was linked, and offsets stay offsets, both ways |
| `ImageScan.ImageScanner.Rescan` | stax-mac-kperf-parse/src/image_scan.rs:120-245 | the announced events, replayed, turn the old set of images into the new one without ever loading a loaded image or unloading an absent one; a scanner that seeds nothing then knows exactly the images mapped, the old ones unchanged, and each new one, announced as it is known, with the larger of its region's size and its text's on disk |
| `ImageScan.ScanAll` | stax-mac-kperf-parse/src/image_scan.rs:120-245 | over any number of scans the listener's set follows the scanner's, and the images known are those the looks leave, each with its size when announced |
| `ImageScan.LastLookDecides` | stax-mac-kperf-parse/src/image_scan.rs:120-245 | after any looks from nothing, what is known is exactly the executable, named regions of the last look at a changed set of images |
| `ImageScan.ParseSymbols` | stax-mac-kperf-parse/src/image_scan.rs:389-419 | the table built from the raw symbols |
| `ImageScan.NameOfIs` | stax-mac-kperf-parse/src/image_scan.rs:389-404 | the name of an address is that of the first raw symbol there that has one and is not at zero |
| `ImageScan.TableIsSeparate` | stax-mac-kperf-parse/src/image_scan.rs:402-419 | starts strictly increase, each symbol ends where the next starts and the last one four bytes on, so the two symbol searches agree on every table read from disk |
| `ImageScan.TableHasTheNames` | stax-mac-kperf-parse/src/image_scan.rs:389-404 | the table's addresses are those of the usable symbols, each under the first name the file gives it |
| `ImageScan.TableCoversTheImage` | stax-mac-kperf-parse/src/image_scan.rs:402-419 | every address from the first symbol to the last finds the usable symbol with the highest address at or below it |

## Left out

- Operating system calls, mach and kperf frameworks, process spawning and reaping, terminals, the RPC layer, logging and command-line printing: their results are inputs.
- External parsers and demanglers (`object`, `symbolic`, `yaxpeax`, `arborium`): symbols, instructions and spans are arbitrary inputs; `strip_code_ptr` is an arbitrary function.
- The classification of off-CPU stacks, the event filter and the top-N table: the first two are arbitrary functions of the event, the third is a sort of the rollup.
- The string interner and the labels, languages and main-binary flags of flame nodes: they carry no counters.
- The ledger of wakeups per thread, thread names and the histogram and PMU totals of the pipeline: counting only.
- FlameGraph.SortEntries: does not model the tie-break by name between siblings of equal weight; any order of equals is allowed.
- FlameGraph.ComputeFlame: does not model the root row that sums the top-level counters.
- Neighbors.Walk: carries PMU counts along with the other counters, which the code leaves at zero in this view.
- NeighborLaws.CallersMeaning: is about the tree before small nodes are pruned and siblings sorted.
- Jitdump.JitdumpTailer.Tick: names are bytes; the lossy conversion to UTF-8 is not modelled.
- KernelSlide.SlideEstimator.Observe: addresses are unbounded, so the wrap-around of rounding up near the top of the address space is not modelled; nor are the 32-bit widths of the tallies and of the observation count, which 2^32 votes overflow.
- KernelSlide.SlideEstimator.Finalize: the fraction of support is a real number, not a floating-point one.
- Cfg.BuildBlocksAndEdges: addresses are unbounded; an instruction that would end past the address space is not modelled.
- Highlight.SpansToTokens: positions are characters; slicing inside a multi-byte character is not modelled, and the theme table is an arbitrary function.
- RunRegistry.ServerState.FinalizeRun: does not model pending terminals, the target pid and the shade's command channel; the reap that ends it is the later step `TakeShadeChild`, and killing the child taken is not modelled.
- PipelineLaws.Deliver: records events; the run check is a step of `EventRouting`, the run's counters are steps of the run registry, and events other than samples, wakeups and intervals are left out.
- EventRouting.EveryEventLands: says which aggregator an event lands in, not what it does there, and leaves out the binary registry, which is replaced together with the aggregator.
- EventRouting.SwapBetweenIff: channels are attached once `begin_run` has returned; a client that guesses the id of a run still beginning is not modelled.
- SendQueue.EveryInterleaving: the channel itself is a sequence; waiting and credit are not modelled.
- Binaries.BinaryRegistry.LookupSymbol: the kernel collection, the shared cache and the cache of demangled names are not modelled; neither are image bytes and their file offsets.
- ImageScan.ImageScanner.Rescan: the quick look at dyld's image count is an input.
