# A verified model of pbt-devnet's algorithmic cores

pbt-devnet drives Ethereum clients through partitions, reorgs and a live migration of their state
trie, and judges what they did. This project models the parts of it that decide something and
proves, in Dafny 4.11, what they promise. `dafny verify dfyconfig.toml` checks all of it.

**Block lineage and the reorg judge** (`Chain`, `Segments`, `Seats`, `Fates`, `Lineage`). A store of
headers by hash, fed by many nodes, from which each tick rebuilds the canonical chain (the anchor's,
coloured `s0`), names the branches off it, orphans or absorbs the ones left behind and derives reorg
records, while old blocks are pruned. `Fates` says of a whole tick, in terms of the state before it,
who holds which segment afterwards, what became of each segment there was and what each reorg record
names. The class holds the monitor's own maps; two ghost fields beside them, the universe a header
is drawn from and every header this run ever put, let the theorems compare what a pruned store says
with what it would say had it kept them all. A header is determined by its hash and its number is
its parent's plus one. Hashes, node numbers and segment ids are numbers; hash 0 is the empty one and
segment 0 is `s0`.

**EVM code generators** (`Bytes`, `Evm`, `TxKit`, `Deploy`, `Factory`, `Hammer`). An interpreter for
the opcodes the builders emit, following the Ethereum Yellow Paper (section 9 and appendix H.2, and
section 7 for creation), and the builders themselves. The theorems say what running the emitted
bytes does, for every slot list, runtime and address. Their centre is sequential composition: code
that falls through its end behaves the same with anything appended to it.

**The partition schedule, its driver and its judge** (`Schedule`, `Actions`, `Shipped`, `Dump`,
`Records`, `Driver`, `Injections`, `Readings`, `OwnHeals`, `Judge`, `RoundTrip`). A profile is
resolved against a genesis and a fork into ops and failsafe sweeps; a driver runs the sorted action
list against a network that may refuse or drop anything and a shutdown that may come at any wait; a
reader pairs the driver's log lines into windows and attributes each to an op. A run leaves a trace
of requests and log lines, with the deploy and the writes that inject state into a straddle and the
rejoining of peers. A monitor over it says which of these may come next and which lines each owes
the log, and every run is proved to keep to it and to do all it has to. Two readings of the windows,
one from the requests and one from the lines alone, are proved equal under an exact condition on the
run; and the last step composes resolver, driver and reader. Times are whole unix seconds, a log
line carries the time of the answer it reports, and a request to the partitioner takes at most its
client's 15-second limit.

**The fork block** (`IStar`, `Stall`, `Timeline`, `Quorum`). Two differently written binary searches
for the first block past the activation time; the per-node state machine over poll histories, whose
fields are shown to be exact summaries of the history; and the cross-node check of fork-block records.

**The job queue** (`JobQueue`). The mutex-and-channel protocol between submitters, the quiesce flag
and the worker, as interleaved steps.

**The shadow-root table** (`Shadow`). A sampler with a budget per node and step and a doubling backoff
per pair, whose answers are final.

`Options` and `Sorting` hold what several of these share: an optional value, and the insertion sort
that stands for the library's, with the proof that it orders and permutes.

Code that updates fields or loops is modelled by classes and methods with loops, each tied by its
contract to a specification function or predicate; the theorems are lemmas about those. The
network, the clock and every answer from outside are nondeterministic choices.

## What the code does not do

Several things a reader might expect are false of the code. Each is kept as the code has it, with
the exact condition under which the expected thing holds:

- Seeding slot 2^64-1 stores zero, because its successor wraps (`Deploy.SeedWrapsAtTheLastSlot`).
- The factory destroys its child exactly for runtimes of at most 65520 bytes: a longer one, up to
  65535, silently loses the high bits of its initcode's length (`Factory.FactoryDestroysItsChild`).
- The probe for the fork block is right exactly when the block it resumes from is below the
  activation on the chain it now reads (`IStar.ProbeIsRightExactlyWhen`); a reorg can break that.
- A quiesced and idle driver stays idle exactly when no submit call had already read the flag,
  which it does before the mutex (`JobQueue.IdleStaysExactlyWhen`).
- An idle driver is cleared after its last job exactly when the worker is not between that job and
  its Clear (`JobQueue.IdleIsClearedExactlyWhen`). A caller that waits for quiesced and idle can meet
  that gap, even with no submit call in flight (`JobQueue.IdleBeforeCleared`).
- The log reader sees what the driver cut exactly when each isolation's first heal line comes when it
  ends (`Readings.ReadsRightExactlyWhen`). That is so when the op's own Clear works, whatever the
  sweeps do (`OwnHeals.OwnHealToldRight`). When it fails no line of the victim's own can come, and the
  first heal-all line has to come at the time the isolation ended (`OwnHeals.LateHealToldRight`). It
  need not: a sweep that clears it says no-convergence and logs no heal, and re-peering after a failed
  sweep logs a heal-all over windows still open (`OwnHeals.SuchRunIsMisread` is such a run).
- A published hold of 0 stands for none, so a hold that ends at the unix epoch is lost in
  publication (`Dump.PublishedLatest`).
- The published heal deadline is the last sweep at or before the fork exactly when no sweep before
  the fork follows the last one at the fork (`Dump.DeadlineRightExactlyWhen`); the resolver sorts its
  sweeps, so for its schedules it is (`Dump.DeadlineIsLastSweep`).
- The gaps of a dump are disjoint exactly when no op the scan comes to heals before it starts yet
  after every op it has passed (`Dump.Gaps`); they cover the free instants either way.
- A node off the canonical chain need not hold its branch's segment, even while that is live. It does
  exactly when by its turn the branch had a name and, if its segment was lost, a head above the lost
  tip (`Fates.SeatedRight`, which `Lineage.Lineage.Recompute` ensures). So a node that comes before the
  one whose count names the branch waits for the next tick (`Fates.EarlierNodesWait`).
- Pruning can withhold a verdict: exactly when the two heads no longer both reach their meeting
  block (`Chain.PruningWithholdsWhen`).

## Model

| member | source | states |
|---|---|---|
| Lineage.Lineage.Put | cmd/migration-monitor/lineage.go:47-52 | a header is stored once under its hash and a known hash is left alone; every store invariant is kept |
| Lineage.Lineage.Extend | cmd/migration-monitor/lineage.go:54-77 | stores the head and a descending run of its unknown parents, newest first, stopping at a known block, genesis, the fetch bound or a failed fetch |
| Lineage.Lineage.Observe | cmd/migration-monitor/lineage.go:79-89 | records the head, and as its move only the head the node had at the last settle |
| Lineage.Lineage.IsAncestor | cmd/migration-monitor/lineage.go:322-333 | true exactly when a is on the stored chain below b |
| Lineage.Lineage.CommonAncestor | cmd/migration-monitor/lineage.go:335-363 | terminates with the meeting block of the two chains, or with nothing exactly when they do not meet inside the store |
| Chain.MeetIsHighest | cmd/migration-monitor/lineage.go:335-363 | the meeting block is on both chains and every other shared block is below it; there is none exactly when the chains are disjoint |
| Chain.AdvanceIsReachability | cmd/migration-monitor/lineage.go:91-107 | a move is a plain advance exactly when the old head is on the new head's known chain |
| Chain.RewindCountsBlocks | cmd/migration-monitor/lineage.go:109-122 | a recorded reorg drops at least one block; depth and added are the lengths of the dropped and the adopted path, which share no block |
| Chain.PruningOnlyWithholds | cmd/migration-monitor/lineage.go:104-125 | whatever a pruned store says of a move the full store says too, or the pruned one calls it truncated; an advance never turns into a reorg |
| Chain.PruningWithholdsWhen | cmd/migration-monitor/lineage.go:104-125 | the pruned verdict equals the full one exactly when the full store's meeting block is still reached from both heads |
| Lineage.Lineage.WalkTo | cmd/migration-monitor/lineage.go:267-279 | the blocks from a hash down to the first canonical or unknown one, newest first |
| Lineage.Lineage.CanonicalWalk | cmd/migration-monitor/lineage.go:137-147 | the canonical set is exactly the anchor's stored chain and first is its oldest block |
| Lineage.Lineage.FreeLane | cmd/migration-monitor/lineage.go:304-320 | the first lane in order with no live occupant and no orphan that ended too recently; 4 exactly when every lane is taken |
| Lineage.Lineage.SegmentID | cmd/migration-monitor/lineage.go:281-293 | a first block keeps its id; a new one gets a fresh id and a live record that starts at its slot in the first lane vacant then, and ids and first blocks stay in one-to-one correspondence |
| Chain.PathTailOf | cmd/migration-monitor/lineage.go:137-147 | the stored chain of any block of a chain is the rest of that chain, so every stored ancestor of a canonical block is canonical |
| Chain.BranchesShareTheirFirst | cmd/migration-monitor/lineage.go:204-208 | all blocks of one branch lead to the same first block, so a branch's name does not depend on which of its heads is walked |
| Lineage.Lineage.Place | cmd/migration-monitor/lineage.go:197-241 | one node's turn: on the canonical chain it becomes s0's last holder and its count starts over; off it the count grows, the branch is named once the count calls for it, with a record in the first vacant lane at its first block's slot, and a node on a named branch joins its segment, or waits exactly when the segment was lost and the head is at or below its tip; nothing else changes |
| Lineage.Lineage.Join | cmd/migration-monitor/lineage.go:218-240 | a node parked at or below a lost tip changes nothing; any other paints its whole branch and becomes the last holder of a live segment that keeps its name, lane and first slot |
| Lineage.Lineage.AbandonSuffix | cmd/migration-monitor/lineage.go:156-181 | an abandoned suffix becomes one orphan: its blocks take one id, an old name keeps its record's lane and first slot, its record names who lost it, and reorg records that left s0 there are redirected |
| Lineage.Lineage.Respine | cmd/migration-monitor/lineage.go:132-189 | after an anchor move s0 is exactly the new anchor chain and the suffix it left is set aside |
| Lineage.Lineage.RetireAll | cmd/migration-monitor/lineage.go:243-264 | segments nobody reached are absorbed into s0 when the anchor adopted them, their reorg records with them, and orphaned otherwise |
| Segments.RetirementKeeps | cmd/migration-monitor/lineage.go:243-264 | retiring leaves every segment reached this tick, and its record, as it was |
| Lineage.Lineage.Recompute | cmd/migration-monitor/lineage.go:129-265 | from any reachable state, including one whose anchor jumped to another branch, leaves a settled store, and says in terms of the state before who holds what: a node off the canonical chain holds its branch's segment, live and in its colour, exactly when by its turn the branch was named and not lost under it; every segment named before is absorbed exactly when its first block is canonical, held, or lost by its last holders; and each record's lost and won are what that makes them |
| Fates.NamedBranchIsHeld | cmd/migration-monitor/lineage.go:197-241 | while a branch that was named and live lasts, every node on it holds its segment and wears its colour |
| Fates.OnlyParkedAreLeftOut | cmd/migration-monitor/lineage.go:218-240 | a node on a branch that was named is left out only if the segment was lost and every head placed so far on the branch is at or below the lost tip |
| Fates.EarlierNodesWait | cmd/migration-monitor/lineage.go:197-216 | a name given in this tick comes too late for the nodes placed before the one that earns it: two nodes with one head, of which the later one alone has the name by its turn |
| Fates.ReckonedAtLast | cmd/migration-monitor/lineage.go:129-265 | redrawing s0, the turns of all nodes and retirement amount together to what recompute promises of holders, segments and records |
| Seats.BoardedNext | cmd/migration-monitor/lineage.go:197-241 | a turn keeps the account of all turns: after each node, who is seated is exactly who is entitled to it, and the names new are exactly those earned |
| Lineage.HoldersAreDisjoint | cmd/migration-monitor/lineage.go:183-241 | a node is a holder of at most one segment, that segment is live, and the node's head wears its colour |
| Lineage.SpineIsTheAnchorsChain | cmd/migration-monitor/lineage.go:132-189 | right after a recompute with nothing pruned, the blocks coloured s0 are exactly the stored ancestors of the anchor's head |
| Lineage.Lineage.JudgeMove | cmd/migration-monitor/lineage.go:104-125 | a moved head yields a record exactly when the store says rewind, and is counted as truncated exactly when the store lost its ancestry |
| Lineage.Lineage.JudgeMoves | cmd/migration-monitor/lineage.go:98-126 | every moved node is judged once, in ascending order, and the records are appended to the log |
| Lineage.Lineage.Settle | cmd/migration-monitor/lineage.go:91-127 | one tick: recompute, then judge every move since the last one; older records change only in the segments they name, as recompute says, and the truncated counter grows by exactly the unjudged moves |
| Lineage.Lineage.Prune | cmd/migration-monitor/lineage.go:438-465 | a block goes only if it is older than the retention and is no node's head and no segment's tip or ancestor; an old block stays only if it is one of these; what stays is unchanged, and exactly the old records go |
| Segments.SinceMeans | cmd/migration-monitor/lineage.go:458-464 | no record from the cutoff on is lost or doubled, no older one stays, and their order is kept |
| Lineage.PrunedRecordsStand | cmd/migration-monitor/lineage.go:94-127 | every reorg settled on a pruned store has the ancestor, depth, added count and crossing flag that all the headers this run ever stored give, and a move without a record is unjudged or an advance by them too |
| Bytes.WordToBytes | internal/txkit/txkit.go:46-49 | the big-endian bytes of a number that fits them read back as that number |
| TxKit.SeedCode | internal/txkit/txkit.go:65-72 | the emitted bytes are the stores of slot to slot plus one, in order |
| TxKit.ZeroizeInitCode | internal/txkit/txkit.go:74-86 | all seeding stores come first, then all the zeroing ones, then the empty return |
| TxKit.StoresRun | internal/txkit/txkit.go:57-72 | running n consecutive stores from any program counter takes exactly their 3n instructions and applies exactly their writes in order |
| TxKit.StoredAt | internal/txkit/txkit.go:57-72 | stores change only the executing account's storage |
| Deploy.SeedsApplied | internal/txkit/txkit.go:65-72 | after seeding each listed slot holds its successor modulo 2^64 and every other slot what it held, duplicates included |
| Deploy.SeedWrapsAtTheLastSlot | internal/txkit/txkit.go:65-72 | the seeded value is non-zero exactly for slots other than 2^64-1, whose successor wraps to zero |
| Evm.PrefixRuns | internal/txkit/txkit.go:143-174 | sequential composition: a prefix that runs off its end without reading code runs the same steps with anything appended, and control passes to its end |
| Evm.RunFrom | internal/txkit/txkit.go:143-174 | a run continues from any state it reaches |
| Evm.PcOnlyGrows | internal/txkit/txkit.go:143-174 | a straight-line run never ends before where it began |
| Deploy.DeployReturnsRuntime | internal/txkit/txkit.go:143-174 | after any prefix that falls through, the preamble returns exactly the runtime blob and executes nothing else |
| Deploy.SeedFallsThrough | internal/txkit/txkit.go:65-72 | seeding code falls through its end for every slot list |
| Deploy.SeededDeployment | internal/txkit/txkit.go:143-174 | for every slot list and runtime within the PUSH2 limits, the whole initcode returns the runtime, sets each slot, touches no other account, and executes only the stores and the preamble |
| Deploy.SeededCreation | internal/txkit/txkit.go:143-174 | as a creation it installs the runtime and the seeded storage, unless the runtime begins with 0xef, which EIP-3541 refuses |
| Deploy.WipesApplied | internal/txkit/txkit.go:80-86 | after wiping each listed slot is zero and every other slot what it held |
| Deploy.ZeroizePopulatesFirst | internal/txkit/txkit.go:74-86 | the run reaches a point where every listed slot is seeded at once |
| Deploy.ZeroizeEndsEmpty | internal/txkit/txkit.go:74-86 | it ends with every listed slot zero, every other slot as before, and returns empty code |
| Deploy.RevertTwin | cmd/pbthammer/main.go:714-724 | the reverting program and its returning pricing twin execute the same instructions and reach the same state up to the last opcode |
| Deploy.RevertRestores | cmd/pbthammer/main.go:714-724 | as a creation the reverting one changes nothing but its sender's nonce |
| Hammer.RevertShape | cmd/pbthammer/main.go:714-724 | the two programs are the same seeding code, ended by REVERT and by RETURN |
| Deploy.WriterWrites | internal/txkit/txkit.go:115-121 | calling the writer stores calldata word 1 at calldata word 0 and nothing else, for any calldata |
| Deploy.ReaderReads | internal/txkit/txkit.go:108-113 | calling the reader returns the word of the slot named by calldata word 0 and changes nothing |
| Hammer.ZeroizeSlots | internal/txkit/txkit.go:27-36 | the batch is slots 1 to 3 of the header stem and the group 64 to 71 |
| Hammer.World.ZeroizeShape | cmd/pbthammer/main.go:802-827 | even turns zeroize the batch, odd ones write a fresh slot or zero the oldest live one; the live list stays in step with what the writer was sent |
| Hammer.World.WriterShape | cmd/pbthammer/main.go:808-826 | the odd turns: which slot, which value, and how the live list moves |
| Hammer.WriterReplays | cmd/pbthammer/main.go:802-827 | replaying the inputs through the writer's code gives the storage they describe |
| Hammer.WriterHoldsTheLiveSlots | cmd/pbthammer/main.go:802-827 | after any number of turns the writer's non-zero slots are exactly the live slots, which are distinct and at most two |
| Factory.FactoryDestructInitCode | internal/txkit/txkit.go:190-225 | the emitted bytes are the 31-byte prefix and the child's initcode, or the panic of a runtime over 0xffff bytes |
| Factory.FactoryDestroysItsChild | internal/txkit/txkit.go:176-225 | the factory creates the child, DUP6 finds its address and the call destroys it in the beneficiary's favour exactly for runtimes of at most 65520 bytes; a longer one overflows the PUSH2 of its initcode's length and leaves an empty child |
| Factory.FactoryChildGone | internal/txkit/txkit.go:176-225 | at the end of the transaction the child is gone exactly when the runtime had at most 65520 bytes, and every other account keeps its code |
| Factory.CutPreambleStops | internal/txkit/txkit.go:198-212 | a truncated preamble stops without touching the state: why the overlong child is created empty |
| Factory.PatternCode | internal/txkit/txkit.go:227-244 | n bytes of fill behind a leading STOP |
| Factory.PatternIsInert | internal/txkit/txkit.go:227-244 | calling such a blob succeeds, returns nothing and changes nothing |
| Schedule.Lights | internal/migsched/schedule.go:140-153 | exactly the participants that are neither the anchor nor protected, ascending |
| Schedule.AdmitDeep | internal/migsched/schedule.go:258-268 | admits exactly the islands whose summed stake is strictly between a third and a half |
| Schedule.Heaviest | internal/migsched/schedule.go:281-286 | the heaviest victim's stake, or zero for none |
| Schedule.SharesAddUp | internal/migsched/schedule.go:132-138 | all stakes add up to one, the anchor has its own and the others are alike |
| Schedule.WindowsFit | internal/migsched/schedule.go:307-324 | a window op is admitted exactly when it cuts one node that is not the anchor for one to three minutes, between five and eight minutes after the fork |
| Schedule.AdmitStraddle | internal/migsched/schedule.go:270-305 | admits exactly the mutual straddles in which every island loses to the anchor by the margin, no side finalizes alone, both sides reach past the fork and the drop stays bounded |
| Schedule.StraddlesFit | internal/migsched/schedule.go:270-305 | in numbers: no victim is the anchor, a light's equal share and a twentieth more is at most the anchor's, which is under two thirds; a minute on both sides of the fork, at most three past it, and at most 24 blocks dropped |
| Schedule.Failsafes | internal/migsched/schedule.go:344-375 | a sweep comes exactly at the deadline, at a straddle's latest heal and a minute later, a minute after a window op's end, and at the last end of an admitted pre-fork op if that is before the deadline; each as often as it is asked for, ascending; quiet begins at the deadline or two minutes after the latest straddle or window heal past it |
| Schedule.SweepsMean | internal/migsched/schedule.go:344-375 | whatever list holds the sweeps asked for, an instant is among them exactly for one of the four reasons, and quiet is where the last of them puts it |
| Schedule.SinglesRotate | internal/migsched/schedule.go:201-235 | single victims rotate: the first op takes the first light, each later one the light after the one before it, around the end |
| Schedule.PairsRotate | internal/migsched/schedule.go:201-235 | deep pairs rotate: the first is the first two lights, each later one begins where the one before ended |
| Schedule.CheckFailsafes | internal/migsched/schedule.go:326-342 | accepts exactly when no sweep falls inside an admitted op |
| Schedule.ResolveWindow | internal/migsched/schedule.go:201-248 | one window as an op, admitted exactly when its class's rule holds, refused when it would heal past the deadline |
| Schedule.OpMeans | internal/migsched/schedule.go:201-248 | an op's times count from genesis or from the fork as its window says; it is refused exactly when it is a pre-fork op that ends inside the margin; a straddle, and only that, is mutual, takes every light and may be held two minutes |
| Schedule.Resolve | internal/migsched/schedule.go:173-256 | succeeds only with an acceptable topology and its exact schedule, whose sweeps and quiet are where the ops call for them, and each failure has its cause |
| Actions.ActionsOf | internal/migsched/schedule.go:428-450 | the starts and ends of the admitted ops and the sweeps, each once, sorted by time and kind |
| Actions.ListMeans | internal/migsched/schedule.go:428-450 | the list holds a start and an end for every op not refused, every sweep, and nothing else, by time; at one instant ends come before sweeps and sweeps before starts |
| Actions.EndFollowsStart | internal/migsched/schedule.go:428-450 | in a serial schedule's list every op's end comes immediately after its start, and every end follows its start |
| Shipped.OpsInOrder | internal/migsched/schedule.go:76-94 | admitted ops run one after the other up to their latest heal, with room for attribution between them |
| Shipped.SweepMissesOp | internal/migsched/schedule.go:326-375 | no sweep of a roomy profile falls inside an admitted op |
| Shipped.ResolvedIsSerial | internal/migsched/schedule.go:173-256 | every resolution of a roomy profile runs serially, so its own failsafe rule never fails it |
| Shipped.AllBeforeQuiet | internal/migsched/schedule.go:344-375 | every action lies at or before quiet |
| Shipped.EveryOpIsSwept | internal/migsched/schedule.go:344-375 | whatever the profile, every admitted op's latest heal is followed by a sweep no later than quiet |
| Shipped.CompositeAt2000 | internal/migsched/schedule.go:76-94 | the full profile with its fork 2000 seconds in: its five sweeps, its quiet and each op's victims, as numbers |
| Shipped.ShippedSchedulesAreSafe | internal/migsched/schedule.go:76-94 | both shipped profiles, every genesis, fork and topology: disjoint ops, ends right after starts, no sweep inside an op, everything before quiet |
| Shipped.ShippedResolve | internal/migsched/schedule.go:173-256 | every genesis, fork and topology has a resolution of either shipped profile, and the sweep rule never refuses it |
| Shipped.DefaultTopologyAccepted | internal/migsched/schedule.go:258-324 | four participants, a 0.4 anchor and six-second slots pass every admission rule of the full profile |
| Dump.PublishedLatest | internal/migsched/dump.go:37-42 | publication keeps an op's latest heal except when its hold ends at the unix epoch itself |
| Dump.HealDeadline | internal/migsched/dump.go:98-113 | computes the published heal deadline: two minutes after the latest heal of a straddle or window; for the others the last sweep at or before the fork, or the fork if there is none, exactly when no sweep before the fork follows the last one at it |
| Dump.DeadlineIsLastSweep | internal/migsched/dump.go:98-113 | sorted sweeps, as the resolver publishes them, meet that condition |
| Dump.DeadlineRightExactlyWhen | internal/migsched/dump.go:98-113 | whatever the order of the sweeps, the fold gives the last sweep at or before the fork, or the fork if there is none, exactly when no sweep before the fork follows the last one at the fork |
| Dump.SomeOrdersForget | internal/migsched/dump.go:98-113 | two lists out of order, of which one is read wrong and one right |
| Dump.ShippedHealInTime | internal/migsched/dump.go:98-113 | every admitted op of a shipped schedule ends at or before its published heal deadline |
| Dump.Gaps | internal/migsched/dump.go:115-150 | non-empty intervals in order of start that cover exactly the instants of [from, to) no admitted op occupies, each closed by the end of the range or an op's start; they are disjoint exactly when no op the sweep comes to heals before it starts yet after every op it has passed |
| Dump.ForwardIsNotBackward | internal/migsched/dump.go:115-150 | ops that heal no earlier than they start always give disjoint gaps |
| Dump.Contains | internal/migsched/dump.go:152-160 | true exactly when one gap contains the span, and then no admitted op touches it |
| Dump.ChaosFree | cmd/migration-swap/gate.go:59-66 | the stretch from now, capped at the horizon, that no admitted partition occupies; for ops that last, it ends early only where one begins |
| Dump.SwapGate | cmd/migration-swap/gate.go:131-166 | proceeds, for ops that last, exactly when the margin fits before the fork, the anchor is known, canonical and recently finalized, nothing is down, cut or behind, and no admitted partition touches the expected swap and its slack; and exactly when it skips and when it calls the anchor reorged |
| Driver.Islands | cmd/migration-chaos/main.go:170-180 | the groups of a Partition: everyone but the victims first, then the victims together, or each alone when mutual |
| Driver.Driver.Wait | cmd/migration-chaos/main.go:233-240 | a shutdown at any wait tries a Clear before it returns |
| Driver.Driver.Poll | cmd/migration-chaos/main.go:360-381 | one round: every victim not yet across, and no one else, is probed once, in order; what the round learns is what its probes answered, and someone is left waiting exactly when a probe found no crossing |
| Driver.RoundAsksEveryone | cmd/migration-chaos/main.go:360-381 | so a round asks each victim that had not crossed and none that had |
| Driver.Driver.HoldUntilCrossed | cmd/migration-chaos/main.go:353-400 | probes in rounds, at least a slot apart, of everyone not yet across; returns once a round leaves nobody waiting or ends past the hold, with exactly the victims that crossed and exactly those no probe reached; says once that it holds, exactly when it has to wait; ends for every behaviour of the network |
| Driver.Driver.Deploy | cmd/migration-chaos/inject.go:60-80 | a deploy is tried once, before the start and never earlier than a minute before it; it logs one line, and later writes have a target exactly when some deploy worked |
| Driver.Driver.SplitWrites | cmd/migration-chaos/inject.go:87-143 | one attempt writes all there is to write: the majority's two slots, in either order, or none if it cannot be reached, then the island's one; nothing when no deploy ever worked; every write sent is logged, after a warning when it has no receipt |
| Driver.Driver.StartOp | cmd/migration-chaos/main.go:248-287 | for a straddle, when state can be injected, a deploy is tried first, from a minute before the start on; a start is skipped when stale, and a Partition of the right groups sent only inside its op's window after a Clear was tried for the one before it; an accepted one logs an isolate line per victim at once and, for such a straddle, is followed by one attempt at the writes of both sides; a refused one owes a warning per victim and leaves nothing due |
| Driver.Driver.EndOp | cmd/migration-chaos/main.go:289-322 | an op never applied is never healed and said so once per victim; an applied one gets its hold and its Clear attempt, and the lines that owes at once: one heal line per victim with what the hold found, after which the peers are rejoined, or one warning |
| Driver.Driver.Sweep | cmd/migration-chaos/main.go:324-343 | a sweep owes one line at once: a warning when it fails, no-convergence when it clears what no Clear since the last accepted Partition had, otherwise a heal-all; the peers are rejoined either way |
| Driver.Driver.Execute | cmd/migration-chaos/main.go:223-351 | in every run of a serial schedule, under any refusals and a shutdown at any wait: every request is allowed when it is sent and every line it owes follows at once, a Clear was tried after the last accepted Partition, no op is accepted twice, refused and never applied ops are said to be, deploys, writes and the rejoining of peers are exactly those the ops and the clients call for, the starts and sweeps are dealt with in order, and all of them, up to quiet, exactly when no shutdown came |
| Driver.RefusalsMean | cmd/migration-chaos/main.go:225-231 | exactly the refused ops with victims are said to be refused |
| Driver.DueMeans | cmd/migration-chaos/main.go:246-343 | what is to be dealt with is every start and sweep of the list, each as often as it is there |
| Driver.NeversMean | cmd/migration-chaos/main.go:293-298 | exactly the ops with victims that came to their end and were never accepted are said never to have been applied |
| Injections.CutsSplit | cmd/migration-chaos/main.go:170-180 | every Partition a run sends puts the rest of the network in one group and the victims in the others |
| Injections.DeploysExactly | cmd/migration-chaos/main.go:248-262 | in every run a start, carried out or skipped as stale, is preceded by a deploy tried for it, within the minute before its time or later and while the network is whole, exactly when it is a straddle's and state can be injected; and by one only |
| Injections.WritesExactly | cmd/migration-chaos/main.go:279-287 | in every run, between an accepted Partition and the first Clear after it, the writes of both sides are attempted, at least a quarter of a minute into the window, exactly when it is a straddle's and state can be injected; and once only |
| Injections.NothingInjected | cmd/migration-chaos/main.go:248-287 | a driver that cannot inject never deploys and never writes |
| Injections.PeersRejoined | cmd/migration-chaos/main.go:311-343 | with other clients to rejoin, every own Clear that works and every sweep is followed by rejoining the peers before the next of these |
| Injections.NobodyRejoined | cmd/migration-chaos/main.go:421-432 | with fewer than two clients nobody is ever rejoined |
| Records.PartitionsAreSeparated | cmd/migration-chaos/main.go:248-310 | between an accepted Partition and any later one a Clear was tried, and each is sent inside its op's window |
| Records.OwedComeNext | cmd/migration-chaos/main.go:248-400 | the lines a request owes are the next events of the run, in order, with the time of its answer |
| Records.CrossingsAreLogged | cmd/migration-chaos/main.go:360-381 | a victim's crossing is followed at once by its isolate line |
| Records.NoConvergenceExactly | cmd/migration-chaos/main.go:324-343 | no-convergence is reported exactly after a succeeding sweep when every Clear since the last accepted Partition failed |
| Records.HealsAreInTime | cmd/migration-chaos/main.go:289-310 | an op's heal is the first Clear tried for it, not before its window is over and, for a straddle, its hold is over or every victim was seen to cross |
| Records.WatchMeans | cmd/migration-chaos/main.go:243-244 | the two flags the driver keeps say exactly whether a Clear was tried, and succeeded, since the last accepted Partition |
| Judge.ChaosWindows | cmd/verify-migration/checks.go:239-271 | the windows of a log, whatever order the open map is walked in: those the lines close, and those never healed |
| Judge.Owner | cmd/verify-migration/checks.go:346-353 | the first admitted op whose victims hold the node and whose window, give or take half a minute, holds the start; none exactly when no op does |
| Judge.SlopWidens | cmd/verify-migration/checks.go:226-237 | an instant is covered with slop exactly when one no further off is covered without |
| Judge.AttributeWindows | cmd/verify-migration/checks.go:341-359 | every window is matched to its first owner or is unscheduled, and none is lost or doubled |
| Readings.PairIsHeard | cmd/verify-migration/checks.go:239-271 | pairing the lines of any safe run gives what a reader would get that opened windows at the accepted Partitions themselves: crossing lines and repeated isolates change nothing |
| Readings.DroveClosed | cmd/migration-chaos/main.go:248-343 | the windows a run cut are exactly those of the accepted Partitions' victims, from the answer to the next accepted Partition or working Clear |
| Readings.HeardClosed | cmd/verify-migration/checks.go:239-271 | the windows a log tells are exactly those from a Partition that finds its node closed to the first line that heals the node |
| Readings.ReadsRightExactlyWhen | cmd/verify-migration/checks.go:239-271 | for every safe run: the log reads as what was cut exactly when each isolation is told right, that is, its node's first heal line comes, if the isolation ended, before the node is cut again and at the time it ended |
| OwnHeals.OwnHealToldRight | cmd/migration-chaos/main.go:289-322 | an isolation whose op's own Clear works is told right, whatever any sweep does |
| OwnHeals.LateHealToldRight | cmd/migration-chaos/main.go:289-343 | one whose first Clear fails is told right exactly when the first heal line for its node after that is a heal-all at the time it ended, before the node is cut again, or when neither ever comes |
| OwnHeals.OwnHealsTellRight | cmd/migration-chaos/main.go:289-343 | a run in which every accepted Partition is healed by its op's own Clear tells every isolation right and ends each |
| OwnHeals.FirstClearsTellRight | cmd/migration-chaos/main.go:289-343 | without a shutdown, that is the case when the first Clear tried after each accepted Partition works |
| OwnHeals.SuchRunIsMisread | cmd/migration-chaos/main.go:289-343 | a safe run, for any one-victim op without a hold, that is misread: its own Clear fails, the sweep after it fails, the peers are rejoined all the same, which logs a heal-all, and the log reads as a closed window while the victim is still isolated |
| RoundTrip.CutsOwner | cmd/verify-migration/checks.go:341-380 | a window of an accepted Partition is attributed to the op that made it |
| RoundTrip.LogTellsTheCuts | cmd/verify-migration/checks.go:239-271 | reading a run that tells every isolation right and ends each gives healed windows only, each once, owned by the op that made it, and one for every victim of every accepted Partition |
| RoundTrip.ReadExactly | cmd/verify-migration/checks.go:341-359 | so attribution finds exactly one window per victim per accepted Partition and leaves none stray |
| RoundTrip.RunAndRead | cmd/verify-migration/checks.go:239-359 | the whole way: run the schedule, read its log, attribute the windows; the log reads as what was cut exactly when every isolation is told right, attribution is then exact, and in a run no shutdown met it is enough that the first Clear after each accepted Partition works |
| RoundTrip.CoveredExactlyWhileCut | cmd/verify-migration/checks.go:226-237 | the windows read from such a run cover a node's instant exactly when the node was cut then |
| RoundTrip.ShippedRunsAreRead | internal/migsched/schedule.go:76-94 | both shipped profiles resolve to schedules that can be run and read so |
| IStar.Prober.FindIStar | cmd/migration-monitor/monitor.go:257-316 | fails exactly when one of its requests failed; otherwise it says the head is below the activation, and resumes there, or gives the record of the block it settles on |
| IStar.BackwalkIStar | cmd/verify-migration/checks.go:192-215 | fails exactly when one of its requests failed; otherwise the first block at or past the activation, or that the head has not reached it |
| IStar.ProbeIsRightExactlyWhen | cmd/migration-monitor/monitor.go:272-287 | the probe finds the first block exactly when the block it resumes from is below the activation on the chain it reads, or, resumed at or past the head, exactly when the head is the first |
| IStar.SearchesCoincide | cmd/migration-monitor/monitor.go:272-287 | the two searches give the same number exactly when the probe's resume point is below the activation on the chain, or, at or past the head, when the head is the first |
| IStar.ProbeAndWalk | cmd/migration-monitor/monitor.go:257-316 | both searches over one chain: while no request fails both answer, agree on whether the head has crossed, and find the same record exactly when the probe's resume point is below the activation |
| IStar.ResolveIStar | cmd/verify-migration/checks.go:147-190 | the verifier's fork block: resolved exactly when some block is what every source that answers says, each node's last event and the backwalk of the first node, and one does answer; and then to that block |
| IStar.SoundEventsResolve | cmd/verify-migration/checks.go:147-190 | events that all name the first block of the chain walked never leave it unresolved |
| IStar.ShapeDecides | internal/migmon/timeline.go:258-272 | a record of a chain has the right shape exactly when it is the one first block and the activation is not zero |
| IStar.StaleResumePoint | cmd/migration-monitor/monitor.go:272-287 | a resume point a reorg left past the activation makes the probe settle one block late, on a record of the wrong shape |
| Stall.RunMeans | internal/migmon/timeline.go:179-194 | a run is the longest stretch of live polls with one cursor |
| Stall.DueMeans | internal/migmon/timeline.go:179-201 | a poll is due exactly when the cursor of a working direction has held for twenty polls or more and the head gained ten or more in them |
| Stall.DirState.Observe | internal/migmon/timeline.go:162-203 | the fields are an exact summary of the polls since the last reset, and the findings of a poll are exactly those the history calls for |
| Stall.OncePerRun | internal/migmon/timeline.go:195-201 | between two slow stalls a new run began |
| Stall.FoundIfDue | internal/migmon/timeline.go:195-201 | a run in which any poll is due is found stalled, at the first such poll |
| Timeline.JudgedMeans | internal/migmon/timeline.go:124-140 | the boundary window expires exactly when the first deciding poll is late both in polls and in blocks and finds the binary direction not parked |
| Timeline.RecordsAreSeparated | internal/migmon/timeline.go:64-102 | between two fork-block records there is a reorg of the first, and nothing follows a final one |
| Timeline.HeldNext | internal/migmon/timeline.go:64-102 | each event the state allows keeps the alternation and leaves the record it should |
| Timeline.Timeline.ObserveIStar | internal/migmon/timeline.go:64-72 | a held record is kept; otherwise the block is recorded with one event |
| Timeline.Timeline.IStarReorged | internal/migmon/timeline.go:74-90 | drops the record with one event unless it is final, and re-arms the boundary window |
| Timeline.Timeline.IStarFinalized | internal/migmon/timeline.go:92-102 | settles the record once |
| Timeline.Timeline.ObservePoll | internal/migmon/timeline.go:107-153 | one poll's events are exactly the stall findings of both directions, an expiry if this poll decides the window so, and done-too-early the first time the stage is done with no record or a head not past it |
| Timeline.Timeline.ResetStall | internal/migmon/timeline.go:52-59 | only the stall bookkeeping starts over |
| Quorum.DifferPairsNext | internal/migmon/timeline.go:236-254 | a newly settled record adds one differing pair per node it differs from |
| Quorum.IStarQuorum.Finalize | internal/migmon/timeline.go:236-254 | the findings raised so far are as many as the unordered pairs of nodes with different finals, whatever the order they settled in |
| Quorum.IStarQuorum.CheckShape | internal/migmon/timeline.go:256-272 | a record's shape is reported at most once per node and hash |
| Quorum.IStarQuorum.FindDifference | internal/migmon/timeline.go:279-303 | the verdict does not depend on the order the records are walked in |
| Quorum.IStarQuorum.CheckProvisional | internal/migmon/timeline.go:274-310 | fires at the first look at which the current disagreement has outlasted the grace; agreement re-arms it |
| Quorum.OverdueOnce | internal/migmon/timeline.go:292-308 | one disagreement is found overdue at most once |
| Quorum.LateMeans | internal/migmon/timeline.go:292-308 | a look is late exactly when it comes more than six minutes after the first of the looks in a row at which nodes differed |
| Quorum.IStarQuorum.Observe | internal/migmon/timeline.go:229-234 | replaces the node's record and reports shape and disagreement |
| JobQueue.InitInv | cmd/pbtchaos/main.go:310-340 | the driver starts in the invariant |
| JobQueue.StepKeeps | cmd/pbtchaos/main.go:349-408 | every step of every submitter, of quiesce and of the worker keeps the invariant |
| JobQueue.RunKeeps | cmd/pbtchaos/main.go:349-408 | so every interleaving does |
| JobQueue.QueuedIsTheQueue | cmd/pbtchaos/main.go:387-408 | with the mutex free the listed names are the job in hand and then the channel in order, and busy holds exactly when a job is in the channel, in hand or running |
| JobQueue.JobsRunInOrder | cmd/pbtchaos/main.go:349-402 | jobs begin in the order accepted, each once, none lost; at most 17 wait and at most 50 are remembered |
| JobQueue.HistoryIsNewest | cmd/pbtchaos/main.go:366-372 | what is remembered is the newest jobs that ended, in order, up to fifty |
| JobQueue.ClearSeparatesJobs | cmd/pbtchaos/main.go:364-377 | at most one job runs, and between any two the first ended and a Clear was tried |
| JobQueue.DrainedStays | cmd/pbtchaos/main.go:389-402 | quiesced and idle with no submit past its look at the flag, nothing is accepted or begun any more |
| JobQueue.IdleStaysExactlyWhen | cmd/pbtchaos/main.go:389-394 | a driver that is quiesced and idle can get busy again exactly when some submit call is between reading the flag and taking the mutex |
| JobQueue.IdleIsClearedExactlyWhen | cmd/pbtchaos/main.go:366-408 | whoever finds the driver idle finds its last job cleared after exactly when the worker is not between that job and its Clear |
| JobQueue.IdleBeforeCleared | cmd/pbtchaos/main.go:366-437 | every driver with a submitter can reach that gap in its first job: quiesced, idle, no submit in flight, drained for good, and the Clear still to come |
| JobQueue.DrainedIsClearedOnceTried | cmd/pbtchaos/main.go:366-377 | from a drained state on, the network is cleared after exactly when the worker was past its Clear or has come to it |
| Shadow.ShadowTable.Track | cmd/migration-monitor/shadow.go:45-50 | a new block starts with no answers, a tracked one keeps them |
| Shadow.Pending | cmd/migration-monitor/shadow.go:57-71 | the tracked blocks, newest slot first and then by hash |
| Shadow.DueIsTheFirstReady | cmd/migration-monitor/shadow.go:76-84 | what a node is asked about is exactly the first ready blocks in that order, as many as the budget allows |
| Shadow.DueIsAskedRight | cmd/migration-monitor/shadow.go:72-88 | the first ready blocks are what a node should be asked about, said by roots, ask times and slots alone |
| Shadow.ReadyMeans | cmd/migration-monitor/shadow.go:81-84 | a pair is due exactly when it has no root and was never asked, or its last ask is long enough ago for how often it was |
| Shadow.SpacedMeans | cmd/migration-monitor/shadow.go:82-88 | spaced asks are exactly those of which each waited 1, 2, 4, 8, 16 or 32 retry intervals after the one before |
| Shadow.ShadowTable.Ask | cmd/migration-monitor/shadow.go:85-96 | one ask: the time and count are kept, the answer is stored, an error leaves the root unreported and is returned as a warning exactly when it is new for that node |
| Shadow.ErrorsAreReportedOnce | cmd/migration-monitor/shadow.go:89-93 | the warnings of any answers are exactly the node and message pairs among them not reported before, each once |
| Shadow.ShadowTable.AskNode | cmd/migration-monitor/shadow.go:76-97 | one node's asks of a step are exactly its due ones, change only its own cells and warn exactly of the new errors among the answers |
| Shadow.ShadowTable.Step | cmd/migration-monitor/shadow.go:52-99 | drops exactly the blocks past retention; each able node is asked only about blocks with no root from it whose last ask, if any, is 1, 2, 4, 8, 16 or 32 retry intervals ago, newest first, and such a block goes unasked only when the budget went to sooner ones; stores exactly what was answered and warns exactly of the new errors |
| Shadow.AskedKeeps | cmd/migration-monitor/shadow.go:82-88 | asking only ready pairs keeps each pair's asks spaced by the retry interval doubled per ask, up to 2^5 |
| Shadow.DueSame | cmd/migration-monitor/shadow.go:72-84 | what is due for a node does not depend on what the others were asked in the step |
| Shadow.RootsAreFinal | cmd/migration-monitor/shadow.go:81-96 | a reported root is never asked for again and its cell never changes while its block is tracked |

## Left out

- RPC, HTTP, Docker, JSON, log regexes, timestamps and command-line flags: requests become nondeterministic answers, log lines a datatype, nodes and names numbers.
- The pages and reports of the monitor (`blocks`, `segments`, river, clients, summary): they only display what `settle` leaves.
- Gas, memory expansion, balances, EIP-170 code size, precompiles, value transfers and EIP-7702: the interpreter has enough gas, and creation and calls carry no value; an address is derived by an opaque function of creator and nonce.
- `StorageInitCode` and `ExtcodeInitCode`: the first draws random keys, the second adds no composition the others do not have.
- The hammer's other workloads, nonces, fees and statistics.
- Integer widths where nothing depends on them: block numbers, slots and times do not wrap; `zeroizeTurn` is bounded by the largest Go int.
- A segment record is a value in the map, not a shared object; nothing in the source relies on the sharing.
- Whether live lanes are unique (an orphan that revives keeps a lane that may have been given away) and whether a reorg record's segment id still names a segment: both are false of the code and neither is claimed.
- Lineage.Lineage.FreeLane: states which lane is chosen, not that the choice spreads branches well.
- Schedule.Resolve: the resolver's error texts are merged into one cause each, and an op's refusal is a flag; an unknown profile name or class cannot be written in the model.
- Stake shares are reals; rounding of floating point is not modelled.
- The chain does not change during one search for the fork block; which requests fail is arbitrary.
- Driver.Driver.Execute: goroutines, tickers and sub-second times are replaced by one clock that only moves forward at waits and requests. The time limits of the injection (75 seconds for the deploy, 110 for the writes) are not modelled; what the limit cuts short shows as requests that fail. The transactions themselves, their values and their receipts are not part of this model either.
- The judge's waivers, thresholds and reports beyond pairing and attribution; the offline lap's windows.
- The merkle-side display fields of a poll and the texts of findings; a node and hash are a pair in the shape table where the source joins them into one string.
- The verifier's manifest: whether the injected writes and the blocks that held them ended where they should.
- `agreement`, `majorityRoot`, `nextMinority`, `clampDepth`, `resampleQueue`, `splitWatch` and the exporter's gate: single-branch or counting code that would add only easy members.
- The scheduling of goroutines in the job queue beyond interleaving of its steps, and the final Clear after the worker stops.
