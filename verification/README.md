# Supple, modelled and proved in Dafny

Supple draws many samples of m records from n records without revealing which. Its core is a set of recursive routing
networks: an offline phase turns a membership matrix into a packed tape of two-bit gate controls and selection bits,
and an online phase replays the tape on the records. This project models that core and proves what it is for: the
routing network delivers both bags for every length and every tagging that fits; three replay schedules and a direct
generator agree; the samplers put exactly each sample's records in its output slice; the in-place sampler writes and
reads what the copying one does; and the supporting machinery (packed tapes, staged bytes, the compaction network, the
allocation ledger, the permutation sampler, the worker pool) keeps its promises.

A record is a value of any type; a bag is a multiset. Buffers that the program rewrites in place are arrays, and the
objects whose methods change fields are classes. Every such method is tied to a function of the old contents, and the
theorems are about those functions. What the model cannot see is a parameter with a stated contract: the compaction of
records is a permutation that depends on the flags alone and puts selected records first (`Sampling.Compactor`, met by
`OrderedCompaction.NetworkOrder`), the shuffle is any rearrangement, the round function of a sample and the random
coins are arbitrary.

Modules, in the order they build on each other:

- OFR: `Lanes`, `Tags`, `LayerQuotas`, `Routing`, `Normalization`, `TagBits`, `PackedTape`, `Strided`, `Network`,
  `Replay`, `Compaction`
- schedules: `Powers`, `Schedules`, `PostOrder`, `CarryStarts`, `ResidueViews`, `LaneCounters`, `ResidueGates`,
  `QuadPostOrder`, `TiledPostOrder`, `BatchedReplay`, `Conversion`, `PostOrderConversion`
- FFOS_C and FFOS_FR: `Sampling`, `Samplers`, `Delivery`, `ReadPlan`, `PreparedRead`, `CheckedRead`, `StoredRead`,
  `TapeWriter`, `Marking`, `FullSampler`
- FFOS_C_Opt: `PackedBits`, `MarkWords`, `RowBuffers`, `OptPlan`, `OptRead`, `OptWrite`, `OptBuild`
- the rest: `Ledger`, `LedgerTable`, `FeistelPermutation`, `SampleMembership`, `ReplicationScan`, `OrderedCompaction`,
  `StagedBoundary`, `PackedWords`, `WorkerPool`; shared facts about products and about slices laid end to end are
  in `Products` and `Flattening`

`dafny verify dfyconfig.toml` checks the whole project.

## Model

| member | source | states |
|---|---|---|
| Tags.GateConserves | Enclave/SubSample_v2/OFR/OFR.cpp:668-685 | a gate whose top output carries an admissible tag conserves the bag of each side, whether it passes, crosses or copies |
| Tags.GateControlIsForkControl | Enclave/SubSample_v2/OFR/OFR.cpp:550-585 | the layer's branch-free gate formula gives the control the general fork-control function would choose for the same pair and outputs |
| Tags.ControlMeans | Enclave/SubSample_v2/OFR/OFR.cpp:668-685 | a gate passes its records when the top keeps its own tag, crosses them when it takes the other one, and otherwise gives both outputs a copy of the record that has both responsibilities |
| LayerQuotas.QuotaIntervalNonempty | Enclave/SubSample_v2/OFR/OFR.cpp:727-766 | the interval the diagonal quota is clipped to is never empty, for every length, parity, capacity split and last tag |
| LayerQuotas.QuotasFeasible | Enclave/SubSample_v2/OFR/OFR.cpp:727-766 | each of the three quotas lies between zero and the number of pairs it is spent on |
| LayerQuotas.BalancedIsGeneral | Enclave/SubSample_v2/OFR/OFR.cpp:740-766 | the shortcut for lengths divisible by four and equal halves computes the general clipped quotas |
| LayerQuotas.QuotasAreEvenest | Enclave/SubSample_v2/OFR/OFR.cpp:740-770 | of all diagonal quotas whose three quotas the pair counts allow, the chosen one splits the diagonal pairs most evenly, the smaller one on a tie; it fixes the other two |
| LayerQuotas.LayerSplitsExactly | Enclave/SubSample_v2/OFR/OFR.cpp:48-61 | after a layer the even lanes weigh exactly the top capacities and the odd lanes the bottom ones, so both children are exact again |
| Network.LayerChoice | Enclave/SubSample_v2/OFR/OFR.cpp:776-826 | which pairs give a responsibility to the top: shared ones do, absent ones do not, and of the pairs that must choose the first ones up to the quota of their kind |
| Routing.TapeFits | Enclave/SubSample_v2/OFR/OFR.cpp:63-92 | the recursive writer emits exactly the counted number of gates for its shape |
| Routing.ReplayConserves | Enclave/SubSample_v2/OFR/OFR.cpp:134-182 | replaying a written tape conserves both bags and leaves the responsibilities sorted, left lanes first |
| Routing.NetworkRoutes | Enclave/SubSample_v2/OFR/OFR.cpp:98-182 | for every length, capacity pair and exact tagging, replaying the written tape puts exactly the left bag on the first lanes and the right bag on the rest |
| Normalization.FilledIsExact | Enclave/SubSample_v2/OFR/OFR.cpp:611-640 | normalisation makes the weights of any fitting tagging exact by filling zero tags only |
| Normalization.FilledLane | Enclave/SubSample_v2/OFR/OFR.cpp:611-640 | a zero tag gains the left side while fewer zero tags lie before it than the left lacks, then the right side; no other tag changes |
| Normalization.CompactRoutes | Enclave/SubSample_v2/OFR/OFR.cpp:2432-2443 | normalise, control and apply put each side's bag, completed by the zero-tagged records assigned to it, on its own lanes |
| TagBits.GateBytes | Enclave/SubSample_v2/OFR/OFR.cpp:655-685 | the byte arithmetic of a ranked gate computes the tags and the control of the abstract layer |
| Network.OFRNormalizeOwnedInPlace | Enclave/SubSample_v2/OFR/OFR.cpp:611-640 | the in-place filling of tag bytes equals the abstract normalisation, and refuses what does not fit |
| Network.OFRBalanceLayer | Enclave/SubSample_v2/OFR/OFR.cpp:701-829 | one balance layer over a strided view of the tag buffer is the abstract layer, its controls are spliced into the tape, and lanes outside the view keep their tags |
| Network.OFRControlWriteImpl | Enclave/SubSample_v2/OFR/OFR.cpp:98-130 | the in-place recursive writer splices exactly the abstract tape at its position and leaves the view's tags sorted |
| Replay.ApplyOFork | Enclave/SubSample_v2/OFR/helper.cpp:73-140 | a fork gate gives each of the two records one of the two inputs, as its control bits say |
| Replay.OFRApplyStrided | Enclave/SubSample_v2/OFR/OFR.cpp:134-182 | the strided replay of an array view equals the abstract replay for every tape, advances by the gate count and touches no other lane |
| Compaction.OFRControlCountImpl | Enclave/SubSample_v2/OFR/OFR.cpp:63-92 | the count, with its closed form for balanced powers of two, equals the number of gates the writer emits |
| Compaction.BalancedTapeLength | Enclave/SubSample_v2/OFR/OFR.cpp:63-92 | the closed form, half the lanes times their exponent, equals the recursive gate count |
| Powers.PowerTest | Enclave/SubSample_v2/OFR/OFR.cpp:223-227 | the test that decides the balanced layouts accepts exactly the powers of two |
| Compaction.ValidateTags | Enclave/SubSample_v2/OFR/helper.cpp:43-71 | accepts exactly the tag buffers of the right length whose bytes are tags and whose weights fit (or equal) the capacities |
| Compaction.OFRControl | Enclave/SubSample_v2/OFR/OFR.cpp:2052-2067 | returns the tape of the normalised tags exactly when the tags are valid and fit |
| Compaction.OFRCompact | Enclave/SubSample_v2/OFR/OFR.cpp:2432-2443 | the two outputs are the left and the right bag, each completed by the zero-tagged records assigned to it, for every fitting tagging; the input is kept |
| Schedules.DepthFirstIsLevelOrder | Enclave/SubSample_v2/OFR/OFR.cpp:229-253 | depth-first replay of any tape equals running its stages level by level |
| PostOrder.SchedulesAgree | Enclave/SubSample_v2/OFR/OFR.cpp:2086-2137 | depth-first, level-order and postorder replay of any control tape over a power of two of lanes give the same records |
| CarryStarts.PostTapeAt | Enclave/SubSample_v2/OFR/OFR.cpp:1814-1866 | the start of every merge block computed by the carry recurrence is where the postorder tape keeps that block's gates |
| CarryStarts.EveryPosition | Enclave/SubSample_v2/OFR/OFR.cpp:1814-1866 | every position of the postorder tape is one gate of one block, so a generator that visits all blocks fills the tape |
| ResidueViews.StageControls | Enclave/SubSample_v2/OFR/OFR.cpp:1707-1866 | each stage of the written tape holds, for every residue, the controls of that residue's own balance layer |
| TiledPostOrder.OFRControlPostOrderTiledImpl | Enclave/SubSample_v2/OFR/OFR.cpp:1689-1870 | the direct generator, with the tile the working-set budget yields, in whichever branch each stride takes (quads of gates, byte, 16-bit or 32-bit lanes, words), writes exactly the postorder conversion of the depth-first tape, routes the rows as replaying that tape does and sorts the labels |
| TiledPostOrder.GenerateStride | Enclave/SubSample_v2/OFR/OFR.cpp:1736-1868 | one stride, tile after tile, with counters of any width that can count the view: every residue has run its own layer and the tape holds those gates |
| QuadPostOrder.GenerateQuads | Enclave/SubSample_v2/OFR/OFR.cpp:1553-1687 | the short strides, residue after residue and four gates at a time, reach the same state |
| QuadPostOrder.RankQuad | Enclave/SubSample_v2/OFR/OFR.cpp:1583-1640 | four gates chosen together from what remains of the quotas are the four gates of the residue's layer, and the quotas spent are those of the four |
| QuadPostOrder.RemainingFits | Enclave/SubSample_v2/OFR/OFR.cpp:1577-1582 | up to 2^31 - 1 lanes the quotas and what remains of them are signed 32-bit numbers |
| ResidueGates.RankGateOf | Enclave/SubSample_v2/OFR/OFR.cpp:1818-1860 | one gate of one residue, ranked by wrapping lanes or by words, is that gate of the residue's layer; nothing else in the buffers or the tape moves |
| ResidueGates.WithQuotas | Enclave/SubSample_v2/OFR/OFR.cpp:1800-1808 | the quotas computed from counters that wrap are the quotas of the view's layer |
| ResidueGates.PositionsDiffer | Enclave/SubSample_v2/OFR/OFR.cpp:1814-1866 | no two gates of the direct generator share a position of the tape |
| LaneCounters.NarrowTest | Enclave/SubSample_v2/OFR/OFR.cpp:1431-1439 | in a view no longer than a lane has values, the signed comparison of wrapped lanes decides rank below quota as the unbounded test does |
| LaneCounters.PrefixChoice4 | Enclave/SubSample_v2/OFR/OFR.cpp:1520-1529 | two shifted additions rank four gates at once: each is chosen exactly when its rank among the four is below what remains of the quota |
| BatchedReplay.ApplyContiguousGateRun | Enclave/SubSample_v2/OFR/OFR.cpp:341-360 | a run of gates taken four at a time merges two contiguous halves gate by gate |
| BatchedReplay.ApplyPostOrderFourFixed | Enclave/SubSample_v2/OFR/OFR.cpp:382-397 | the unrolled four-lane case equals the postorder replay |
| BatchedReplay.ApplyPostOrderEightFixed | Enclave/SubSample_v2/OFR/OFR.cpp:399-409 | the unrolled eight-lane case equals the postorder replay |
| BatchedReplay.ApplyPostOrderGates | Enclave/SubSample_v2/OFR/OFR.cpp:411-444 | the in-place postorder replay from a cursor equals the abstract one on its slice, advances the cursor by the gate count and touches nothing else |
| BatchedReplay.ApplyLevelOrderedGates | Enclave/SubSample_v2/OFR/OFR.cpp:362-380 | the in-place level-order replay runs the stages of the tape in order |
| Conversion.OFRLevelOrderControls | Enclave/SubSample_v2/OFR/OFR.cpp:2086-2105 | the conversion scatters a depth-first tape into exactly its stages, one after the other |
| PostOrderConversion.BuildDfsControlStarts | Enclave/SubSample_v2/OFR/OFR.cpp:257-273 | records the first gate of every node of a subtree in its own slot and leaves the other slots |
| PostOrderConversion.StartHolds | Enclave/SubSample_v2/OFR/OFR.cpp:255-273 | a node's recorded start plus the block number is where the depth-first tape keeps the stage's gate |
| PostOrderConversion.WritePostOrderFromDfs | Enclave/SubSample_v2/OFR/OFR.cpp:275-297 | gathers one block's postorder tape through the recorded starts into its own stretch of the destination |
| PostOrderConversion.OFRPostOrderControls | Enclave/SubSample_v2/OFR/OFR.cpp:2117-2137 | the conversion of every depth-first tape is the postorder tape of its stages |
| PackedTape.PackedControls.Set | Enclave/SubSample_v2/OFR/PackedControls.hpp:63-71 | writes one two-bit gate and no other; an index past the end or a value above three changes nothing |
| PackedTape.PackedControls.Resize | Enclave/SubSample_v2/OFR/PackedControls.hpp:298-310 | keeps a prefix or appends copies of a value, and the padding is zero again even after shrinking and growing |
| PackedTape.PackedControlCursor.NextUnchecked | Enclave/SubSample_v2/OFR/PackedControls.hpp:204-267 | the cached cursor reads the gates of the tape in order |
| PackedTape.PackedControlCursor.NextFourUnchecked | Enclave/SubSample_v2/OFR/PackedControls.hpp:204-267 | four gates read at once are the next four gates, at any alignment |
| Sampling.CutKeepsSample | Enclave/SubSample_v2/FFOS_C/FFOS_C.cpp:217-275 | dropping unselected records behind a selected-first compaction keeps every sample that only marks selected ones |
| Delivery.GroupBound | Enclave/SubSample_v2/FFOS_C/helper.cpp:343-347 | samples of m rows each mark together at most m rows a sample, so a group never overflows its capacity |
| Delivery.CapacityReached | Enclave/SubSample_v2/FFOS_C/helper.cpp:343-347 | the capacity is the most a group can mark: for every m, n and count some samples of m rows mark exactly that many |
| Delivery.ChildKeepsSamples | Enclave/SubSample_v2/FFOS_C/FFOS_C.cpp:169-275 | filtering a group keeps its samples; projecting membership commutes with compacting it |
| Delivery.ForkFitsWeights | Enclave/SubSample_v2/FFOS_FR/FFOS_FR.cpp:283-400 | at every fork the tag weights fit the capacities, so normalisation never fails |
| Samplers.FrontierAccepted | Enclave/SubSample_v2/FFOS_FR/FFOS_FR.cpp:40-56 | a frontier is accepted exactly when its groups, none empty and each within the input, lie end to end from 0 to k |
| Samplers.PostOrderedShape | Enclave/SubSample_v2/FFOS_FR/FFOS_FR.cpp:259-264 | a prepared fork is stored in postorder exactly when it splits a power of two into equal halves |
| Delivery.FFOS_FRDelivers | Enclave/SubSample_v2/FFOS_FR/FFOS_FR.cpp:283-501 | for every frontier, compaction and layout, writing succeeds, fills exactly the counted tapes, and reading puts in output slice j the m records of sample j |
| Delivery.FFOS_CDelivers | Enclave/SubSample_v2/FFOS_C/FFOS_C.cpp:151-275 | the same for FFOS_C: count, write and read agree, and slice j is exactly sample j |
| TapeWriter.WriteForkNode | Enclave/SubSample_v2/FFOS_FR/FFOS_FR.cpp:301-374 | a fork's controls are written in its layout from its start on and its rows are routed by them exactly when its weights fit and the tape has room; otherwise the tape is unchanged |
| TapeWriter.FFOS_FRControlWrite | Enclave/SubSample_v2/FFOS_FR/FFOS_FR.cpp:814-825 | from any start on both packed tapes the serial write succeeds exactly when every fork's weights fit and the tapes have room; it then holds the functional tapes, ends where the count says, has recorded the plan, and in no case touches a bit or gate outside the counted stretch |
| ReadPlan.PreflightExact | Enclave/SubSample_v2/FFOS_FR/FFOS_FR.cpp:503-560 | the preflight accepts exactly the controls whose tapes have room for what is counted and whose plan records the expected nodes, in any mix of admissible layouts, and it ends where the counts say |
| ReadPlan.MatchingNodes | Enclave/SubSample_v2/FFOS_FR/FFOS_FR.cpp:523-536 | exactly these plan nodes are accepted for a fork: its own in plain layout and, where it splits a power of two into equal halves, its own in postorder |
| ReadPlan.SpanHasBits | Enclave/SubSample_v2/FFOS_C/helper.cpp:371-380 | a span passes the byte check exactly when the bytes have a bit for each of its bits |
| ReadPlan.WrittenPlanAccepted | Enclave/SubSample_v2/FFOS_FR/FFOS_FR.cpp:220-278 | controls sized by the count and planned by the writer are accepted and consumed to the end |
| PreparedRead.ReadPreparedForkTreeInPlace | Enclave/SubSample_v2/FFOS_FR/FFOS_FR.cpp:562-611 | the in-place read of a fork subtree succeeds exactly when its local checks do, each node routed in the layout its own plan node names; its slices, position and plan index are those of the checked read, and nothing outside its slice changes |
| PreparedRead.MatchedForkReads | Enclave/SubSample_v2/FFOS_FR/FFOS_FR.cpp:565-611 | a plan that matches, in whatever layout each node is recorded, is read without a failing check and ends where count and plan say |
| PreparedRead.WrittenForkReads | Enclave/SubSample_v2/FFOS_FR/FFOS_FR.cpp:565-611 | the writer's own plan is read into exactly the slices of the copying read |
| CheckedRead.AcceptedReadSucceeds | Enclave/SubSample_v2/FFOS_FR/FFOS_FR.cpp:613-724 | what the preflight accepts is read from any start position without a failing length, plan or capacity check, puts out m records a sample, and ends where the preflight ended |
| StoredRead.ReadDecidedUpFront | Enclave/SubSample_v2/FFOS_FR/FFOS_FR.cpp:835-875 | the public read succeeds exactly when its dimensions, capacity, preflight and plan length pass; no later check can fail |
| StoredRead.StoredControlsAreRead | Enclave/SubSample_v2/FFOS_FR/FFOS_FR.cpp:835-875 | the writer's stored controls are read to the end and put out what the functional read returns |
| StoredRead.StoredControlsDeliver | Enclave/SubSample_v2/FFOS_FR/FFOS_FR.cpp:728-875 | end to end: written, stored in either layout and read through every check, output slice j holds exactly the m records of sample j |
| FullSampler.FFOS_FRControl | Enclave/SubSample_v2/FFOS_FR/FFOS_FR.cpp:728-776 | the packed tapes written from position zero, sized by the count, are the functional writer's store; building fails exactly on wrong dimensions, a bad frontier or a fork whose weights do not fit |
| FullSampler.BuiltControlsServe | Enclave/SubSample_v2/FFOS_FR/FFOS_FR.cpp:778-885 | built controls pass every length and consumption check and serve each sample in its own slice |
| FullSampler.ApplyDecided | Enclave/SubSample_v2/FFOS_FR/FFOS_FR.cpp:776-803 | controls are applied exactly when dimensions and frontier pass, both tapes have exactly the counted size and the plan, where there is one, records exactly the counted nodes |
| FullSampler.FFOS_FR | Enclave/SubSample_v2/FFOS_FR/FFOS_FR.cpp:887-909 | from the coins to the output: below 2^32 records a sample, slice j holds exactly the m records that sample j's own coins mark, each by comparing its coin with the share still to be marked |
| Marking.ExactForEveryCoin | Enclave/SubSample_v2/FFOS_C/FFOS_C.cpp:33-94 | a column is marked exactly m times for every coin sequence if and only if m is below 2^32 |
| Marking.CoinDecides | Enclave/SubSample_v2/FFOS_C/FFOS_C.cpp:80-84 | a coin marks its row exactly when the coin plus one, times the rows that remain, is at most the marks that are left (modulo 2^32) times 2^32 |
| Marking.RowDecided | Enclave/SubSample_v2/FFOS_C/FFOS_C.cpp:60-94 | every row of a column is decided by its own coin, the rows from it on and the marks not spent before it |
| Marking.FFOS_CMark | Enclave/SubSample_v2/FFOS_C/FFOS_C.cpp:33-94 | in every row of each of the k columns the row's own coin decides, against the rows from it on and the marks its column has left; exact below 2^32 marks |
| Marking.MarkGen | Enclave/SubSample/SubSample.cpp:361-403 | every row is marked exactly when its own coin times the rows from it on reaches, in 64-bit arithmetic, the rows that may stay unmarked as 32 bits hold them, times 2^32; exactly min(m, n) rows while fewer than 2^32 stay unmarked |
| Marking.SmallScale | Enclave/SubSample/SubSample.cpp:393-395 | below 2^32 rows nothing is cut: a coin marks exactly when coin times remaining rows is at least the rows that may stay unmarked times 2^32 |
| Marking.ScaledMarkingExact | Enclave/SubSample/SubSample.cpp:361-403 | that marking is exact for every coin sequence if and only if fewer than 2^32 rows stay unmarked |
| Marking.FewestGroups | Enclave/SubSample_v2/FFOS_C/FFOS_C.cpp:96-118 | no cover of the samples by groups of at most the limit has fewer groups |
| Marking.FFOS_CFrontier | Enclave/SubSample_v2/FFOS_C/FFOS_C.cpp:96-118 | the frontier covers the samples by the fewest consecutive groups that fit the input, larger groups first and none more than one above another |
| PackedBits.UnpackControlBitsToBoolArray | Enclave/SubSample_v2/FFOS_C/helper.cpp:87-147 | unpacks exactly the bits of the span, at any bit offset, with its head, whole-byte and tail cases |
| MarkWords.ProjectMarkSlice | Enclave/SubSample_v2/FFOS_C/helper.cpp:149-183 | the word-shifting projection writes exactly the samples of a slice, also when it overwrites its own source row |
| MarkWords.OneWordRow | Enclave/SubSample_v2/FFOS_C/helper.cpp:185-210 | the one-word projection agrees with the general one |
| MarkWords.HasMembership | Enclave/SubSample_v2/FFOS_FR/FFOS_FR.cpp:70-84 | whether a row marks any sample of a group, one projected word at a time |
| MarkWords.OneWordTagIsForkTag | Enclave/SubSample_v2/FFOS_FR/FFOS_FR.cpp:112-161 | the one-word tag of a row says whether each half of its samples is marked |
| OptPlan.OptControls.AddNode | Enclave/SubSample_v2/FFOS_C_Opt/FFOS_C_Opt.cpp:43-58 | appends the canonical plan of a group in preorder and advances the tape position by its bits |
| OptPlan.ValidateNodeExact | Enclave/SubSample_v2/FFOS_C_Opt/FFOS_C_Opt.cpp:210-228 | validation accepts exactly the canonical plan of a group |
| OptPlan.AcceptedRoots | Enclave/SubSample_v2/FFOS_C_Opt/FFOS_C_Opt.cpp:229-245 | accepted controls have roots that cover the samples, each with its canonical plan, their bits one after the other |
| OptPlan.ValidateExact | Enclave/SubSample_v2/FFOS_C_Opt/FFOS_C_Opt.cpp:229-246 | controls are accepted exactly when their roots cover the samples one after the other, each with its canonical plan, no node is left over and the bits of the plan fill the tape up to its last byte |
| OptRead.ReadPair | Enclave/SubSample_v2/FFOS_C_Opt/FFOS_C_Opt.cpp:257-277 | two groups served in their own output slice with one shared backup, dead at every recursive call, yield the copying sampler's slices |
| OptRead.FFOS_C_OptControlRead | Enclave/SubSample_v2/FFOS_C_Opt/FFOS_C_Opt.cpp:283-332 | for every accepted plan and tape the output is that of FFOS_C over the same tape, and the backup allocated is always large enough |
| OptWrite.NarrowRows | Enclave/SubSample_v2/FFOS_C_Opt/FFOS_C_Opt.cpp:78-110 | narrowing rows forward in place never reads an overwritten word, and the flags and tape bits are those of the projected rows |
| OptWrite.WritePair | Enclave/SubSample_v2/FFOS_C_Opt/FFOS_C_Opt.cpp:111-146 | siblings written before descendants fill exactly their own stretches of the FFOS_C tape |
| OptBuild.FFOS_C_OptControl | Enclave/SubSample_v2/FFOS_C_Opt/FFOS_C_Opt.cpp:148-208 | the tape built in place, on a copy or on a membership the caller gives up, is bit for bit the FFOS_C tape of the same membership, with the canonical plan and exactly the counted bits |
| Ledger.StepSane | Enclave/MemoryProfile.cpp:44-187 | every event keeps the ledger's invariant: totals in range, at most half the slots used, active peaks above their totals |
| Ledger.PeakIsExact | Enclave/MemoryProfile.cpp:44-187 | over every run with a phase open, the phase's peak is exactly the largest total it reached, counting the overlap of reallocations |
| Ledger.OfflineReport | Enclave/MemoryProfile.cpp:125-144 | after any events while the phase stays open, the offline peak is exactly the largest offline total reached since it began |
| Ledger.OnlineReport | Enclave/MemoryProfile.cpp:145-164 | the same for an online phase, from the total at its begin |
| Ledger.RoundReport | Enclave/MemoryProfile.cpp:116-124 | a round's peak is exactly the largest total since its begin, blocks that outlive the last round included |
| Ledger.StepLive | Enclave/MemoryProfile.cpp:55-95 | what each event does to the block at each pointer: a free takes its own block in or out of a round, a recordable allocation in a round places its bytes with the offline tag of the moment, a reallocation moves its block and hands its tag on; every other block is untouched |
| Ledger.FreeLive | Enclave/MemoryProfile.cpp:209-215 | a free takes exactly its own block away, in a round or out of one |
| Ledger.MovedLive | Enclave/MemoryProfile.cpp:216-238 | a reallocation takes its block away and puts its result in when it fits beside the other blocks, with the tag it inherits |
| Ledger.RunLive | Enclave/MemoryProfile.cpp:55-95 | after any run a block is live at p exactly when the last event with an effect on p placed it, or none had one and it was live before |
| Ledger.StepFlags | Enclave/MemoryProfile.cpp:55-187 | which events spoil a measurement, open and close a round, and open and close a phase, each exactly |
| Ledger.RunBroken | Enclave/MemoryProfile.cpp:166-187 | after any run the ledger is broken exactly when it was before or some event spoiled it, however many rounds ago |
| LedgerTable.Tracker.Find | Enclave/MemoryProfile.cpp:38-43 | the probe ends for every hash function and finds the pointer's slot or the empty slot where it belongs |
| LedgerTable.Tracker.Add | Enclave/MemoryProfile.cpp:55-75 | the table refines adding a block to a map, with its failure cases |
| LedgerTable.Tracker.Remove | Enclave/MemoryProfile.cpp:76-95 | backward-shift deletion removes exactly one block and keeps every other reachable |
| LedgerTable.Tracker.Realloc | Enclave/MemoryProfile.cpp:216-238 | the bookkeeping of a reallocation refines the map's, with the moment both blocks are live |
| FeistelPermutation.FeistelOneToOne | Enclave/Baseline/SWO/PSQF_SWO.hpp:126-149 | for every round function the four unbalanced rounds are a bijection of [0, a*b) |
| FeistelPermutation.InverseUndoes | Enclave/Baseline/SWO/PSQF_SWO.hpp:126-149 | the inverse network, with the rounds taken back in the order 3, 2, 1, 0, and the four rounds undo each other on all of [0, a*b) |
| FeistelPermutation.LandingIsLead | Enclave/Baseline/SWO/PSQF_SWO.hpp:151-168 | cycle walking ends at z exactly when a path of inverse rounds leads from the start to z with every point between at or above n |
| FeistelPermutation.LandingInjective | Enclave/Baseline/SWO/PSQF_SWO.hpp:151-168 | cycle walking from distinct points below n lands on distinct points below n |
| FeistelPermutation.CycleWalk | Enclave/Baseline/SWO/PSQF_SWO.hpp:151-168 | the walk ends, at the first iterate below n |
| SampleMembership.IntegerSqrt | Enclave/Baseline/SWO/PSQF_SWO.hpp:101-110 | Newton's iteration returns the floor of the root |
| SampleMembership.SWO.Initialize | Enclave/Baseline/SWO/PSQF_SWO.hpp:39-72 | m, k and the sides: the least square side that covers n, and columns that cover n with less than one side to spare |
| SampleMembership.SWO.NetworkInverse | Enclave/Baseline/SWO/PSQF_SWO.hpp:151-157 | the network of a sample is undone by the inverse rounds of that sample's own round function |
| SampleMembership.SWO.SampleMember | Enclave/Baseline/SWO/PSQF_SWO.hpp:73-86 | a key is a member exactly when its permuted position is below m; out of range it is not |
| SampleMembership.SWO.MemberLeads | Enclave/Baseline/SWO/PSQF_SWO.hpp:73-86 | a key belongs to a sample exactly when its path under that sample's own inverse network first comes back below n at a point below m |
| SampleMembership.SWO.ExactMembers | Enclave/Baseline/SWO/PSQF_SWO.hpp:73-86 | every sample has exactly m members, for every round function |
| ReplicationScan.Replicate | Enclave/Baseline/SWO/PSQF_SWO.cpp:164-194 | the scan emits exactly n tuples: each comes from a member key of its own sample and holds that key's record, every sample has the records of all its member keys in key order, and no two keys share a record |
| ReplicationScan.PairHasTuple | Enclave/Baseline/SWO/PSQF_SWO.cpp:164-194 | every pair of a sample and one of its member keys has its tuple |
| ReplicationScan.Group | Enclave/Baseline/SWO/PSQF_SWO.cpp:201-221 | grouping shuffled tuples drops none and puts each sample's records in its own slots |
| ReplicationScan.PSQF_SWO | Enclave/Baseline/SWO/PSQF_SWO.cpp:78-240 | after any shuffle slice s holds exactly the m records, all distinct, of the keys that belong to sample s under its own round function; when m does not divide n there is one sample of all records; an empty data set or request yields nothing |
| OrderedCompaction.ComparatorStep | Enclave/ORCompaction/OP_TightCompaction.hpp:190-229 | a comparator moves at most one real record and never onto another |
| OrderedCompaction.NetworkEnds | Enclave/ORCompaction/OP_TightCompaction.hpp:103-116 | after the last level every shift is spent and the selected records lead in their original order |
| OrderedCompaction.MasksFit | Enclave/ORCompaction/OP_TightCompaction.hpp:190-206 | all level masks fit a 32-bit int exactly when there are at most 2^31 records |
| OrderedCompaction.Compactor.TightCompact | Enclave/ORCompaction/OP_TightCompaction.hpp:103-116 | up to 2^31 records, any selection: the records are moved by the network's order, selected records first in their original order, none lost, and all distances zero again |
| OrderedCompaction.NetworkByOrder | Enclave/ORCompaction/OP_TightCompaction.hpp:200-229 | the network moves records of any kind by one order, a function of the flags alone |
| OrderedCompaction.NetworkOrderCompacts | Enclave/ORCompaction/OP_TightCompaction.hpp:103-116 | the network's order meets the contract every sampler theorem asks of a compaction |
| StagedBoundary.StepTracks | Enclave/SubSample_v2/PackedBoundary.hpp:9-41 | one writer's read-modify-write or commit keeps every bit that its owner has written and every bit outside all spans |
| StagedBoundary.StagedIsSerial | Enclave/SubSample_v2/PackedBoundary.hpp:9-41 | disjoint spans written through staged bytes, in any interleaving and committed in any order, leave the tape that serial writing leaves |
| StagedBoundary.ParallelBits | Enclave/SubSample_v2/PackedBoundary.hpp:9-41 | once all have committed, a bit holds its owner's last write to it, and a bit nobody owns what it held before |
| StagedBoundary.ScheduleIndependent | Enclave/SubSample_v2/PackedBoundary.hpp:7-8 | any two interleavings of the same writers leave the same bytes |
| StagedBoundary.PackedBoundary.Write | Enclave/SubSample_v2/PackedBoundary.hpp:32-36 | a write to a staged byte stays in the boundary, any other goes to the tape |
| PackedWords.SetFourEncoded | Enclave/SubSample_v2/OFR/PackedControls.hpp:75-95 | writing four encoded gates equals four single writes, across byte boundaries |
| PackedWords.SetTwoEncoded | Enclave/SubSample_v2/OFR/PackedControls.hpp:96-118 | writing two encoded gates equals two single writes |
| PackedWords.SetEightEncoded | Enclave/SubSample_v2/OFR/PackedControls.hpp:119-140 | writing eight encoded gates equals eight single writes |
| PackedWords.SetSixteenEncoded | Enclave/SubSample_v2/OFR/PackedControls.hpp:141-163 | writing sixteen encoded gates equals sixteen single writes |
| PackedWords.CopyFrom | Enclave/SubSample_v2/OFR/PackedControls.hpp:338-347 | copying a span of gates, also onto itself in either direction, writes the source's original gates |
| PackedWords.CanonicalBytes | Enclave/SubSample_v2/OFR/PackedControls.hpp:348-350 | comparing counts and bytes compares the gates: padding never tells equal tapes apart |
| WorkerPool.JoinKeeps | Enclave/ThreadPool.cpp:137-158 | a join that passes reports its own branch's finished outcome and gate count |
| WorkerPool.PoolRunsJob | Enclave/ThreadPool.cpp:37-77 | in every interleaving of nested forks on disjoint workers no dispatch finds a busy worker, the caller counts exactly the gates of all branches once, throws exactly when the job does, and leaves every worker idle |
| WorkerPool.PoolCountsGates | Enclave/ThreadPool.cpp:37-77 | in every interleaving a job without failing work counts all its gates, and the caller throws exactly when some work of the job fails |
| WorkerPool.PoolMoves | Enclave/ThreadPool.cpp:121-158 | while the caller is not done some thread can move, and every move shrinks what is left to do |

## Findings

- `Marking.ExactForEveryCoin`: `FFOS_CMark` shifts the marks that are left up by 32 bits in a 64-bit word; the marking
  is exact for every coin sequence if and only if m is below 2^32. `Marking.WrappedColumn` gives the column that ends
  short otherwise.
- `OP_TightCompaction.hpp:206` masks with `1 << (level+1)-1`, which by C precedence is `1 << level`: the single bit,
  not the low bits its layout suggests. The network is right with the single bit, because lower bits are already
  spent.
- `Marking.ScaledMarkingExact`: `markGen` cuts the number of rows that may stay unmarked to 32 bits; the marking is
  exact for every coin sequence if and only if that number is below 2^32. `Marking.ZeroColumn` gives the count that
  zero coins mark otherwise.
- `OP_TightCompaction.hpp:160` negates a callback named for real blocks; the callbacks (`Enclave/utils.cpp:661-674`)
  answer 1 for the dummy label, so only the name is inverted. The model takes the flag list overload.

## Left out

- Enclave plumbing, encryption, key loading, clocks, profiling times, the Makefiles and the Python drivers: foreign
  calls and input or output.
- The parallel planner and reader (`ParallelPlan.tcc`, `ParallelRead.tcc`): those files are not part of this model;
  the boundary bytes and the pool they rely on are.
- `TightCompact_v2`, the recursive shuffle and the pseudo-random function: parameters with a contract.
- `RecSampling`, `subSampleMulti` and the pair of functions for one sample: they skip filtering or share flag scratch,
  so they would need claims the code does not decide.
- Size overflow checks on `size_t`, allocation failure and workspace reuse: lengths are unbounded naturals unless a
  property is about a bound.
- The power-of-two test is by halving instead of `n & (n - 1)`.
- TiledPostOrder.OFRControlPostOrderTiledImpl: the lanes of a vector run one after the other, and vector loads, stores
  and packing instructions are not modelled; the counters of the word branch are unbounded.
- QuadPostOrder.RankQuad: the four gates are chosen together and stored gate by gate, each with its control, rows and
  tags, while the program stores the four controls before the rows and the rows before the tags; at stride one it also
  writes the controls in pairs, which `PackedWords.SetTwoEncoded` equates with single writes.
- TapeWriter.FFOS_FRControlWrite: membership rows are values; their in-place projection and compaction is modelled in
  `MarkWords` and `OptWrite`. A postordered node is generated on a tape of its own and then copied to its place.
- FullSampler.FFOS_FR: from 2^32 marks a sample on, where the marking may wrap, nothing is claimed of the output; the
  parallel backend and the encrypted entry points around it are not modelled.
- WorkerPool.PoolRunsJob: condition variables are modelled as steps that are blocked until the state allows them;
  start-up, shutdown and the message text are not modelled.
- Obliviousness and the quality of randomness: side-channel and probabilistic claims.
