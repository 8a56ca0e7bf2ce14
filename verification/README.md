# Verified models of the parameter server's hard parts

A Dafny model of six components of the Multiverso parameter server and its applications, with proofs
about all inputs, all runs and any number of machines or workers. `dafny verify dfyconfig.toml` checks
everything.

- **All-reduce** (`Sequences`, `Topology`, `Buffers`, `Reduction`, `HalvingInvariant`, `ReduceScatter`, `Allgather`,
  `AllreduceEngine`). The engines of all ranks are one object; row r of a buffer array belongs to rank r.
  A round takes all messages from the senders' buffers before any rank receives. Sizes are counted in
  elements of one type, buffer capacities too. Reductions work in place in the input rows.
- **Sync server** (`VectorClocks`, `SyncWorkload`, `SyncServer`, `SyncInvariant`, `SyncSteps`,
  `SyncHandlers`, `SyncFinish`, `SyncRuns`). The class's handlers are proved equal to functions on its state;
  the theorems are about runs of these functions. The tables are represented by the log of adds applied to them. All
  workers follow one word of adds and gets, and a worker sends nothing after a get until it is answered. It may
  finish between two rounds, each round being adds and then gets, and wherever else the exact condition below
  allows it. A failing check, or a counter pushed beyond INT_MAX, clears the flag `ok`.
- **Huffman encoder** (`Sums`, `PrefixCodes`, `GreedyMerging`, `HuffmanTree`, `HuffmanCodes`,
  `HuffmanLabels`, `HuffmanEncoder`). Optimality is proved against every prefix-free code for the words, through
  the Kraft inequality scaled to integers. The requirements are weaker than a total below 1e15: every
  frequency positive and below 1e15, and a total that fits 64 bits. With fewer than two words an assert fails.
- **Hopscotch hash** (`Capacity`, `HopscotchTable`, `HopscotchSteps`, `Hopscotch`). One array of buckets, changed in
  place, stands for a map. The table invariant is stated for any hash function; the class uses the key modulo
  the capacity. Bucket numbers stand for pointers, -1 for the null pointer, and 8-bit offsets are reduced
  modulo 256 where the code casts.
- **Sharded and sparse matrix** (`RowRanges`, `MatrixModel`, `MatrixTable`, `ShardedMatrix`, `MatrixRuns`,
  `MatrixAsync`, `SparseMirror`, `SparseRuns`, `SparseCluster`). Rows are the unit of data and an updater is any function of a stored row
  and a delta; the default `+=` is one. The order in which servers are reached is a parameter, and every order is
  covered. The worker classes of `matrix_table.cpp` and `matrix.cpp` are one class here.
- **Sparse compression filter** (`SparseFilter`). Cells are indices or real values of equal width.

What the proofs brought to light in the code:

- `Insert` of the hopscotch table loses keys: when the home's chain is not empty but starts behind the
  chosen slot, lines 309-311 of `hopscotch_hash.h` make the new element the whole chain. `PlaceKeeps` shows
  that this is the only way to go wrong, `InsertLosesAKey` gives a table, and `FourLessOneIsReached` how it
  comes about: inserting 0, 256, 512 and 1, removing 512 and inserting 257 makes key 1 unreachable. Hops never
  touch the chain of the new key's home, so the case is a condition on the table before the call (`StartsBehind`).
- It happens without any removal, too: 33 insertions lead to a table (`CrowdedIsReached`) in which one more key of
  home 1 makes another element hop away, takes its slot and cuts off thirty keys (`DisplacementLosesKeys`). In a table
  built by insertions only, an element that finds a free slot without a hop cuts off nothing (`DenseIsSafe`).
- The sparse filter does not restore a list of one blob: without an option blob the check on the number of
  blobs fails, with one the blob comes back twice.
- A worker that is not waiting for an answer may finish, at whatever point of the word, exactly if none of its
  adds is waiting and retiring it does not complete the get clock while a get waits or while the waiting adds
  would complete the add clock (`FinishExactly`). Otherwise either a check at lines 203 to 209 of `server.cpp`
  fails at once (`FinishWithNothingWaiting`), or its adds are stranded in the cache and the first of them to be
  applied pushes its clock beyond INT_MAX (`FinishStrandsAdds`, `StrandedAddFails`; `FinishAfterAddOverflows` is a
  run). The comment at lines 61-67 asks all workers for the same number of requests; whole rounds suffice
  (`BoundaryIsSafe`).
- A row-list get with a repeated row fills only the last place that asks for it, and a row-list add
  with repeated rows fails the check at line 407 of `matrix_table.cpp` exactly if some server is asked for more
  rows than it has (`RepeatedRowsMayFail`).
- A sparse row-list get of a worker with a number is answered with rows it did not ask for exactly if none of the
  listed rows is outdated and the server's first row is not listed (`ListedGetIsAsked`, `UnaskedRowIsSent`). If the
  rows go to a buffer other than the worker's copy of the table, its flags stay true of every copy they were true of
  exactly if the server finds none of the listed rows outdated (`ListedGetIsHarmless`).
- Adds that reach different servers in different orders end in one flat matrix whatever the table and the
  requests, exactly if the updater's deltas commute (`OrderIsFreeExactly`, `ServersConverge`).
- The Huffman builder's sorting order is one exactly if no frequency is 0. Its asserts hold exactly if there are
  at least two words: with one, the assert at line 162 of `huffman_encoder.cpp` fails, with none the one at line 119,
  because `vocab_size - 1` wraps (`BuildTree`).

## Model

| member | source | states |
|---|---|---|
| `AllreduceEngine.AllreduceEngine.Allreduce` | src/net/allreduce_engine.cpp:31-54 | for every number of machines and every input, each rank's output is the elementwise reduction of all ranks' original inputs; associativity and commutativity are needed on the large-data path only, and there, on more than one machine, an output apart from the input; a call leaves the engine ready for the next; below 4096 bytes, or with fewer elements than machines, the input stays, otherwise the gather buffer does |
| `AllreduceEngine.AllreduceEngine.AllreduceByAllGather` | src/net/allreduce_engine.cpp:57-77 | on the small-data path all ranks compute the same left fold of the inputs in rank order, for any reducer, in place too; an input that is not the output is unchanged |
| `AllreduceEngine.AllreduceEngine.AllgatherEqual` | src/net/allreduce_engine.cpp:79-88 | equal contributions: every rank ends with all inputs in rank order, input i at i times the size |
| `AllreduceEngine.AllreduceEngine.constructor` | src/net/allreduce_engine.cpp:13-23 | the maps of all ranks fit together and every rank has its buffer |
| `AllreduceEngine.AssignBlocks` | src/net/allreduce_engine.cpp:39-49 | the blocks are consecutive, start at 0 and end at the end of the data; each has ceil(count / n) elements until the data ends, and none has more |
| `AllreduceEngine.AssignEqualBlocks` | src/net/allreduce_engine.cpp:59-65 | block i is input i in a buffer of all inputs |
| `AllreduceEngine.ReduceRow` | src/net/allreduce_engine.cpp:73-76 | folding the gathered inputs into the first one leaves the left fold of all of them at the front of the buffer |
| `AllreduceEngine.AccumulateOneMore` | src/net/allreduce_engine.cpp:73-75 | one more reduction extends the fold and leaves the inputs still to come untouched |
| `Allgather.GatherBlocks` | src/net/allreduce_engine.cpp:90-117 | whatever the block lengths, every rank ends with all blocks in rank order; the send buffer may be the receive buffer |
| `Allgather.BruckRound` | src/net/allreduce_engine.cpp:94-112 | before the round each rank holds the blocks of the ranks from its own on, cyclically; the round appends those of the sender, as many as expected, and they fit |
| `Allgather.RoundMatches` | src/net/allreduce_topo.cpp:28-35 | in every round the rank I receive from is sending to me |
| `Allgather.RotateRight` | src/net/allreduce_engine.cpp:113-116 | the three reversals bring every rank's rotated blocks into rank order |
| `Allgather.RoundsReachAll` | src/net/allreduce_engine.cpp:95-111 | after the last of ceil(log2 n) rounds exactly n blocks have been gathered, and before each earlier one a power of two |
| `Buffers.ThreeReversalsRotate` | src/net/allreduce_engine.cpp:113-116 | reversing the whole and then both parts exchanges the parts |
| `Buffers.CatRotation` | src/net/allreduce_engine.cpp:98-109 | all blocks counted from any rank on are a rotation of all blocks in rank order |
| `Topology.ConstructBruckMap` | src/net/allreduce_topo.cpp:20-37 | as many rounds as ceil(log2 n), and in round j the partners at distance 2^j |
| `Topology.BruckRanksMatch` | src/net/allreduce_topo.cpp:28-35 | if I receive from s in round j, then s sends to me in round j |
| `Topology.ConstructHalvingMap` | src/net/allreduce_topo.cpp:58-168 | for every n: type, pair neighbour and all rounds of a rank, each round keeping and receiving the half of the common segment that the rank's group lies in and sending the partner's half |
| `Topology.MapsAgree` | src/net/allreduce_topo.cpp:73-86 | partnering is mutual in every round, my send segment is my partner's receive segment, and the two halves make up the segment both kept in the round before |
| `Topology.LeaderFacts` | src/net/allreduce_topo.cpp:101-131 | there are 2^k groups of one or two ranks; a group's blocks start at its leader's rank, and its number is found from its members |
| `Topology.GroupFacts` | src/net/allreduce_topo.cpp:101-126 | every rank lies in exactly one group, and its type says its place in it |
| `Topology.CountGroups` | src/net/allreduce_topo.cpp:109-131 | the counting loops compute leader, members, first block and number of blocks of every group |
| `Topology.NodeTypes` | src/net/allreduce_topo.cpp:97-108 | the last 2 * rest ranks are marked as pairs of a leader and its follower |
| `Topology.FloorLog` | src/net/allreduce_topo.cpp:60-63 | the greatest k with 2^k at most n |
| `Topology.StepsForGroups` | src/net/allreduce_topo.cpp:142-165 | all rounds of a leader when groups may have two members |
| `Topology.StepsForPowerOfTwo` | src/net/allreduce_topo.cpp:73-87 | all rounds of a rank when n is a power of two |
| `DivMod.PartnerFacts` | src/net/allreduce_topo.cpp:75-85 | the partner of my partner is me, and we lie in opposite halves of the same segment |
| `Reduction.FoldUnion` | src/net/allreduce_engine.cpp:151-153 | reducing two disjoint sets of ranks apart and then together is reducing their union |
| `ReduceScatter.ReduceAndScatter` | src/net/allreduce_engine.cpp:120-172 | every rank (single, leader or follower) ends with its own block reduced over all ranks, also when n is not a power of two |
| `ReduceScatter.PairUp` | src/net/allreduce_engine.cpp:122-135 | after pairing, a leader of two holds its follower's data reduced into its own, all others their own |
| `ReduceScatter.PairingHolds` | src/net/allreduce_engine.cpp:122-135 | the halving invariant holds before the first round |
| `ReduceScatter.HalvingRound` | src/net/allreduce_engine.cpp:139-157 | one round takes the invariant from segments of 2d groups to segments of d groups for all leaders at once |
| `HalvingInvariant.ExchangeKeeps` | src/net/allreduce_engine.cpp:151-156 | one exchange: on the kept half, the reduction over the groups congruent to mine modulo 2d becomes the reduction over those congruent modulo d |
| `HalvingInvariant.LastRoundReduces` | src/net/allreduce_engine.cpp:139-158 | at distance 1 a leader holds its group's blocks reduced over everybody |
| `HalvingInvariant.SegNests` | src/net/allreduce_topo.cpp:78-85 | the half I keep lies within the segment I share with my partner |
| `ReduceScatter.MessageFits` | src/net/allreduce_engine.cpp:140-156 | my partner's message has the length I expect, and reducing it into the elements I keep establishes the invariant for the next round |
| `ReduceScatter.Distribute` | src/net/allreduce_engine.cpp:158-171 | the leader's result reaches its follower, and every rank's block stands at the front of its output |
| `ReduceScatter.CutJoins` | src/net/allreduce_engine.cpp:38-53 | a vector cut into its blocks is the blocks one after the other |
| `VectorClocks.VectorClock.Update` | src/server.cpp:87-97 | counts one request; true exactly if the global clock moved and nobody who is still running is ahead of it |
| `VectorClocks.VectorClock.FinishTrain` | src/server.cpp:99-108 | the worker leaves; the global clock jumps to the minimum of the others, with the same return value |
| `VectorClocks.VectorClock.MaxElement` | src/server.cpp:125-131 | equals the global clock exactly if no running worker is ahead |
| `VectorClocks.TickKeepsStep` | src/server.cpp:87-97 | the global clock stays the minimum of the local ones and moves by at most one |
| `SyncServer.SyncServer.ProcessAdd` | src/server.cpp:141-163 | the handler with its drain loop is the function OnAdd of the server's state |
| `SyncServer.SyncServer.ProcessGet` | src/server.cpp:165-188 | the handler with its drain loop is the function OnGet of the server's state |
| `SyncServer.SyncServer.ProcessFinishTrain` | src/server.cpp:190-213 | the handler with both drain loops is the function OnFinish of the server's state |
| `SyncWorkload.DueAtGet` | src/server.cpp:63-67 | the number of adds due at a get is the number of adds before it in the word |
| `SyncHandlers.AddTaken` | src/server.cpp:150-163 | an add that is not held back keeps the invariant, answers to waiting gets included |
| `SyncHandlers.AddMeetsNobodyAhead` | src/server.cpp:144-154 | an add that is not held back finds no add waiting and all running workers at the same get |
| `SyncHandlers.GetTaken` | src/server.cpp:176-187 | a get that is answered at once keeps the invariant, waiting adds included |
| `SyncHandlers.DrainGetsKeeps` | src/server.cpp:155-161 | answering all waiting gets keeps the invariant, raises no global clock and fails no check |
| `SyncHandlers.DrainAddsKeeps` | src/server.cpp:179-186 | applying all waiting adds keeps the invariant, raises no global clock, fails no check and clears the counters |
| `SyncFinish.FinishExactly` | src/server.cpp:190-213 | at any point of the word: a finish keeps the invariant if and only if none of the worker's adds waits and retiring it does not complete the get clock while a get waits or while the waiting adds would complete the add clock |
| `SyncFinish.FinishWithNothingWaiting` | src/server.cpp:202-209 | with none of the finisher's adds waiting, a check fails at once exactly where that guard fails |
| `SyncFinish.FinishStrandsAdds` | src/server.cpp:99-108 | with an add of the finisher waiting, nothing is drained: only the two clocks are retired, and the add stays in the cache |
| `SyncFinish.StrandedAddFails` | src/server.cpp:87-97 | once the waiting adds are applied, a stranded one among them has cleared ok |
| `SyncFinish.DrainAddsExactly` | src/server.cpp:204-210 | applying all waiting adds keeps the core invariant, and a check fails exactly if some first part of them completes a round of adds |
| `SyncFinish.BoundaryIsSafe` | src/server.cpp:61-67 | between two rounds a worker may always finish |
| `SyncFinish.NobodyPassesFinisher` | src/server.cpp:202-203 | nobody has had an answer beyond those of a finisher between two rounds that has the fewest |
| `SyncSteps.ServeKeeps` | src/server.cpp:155-161 | answering one waiting get keeps the core invariant |
| `SyncSteps.ApplyKeeps` | src/server.cpp:179-186 | applying one waiting add keeps the core invariant |
| `SyncRuns.RunsKeepInvariant` | src/server.cpp:61-67 | the invariant holds in every state of every run of any number of workers |
| `SyncRuns.SameGetSameLog` | src/server.cpp:61-67 | any two workers' gets with the same index see the identical log of applied adds |
| `SyncRuns.LogIsExact` | src/server.cpp:63-67 | that log holds exactly the first j adds of every worker, j being the adds before the get in the word; of a worker that finished with fewer, all it sent |
| `SyncRuns.ChecksNeverFail` | src/server.cpp:141-213 | in every run in which workers finish only as the exact condition allows no CHECK fails and no clock passes INT_MAX |
| `SyncRuns.EverythingIsAccountedFor` | src/server.cpp:141-188 | every add is applied or waiting and every get answered or waiting, once and in order; the pending counter is the number of waiting adds |
| `SyncRuns.FinishedMeansDrained` | src/server.cpp:190-213 | once all have finished, both caches are empty and every add sent has been applied |
| `SyncRuns.SomebodyCanSend` | src/server.cpp:141-188 | no deadlock: while a worker waits for an answer, somebody else can send its next request |
| `SyncRuns.FinishAfterAddOverflows` | src/server.cpp:99-108 | a run in which a finish right after an add that waits pushes the finished worker's clock beyond INT_MAX at the next get |
| `HuffmanEncoder.HuffmanEncoder.BuildHuffmanTreeFromDict` | Applications/WordEmbedding/src/huffman_encoder.cpp:87-188 | no assert fails exactly if there are at least two words; then the labels of all words are well formed, prefix-free, spend the Kraft sum exactly, name inner nodes by code prefixes and minimise the length of the text |
| `HuffmanEncoder.BuildTree` | Applications/WordEmbedding/src/huffman_encoder.cpp:110-162 | the asserts hold exactly if there are at least two words; then the two-pointer loop builds a complete tree by merging two lightest live nodes each time; counts, parents and bits describe it, and all leaves are used up |
| `HuffmanEncoder.MergeTwoSmallest` | Applications/WordEmbedding/src/huffman_encoder.cpp:118-155 | one turn of the loop keeps the tree, the two queues and the 64-bit range of the counts |
| `HuffmanEncoder.TakeTwoSmallest` | Applications/WordEmbedding/src/huffman_encoder.cpp:119-148 | the two nodes taken are live, distinct and no heavier than any other live node; the sentinel is never taken and pos2 stays below 2 * V - 1 |
| `HuffmanEncoder.TakeSmallest` | Applications/WordEmbedding/src/huffman_encoder.cpp:121-133 | the node taken is a smallest one of both queues, and a leaf only if all merged nodes are heavier |
| `HuffmanEncoder.DepthFitsBuffer` | Applications/WordEmbedding/src/huffman_encoder.cpp:168-177 | no code is longer than 98 bits, so the check against the buffer of 100 cannot fail |
| `HuffmanEncoder.LongCodesNeedMoreThan64Bits` | Applications/WordEmbedding/src/huffman_encoder.cpp:168-177 | a code of 99 bits would need a total frequency beyond 64 bits |
| `HuffmanEncoder.WalkUp` | Applications/WordEmbedding/src/huffman_encoder.cpp:168-176 | the walk to the root ends and collects the bits and nodes of the path |
| `HuffmanEncoder.ExtractLabel` | Applications/WordEmbedding/src/huffman_encoder.cpp:166-187 | the label is the path from the root to the leaf |
| `HuffmanEncoder.CompareSortsPositive` | Applications/WordEmbedding/src/huffman_encoder.cpp:80-85 | the comparison is a strict weak order exactly when no word has frequency 0 |
| `HuffmanTree.DepthNeedsWeight` | Applications/WordEmbedding/src/huffman_encoder.cpp:151-155 | a leaf at depth d needs a total weight of at least the Fibonacci number d + 2 |
| `HuffmanTree.GrandparentWeight` | Applications/WordEmbedding/src/huffman_encoder.cpp:118-155 | two levels up, a node weighs at least as much as its parent and itself together |
| `HuffmanTree.InnerWeightsGrow` | Applications/WordEmbedding/src/huffman_encoder.cpp:149-151 | the counts of inner nodes never decrease |
| `HuffmanTree.ParentsAreLater` | Applications/WordEmbedding/src/huffman_encoder.cpp:153-154 | every parent has a larger index, so the walk ends at the root |
| `HuffmanTree.HeavierHasBitOne` | Applications/WordEmbedding/src/huffman_encoder.cpp:118-155 | siblings have different bits, and the one with bit 1 is not the lighter one |
| `HuffmanTree.BuiltDepthsAreOptimal` | Applications/WordEmbedding/src/huffman_encoder.cpp:110-156 | no lengths that satisfy the Kraft inequality cost less than the depths of the built tree |
| `HuffmanTree.InnerWeightIsLowerBound` | Applications/WordEmbedding/src/huffman_encoder.cpp:118-155 | after any number of merges, what is left to merge bounds the cost of every feasible family of lengths from below |
| `GreedyMerging.MergeLightest` | Applications/WordEmbedding/src/huffman_encoder.cpp:118-155 | any feasible lengths before a merge of two lightest nodes yield feasible lengths after it that cost less by at least the merged weight |
| `GreedyMerging.SinkPair` | Applications/WordEmbedding/src/huffman_encoder.cpp:118-155 | feasible lengths with two nodes at the greatest depth can be changed, at no cost, so that the two lightest are there |
| `PrefixCodes.KraftInequality` | Applications/WordEmbedding/src/huffman_encoder.cpp:110-188 | prefix-free codes satisfy the Kraft inequality, so every rival code is covered |
| `HuffmanCodes.CodesDecode` | Applications/WordEmbedding/src/huffman_encoder.cpp:181-187 | walking from the root along a node's code ends at that node |
| `HuffmanCodes.NodeOfPrefix` | Applications/WordEmbedding/src/huffman_encoder.cpp:181-187 | point[k] is the inner node at which walking the first k bits of the word's code from the root arrives |
| `HuffmanCodes.LeafCodesApart` | Applications/WordEmbedding/src/huffman_encoder.cpp:181-187 | no leaf's code is a prefix of another's |
| `HuffmanLabels.LabelsAreOptimal` | Applications/WordEmbedding/src/huffman_encoder.cpp:110-188 | sum of frequency times code length is minimal over all prefix-free codes for the words |
| `HuffmanLabels.LabelsSpendTheUnit` | Applications/WordEmbedding/src/huffman_encoder.cpp:181-187 | the Kraft sum of the codes is exactly 1 |
| `HuffmanLabels.LabelsIdentifyPrefixes` | Applications/WordEmbedding/src/huffman_encoder.cpp:181-187 | two entries of point are equal exactly if the code prefixes before them are |
| `Hopscotch.Hopscotch.Find` | Applications/LogisticRegression/src/util/hopscotch_hash.h:365-376 | finds the slot of a key, or none exactly if the map does not have it |
| `Hopscotch.Hopscotch.Prev` | Applications/LogisticRegression/src/util/hopscotch_hash.h:174-183 | the last element of a home before a slot |
| `Hopscotch.Hopscotch.Displace` | Applications/LogisticRegression/src/util/hopscotch_hash.h:320-357 | through any number of hops the map and the table invariant are kept, and the home's own chain is not touched; a slot returned is free and in the home's neighbourhood; none is returned only if no element between the home and the free slot left behind can hop there, and if none could from the start the table is as it was |
| `Hopscotch.Hopscotch.MoveTo` | Applications/LogisticRegression/src/util/hopscotch_hash.h:333-344 | one hop rewrites slot, predecessor link and next link as the function Hop says |
| `HopscotchTable.HopKeeps` | Applications/LogisticRegression/src/util/hopscotch_hash.h:333-344 | a hop keeps every chain increasing, complete and within 31 slots of its home, no 8-bit offset wraps, and the map is unchanged |
| `Hopscotch.Hopscotch.Remove` | Applications/LogisticRegression/src/util/hopscotch_hash.h:233-271 | deletes exactly the given key; the table is valid again, no free slot is left with a chain, and size is the number of keys |
| `Hopscotch.Hopscotch.CompactFrom` | Applications/LogisticRegression/src/util/hopscotch_hash.h:250-269 | the compaction loop ends, since the free slot only moves on, and keeps the map |
| `HopscotchSteps.UnlinkKeeps` | Applications/LogisticRegression/src/util/hopscotch_hash.h:238-247 | unlinking an element keeps all chains and takes exactly its key out of the map |
| `HopscotchSteps.PullKeeps` | Applications/LogisticRegression/src/util/hopscotch_hash.h:251-268 | filling a free slot with the last element of its own chain keeps all chains and the map |
| `Hopscotch.Hopscotch.Insert` | Applications/LogisticRegression/src/util/hopscotch_hash.h:273-318 | the map gains the key, in the first free slot if it is in the neighbourhood; the table stays valid exactly if, before the call, the home's chain is empty or starts before the slot taken; it must grow if none of 256 slots is free or no element can hop, and only if none is free or no hop is left, and then nothing is lost |
| `HopscotchSteps.PlaceKeeps` | Applications/LogisticRegression/src/util/hopscotch_hash.h:301-317 | linking in a placed element is right exactly if the chain does not start behind its slot |
| `HopscotchSteps.CutOffIsLost` | Applications/LogisticRegression/src/util/hopscotch_hash.h:309-311 | in the remaining case the chain afterwards consists of the new element alone |
| `Hopscotch.InsertLosesAKey` | Applications/LogisticRegression/src/util/hopscotch_hash.h:309-311 | a concrete table in which inserting key 257 makes key 1 unreachable |
| `Hopscotch.FourLessOneIsReached` | Applications/LogisticRegression/src/util/hopscotch_hash.h:233-317 | inserting 0, 256, 512 and 1 and removing 512 leads from the empty table to that table |
| `Hopscotch.OwnHomeIsSafe` | Applications/LogisticRegression/src/util/hopscotch_hash.h:274-317 | in a compact table nothing is cut off if the home slot is free or holds one of its own elements |
| `Hopscotch.DenseIsSafe` | Applications/LogisticRegression/src/util/hopscotch_hash.h:274-317 | in a table built by insertions only, a slot that is free before the call is never before the chain |
| `Hopscotch.DisplacementLosesKeys` | Applications/LogisticRegression/src/util/hopscotch_hash.h:289-317 | a concrete table in which a hop frees a slot before the chain, and thirty keys are cut off |
| `Hopscotch.CrowdedIsReached` | Applications/LogisticRegression/src/util/hopscotch_hash.h:273-317 | 33 insertions, each into the first free slot from its home on, lead from the empty table to that one |
| `Hopscotch.Hopscotch.Set` | Applications/LogisticRegression/src/util/hopscotch_hash.h:220-231 | overwrites a key that is there, otherwise inserts it; the map is updated and size counts it; it must grow in the same cases as an insertion |
| `Hopscotch.Hopscotch.Get` | Applications/LogisticRegression/src/util/hopscotch_hash.h:359-363 | looks the key up in the map |
| `Capacity.RoundUp` | Applications/LogisticRegression/src/util/hopscotch_hash.h:112-123 | the shifts yield the least power of two that is neither below the size nor below 256, or 0 if 64 bits do not hold it |
| `Hopscotch.Hopscotch.constructor` | Applications/LogisticRegression/src/util/hopscotch_hash.h:109-132 | an empty valid table of the rounded-up capacity; for sizes beyond 2^63 one of capacity 0, in which no key has a home |
| `RowRanges.ServerOffsets` | src/table/matrix_table.cpp:23-43 | for every row and server count the worker's offsets are the servers' own ranges; servers left out have no rows; all ranges but the last have numRow / numServers rows, or one each if there are fewer rows |
| `RowRanges.RoutedToOwner` | src/table/matrix_table.cpp:268-273 | a row is routed to the server that owns it, also with fewer rows than servers |
| `RowRanges.OneOwner` | src/table/matrix_table.cpp:23-43 | no row has two owners |
| `MatrixTable.MatrixServer.constructor` | src/table/matrix_table.cpp:348-365 | where a server's rows start and how many they are: numRow / numServers, the rest for the last; one each if there are fewer rows |
| `MatrixTable.MatrixServer.ProcessAdd` | src/table/matrix_table.cpp:387-418 | the shard after an add to the whole range or to listed rows, and exactly when the checks fail |
| `MatrixTable.MatrixServer.ProcessGet` | src/table/matrix_table.cpp:420-454 | the reply carries the stored rows in the order of the keys |
| `MatrixTable.MatrixWorker.Partition` | src/table/matrix_table.cpp:263-313 | counting and filling: every server's blob is the subsequence of the keys it owns with their rows, in order, and the number of replies awaited is the number of messages |
| `MatrixTable.MatrixWorker.PartitionAll` | src/table/matrix_table.cpp:243-260 | every server's part of a whole-table add is the rows of its range |
| `MatrixTable.MatrixWorker.ProcessReplyRows` | src/table/matrix_table.cpp:332-340 | every row goes to its place, and exactly when the checks fail |
| `MatrixTable.MatrixWorker.ProcessReplyAll` | src/table/matrix_table.cpp:324-331 | a server's range goes to its part of the buffer |
| `MatrixModel.PartsAreShards` | src/table/matrix_table.cpp:263-297 | updating every shard with its part is updating the flat matrix, shard by shard |
| `MatrixModel.DistinctPartsFit` | src/table/matrix_table.cpp:407 | with distinct rows no server is asked for more rows than it has, so its check holds |
| `MatrixModel.AddRowsUpdates` | src/table/matrix_table.cpp:407-413 | after an add to listed rows every row has taken the deltas that name it, in order; a row not listed stays, and with distinct rows each listed one is updated once |
| `MatrixModel.AddRowsCat` | src/table/matrix_table.cpp:407-413 | adding two lists of rows one after the other is adding the joined list |
| `ShardedMatrix.AddRowList` | src/table/matrix_table.cpp:235-315 | a row-list add is one update of the flat matrix per row, in whatever order the servers are reached; it fails exactly if some server is asked for more rows than it has; the number of replies awaited stays |
| `ShardedMatrix.AddWhole` | src/table/matrix_table.cpp:243-260 | a whole-table add updates every row of the flat matrix |
| `ShardedMatrix.GetRowList` | src/table/matrix_table.cpp:317-341 | every place that is the last to ask for its row gets that row of the flat matrix, whatever the order of the replies; other places stay as they are; no reply is left awaited |
| `ShardedMatrix.GetWhole` | src/table/matrix_table.cpp:317-331 | a whole-table get fills the buffer with the flat matrix |
| `ShardedMatrix.DistinctAreLast` | src/table/matrix_table.cpp:126-137 | with distinct rows every place is filled |
| `MatrixRuns.RunAll` | src/table/matrix_table.cpp:235-341 | any sequence of adds and gets by any workers: every get delivers the rows of the flat matrix after all earlier adds, and the run fails exactly if some add asks a server for more rows than it has |
| `MatrixRuns.Serve` | src/table/matrix_table.cpp:235-341 | one request finds what the flat matrix holds, leaves the flat matrix as it should be, and leaves no reply awaited; what a get finds is the matrix, or each row asked for at the last place that asks for it, and what an add does is to update every row it names |
| `MatrixRuns.NewTable` | src/table/matrix_table.cpp:18-45 | new workers and servers, for every number of rows and servers, agree on the ranges and hold the zero matrix |
| `MatrixRuns.RunNew` | src/table/matrix_table.cpp:18-45 | a newly built table serves any sequence of requests as one matrix that is zero at first; if no request names a row twice, no check fails |
| `MatrixRuns.DistinctRowsAlwaysWork` | src/table/matrix_table.cpp:407 | a request that names no row twice fails no check, and a get delivers exactly the rows it asks for |
| `MatrixRuns.RepeatedRowsMayFail` | src/table/matrix_table.cpp:407 | a row-list add with a repeated row that fails the check |
| `MatrixAsync.ServersStoreWhatArrived` | src/table/matrix_table.cpp:386-418 | adds under way at several servers in any orders: at any time every server stores its shard of the flat matrix that exactly the requests which have reached it make, in the order of issue |
| `MatrixAsync.ServersConverge` | src/table/matrix_table.cpp:386-418 | once all requests have reached a server, in whatever order, it stores its shard of the flat matrix after all of them |
| `MatrixAsync.LateIsInTurn` | src/table/matrix_table.cpp:386-418 | a request that arrives late has the effect it would have had in its turn |
| `MatrixAsync.OrderIsFreeExactly` | src/table/matrix_table.cpp:386-418 | any two requests may change places, whatever they are, exactly if deltas commute |
| `MatrixModel.ZeroRowsMayBeSkipped` | src/table/matrix.cpp:147-166 | sending only the rows of a delta that are not zero is adding the whole delta, if adding zero changes nothing |
| `MatrixModel.PickNonZero` | src/table/matrix.cpp:147-166 | exactly the rows that are not zero are picked, in order, with their contents |
| `SparseMirror.SparseServer.UpdateAddState` | src/table/matrix.cpp:517-537 | for every worker, a flag is set afterwards exactly if it was before and its row is not added to |
| `SparseMirror.SparseServer.UpdateGetState` | src/table/matrix.cpp:540-572 | of the rows asked for (all or listed) exactly the outdated ones are picked, each once, or the first row of the server if there are none; exactly their flags, and no other worker's, are set; a worker without number gets all rows and sets no flag |
| `SparseMirror.SparseServer.ProcessAdd` | src/table/matrix.cpp:422-458 | exactly when the checks fail; every row takes the deltas that name it, in order, and no other row changes; in a sparse table the flags of exactly the rows added to are cleared, also by an add that fails |
| `SparseMirror.SparseServer.ProcessGet` | src/table/matrix.cpp:461-514 | the reply of a get and the flags after it: the outdated rows in a sparse table, what was asked for in a dense one |
| `SparseMirror.OutdatedAreSent` | src/table/matrix.cpp:557-566 | of the listed rows exactly the outdated ones are sent, repeated or not |
| `SparseMirror.SentOnce` | src/table/matrix.cpp:557-566 | each of them once |
| `SparseMirror.ListedGetIsAsked` | src/table/matrix.cpp:557-572 | a row-list get sends only rows that were asked for exactly if one of them is outdated or the first row of the server is among them |
| `SparseMirror.UnaskedRowIsSent` | src/table/matrix.cpp:568-572 | a worker that is up to date and asks for the second of two rows is sent the first |
| `SparseRuns.ProcessReplyGet` | src/table/matrix.cpp:347-377 | the rows of a sparse reply are written to their places, in a copy of the table or in a buffer for listed rows; exactly when the checks fail; one reply fewer is awaited |
| `SparseRuns.ReplyCompletes` | src/table/matrix.cpp:540-572 | whatever was up to date: with the reply written, the copy is the shard |
| `SparseRuns.EventKeeps` | src/table/matrix.cpp:347-377 | adds, gets and deliveries, in any order, keep the coherence invariant |
| `SparseRuns.FlagsMeanCurrent` | src/table/matrix.cpp:517-572 | in every run a set flag means that the copy's row, once replies under way are delivered, is the stored row |
| `SparseRuns.GetsSeeTheShard` | src/table/matrix.cpp:347-377 | in every run a delivered get makes the copy the shard as it was when that get was processed |
| `SparseRuns.ShardIsAllAdds` | src/table/matrix.cpp:422-458 | in every run the server stores the adds processed so far, one after the other, and nothing else |
| `SparseRuns.FlagsAreExact` | src/table/matrix.cpp:517-572 | in every run a flag is set exactly if the worker's get has been processed and the row has not been added to since |
| `SparseRuns.GetSendsChanges` | src/table/matrix.cpp:540-572 | in every run a whole-table get sends exactly the rows that the worker has not been sent since they last changed, or the first row if there are none |
| `SparseRuns.ListedGetIsHarmless` | src/table/matrix.cpp:557-566 | a row-list get into another buffer keeps the flags true of every copy of the table they were true of exactly if the server finds none of the listed rows outdated |
| `SparseCluster.RunsKeepInvariant` | src/table/matrix.cpp:347-572 | several servers, any steps at any of them: each server's flags and replies stay coherent with its own part of every copy |
| `SparseCluster.DeliveredElsewhere` | src/table/matrix.cpp:347-377 | a reply of one server leaves another server's part of the copy, and its coherence, alone |
| `SparseCluster.StepMoves` | src/table/matrix.cpp:347-572 | between a worker and a server a step does nothing, or sends the reply to a get, or delivers one and makes the part what the shard was |
| `SparseCluster.StepChangesShards` | src/table/matrix.cpp:422-458 | a server's rows change only by an add processed at that server, and then by just that add |
| `SparseCluster.FinishedGetIsRecent` | src/table/matrix.cpp:65-99 | when a get of the whole table is finished, every server's part of the copy is what that server held at some time between the sending of the get and its end |
| `SparseCluster.QuietGetIsExact` | src/table/matrix.cpp:65-99 | if the table holds the same matrix throughout, the finished get delivers it |
| `SparseFilter.FilterIn` | include/multiverso/util/quantization_util.h:37-63 | the filtered list: first blob, size information, the data blobs, option blob; a data blob is replaced by its large elements exactly if twice their number is below its length |
| `SparseFilter.FilterOut` | include/multiverso/util/quantization_util.h:66-91 | the restored list, or none if the check on the number of blobs fails |
| `SparseFilter.TryCompress` | include/multiverso/util/quantization_util.h:95-137 | compresses exactly if twice the number of elements above clip is below the length, into index and value of each of them in order, or of the first element if there are none; a blob of two or more elements never grows |
| `SparseFilter.DeCompress` | include/multiverso/util/quantization_util.h:139-154 | the last value listed for an index stands there, zero stands everywhere else |
| `SparseFilter.WhatComesBack` | include/multiverso/util/quantization_util.h:95-154 | of a compressed blob, exactly the large elements come back, and the first one where no element is large; all others are zero |
| `SparseFilter.RoundTrip` | include/multiverso/util/quantization_util.h:37-91 | every blob comes back, exact above clip and off by at most clip below, exactly if the list has at least two blobs |
| `SparseFilter.ExactRoundTrip` | include/multiverso/util/quantization_util.h:37-91 | at clip 0 the round trip is the identity exactly on lists of at least two blobs |
| `SparseFilter.ErrorIsBounded` | include/multiverso/util/quantization_util.h:101-104 | an element above clip is exact, any other is off by at most clip |

## Left out

- Transport: MPI, ZMQ, sockets, files, logging, timers, thread queues and waiters. Messages are matched and
  arrive in order, a server handler is one atomic step.
- Interleaving of ranks within a round of the all-reduce: a blocking exchange is matched with its partner's.
- AllreduceEngine.AllreduceEngine.Allreduce: on the large-data path input and output are different memory, unless there is a single machine.
- Element width and byte sizes in the all-reduce: `type_size` only decides which path is taken, and 32-bit overflow of sizes is not modelled.
- Floating-point rounding: values are abstract, integers or reals.
- Updaters with state of their own (momentum, AdaGrad), objectives and training loops.
- Flattening of matrix rows into one array of elements, and the mapping of server numbers to ranks.
- Row-list gets of the dense matrix that are under way while adds arrive: MatrixRuns completes each request before the next, and MatrixAsync speaks of what the servers store.
- SparseRuns.EventKeeps: whole-table gets into one copy per worker; a row-list get into another buffer may break the invariant (SparseRuns.ListedGetIsHarmless).
- Element types wider than the 32-bit row key in the sparse matrix and in the filter, and blobs whose size does not fit the index type.
- Gets that a worker sends without waiting for the answer, and what a server does after a check has failed.
- Hopscotch.Hopscotch.Insert: reports that the table must grow instead of growing; rehashing inserts like any other, and its termination for clashing keys is not modelled.
- Hopscotch.Hopscotch.Set: the same, through Insert.
- The iterator of the hopscotch table, which would add only easy members.
- Zero-frequency words in the Huffman builder; `std::sort` is taken as given, its outcome is a parameter.
- Saving and loading labels, dictionary filtering, the controller, barriers, the KV and array tables and the allocator.
