# MedvedDB in Dafny

A model of the parts of MedvedDB where correctness is not visible in one function, with proofs over
every input, every run or every interleaving.

- `Syncerlog` and `Committer`: the transaction-log synchroniser and the committer, as machines of
  atomic steps (load, read top, compare-and-swap, emit) with any number of concurrent loops.
- `Flood`: forwarding of broadcasts with a `notified` set.
- `Topology`, `TopologyDiff`, `Tracker`, `TrackerClass` (over `Uuids`): index-based link graphs that
  are compacted, extended, sorted and re-indexed in place, their difference, and the tracker that
  applies it. The meaning of a graph is its list of (UUID, UUID, weight) edges.
- `Vm` and `VmStack`: the stack machine on values, and the machine on a raw byte stack that refines it.
- `LruCache`: the map and the recency list of the cache.
- `Rowdata` and `TwoPhaseSet`: paged views of an ordered store, and the store's add operations.
- `EventBus`: copy-on-write subscriber lists with reference counts.
- `Framing`: writers under a mutex, a byte stream in arbitrary pieces, a resumable reader.
- `RowCodec` and `RowBuffer`: rows, their serialized form, and decoding under a mask into one block.
- `Bytes`, `Common`: shared types.

Concurrent code is a step system whose runs are sequences of actions. The methods of a class are the
same code run by one thread, each proved against a function of its inputs and of the old state; the
table of `EventBus.Bus` moves as the table of the step system, and the fields of
`TrackerClass.Tracker` and the bytes of `VmStack.ByteStack` as the states of the value models.
Each main statement is about a definition that does not mention the code: disjoint ranges covering an
interval, reachability in a graph, a set of pairs, the value of an expression tree, the most recently
touched keys, one full scan, a projection.

Assumptions: sequentially consistent atomics; allocation, publishing and pushing of jobs succeed;
counters do not wrap around; links stay fixed while a flood runs (termination does not need that) and
channels lose nothing; nodes and links are extracted as one snapshot; hash maps replace on an equal
key, LMDB maps are ordered by key and read in a snapshot.

Properties that turned out false of the code, each with an input that shows it and the exact condition
under which it holds:

- A change is lost when it is announced while an event of another log of the node is queued:
  `MDV_EVT_UNIQUE` keeps one queued event per type, not per log. In runs without such an announcement
  nothing is lost, and the last announcement loses records exactly then
  (`Syncerlog.OtherLogLosesChange`, `Syncerlog.NoLostChange`, `Syncerlog.LastAnnouncementIff`).
- Creating a topology looks nodes up by id, so two nodes with one id become one node; a difference
  that mixes the ids of two servers can do this (`TopologyDiff.MixedIdsDiff`,
  `Topology.CreateKeepsEdgesIff`, `TopologyDiff.Diff`).
- Two trackers that exchange differences end with the same links, but with the same weights exactly
  when they agreed on the links they shared: of the link between the two nodes each takes the other's
  weight (`Tracker.WeightsSwap`, `Tracker.MergeBothWaysIff`).
- After a restart the tracker hands out ids that stored nodes already hold
  (`Tracker.RestartKeepsIdsIff`).
- A batch with one removed id loses all its objects (`TwoPhaseSet.BatchWithRemovedDiverges`,
  `TwoPhaseSet.ConvergeIff`).
- A row view starts with an uninitialised `rowid`; when its first fetch reads no row, later fetches can
  miss rows (`Rowdata.LosesRows`, `Rowdata.CompleteIff`). An undecodable row stalls a view for ever
  (`Rowdata.ScanEndsIff`).
- A handler can still be called after its unsubscribe has returned, by a dispatch that holds an older
  list (`EventBus.LateCallExample`, `EventBus.LateCallIff`).
- An unsigned 64-bit value of 2^63 or more is serialized and cannot be read back
  (`RowCodec.LargeUnsignedLost`, `RowCodec.ProjectionCommutes`).

Where code and documentation differ, the model follows the code. `mdv_topology_diff` is documented as
A minus B over sorted links; the code also returns the a-b link, does not rely on sorted links, and
returns null when neither side knows that link and other links differ. `mdv_2pset_add_batch` is
documented to report errors; it returns OK for a batch that is lost before anything was put.

## Model

| member | source | states |
|---|---|---|
| `Syncerlog.RangePartition` | mdv_core/mdv_syncerlog.c:211-256 | in every interleaving of schedule loops, spurious failures of the weak CAS included, the claimed ranges are non-empty, at most a batch long, pairwise disjoint, and together exactly the records below `synced`, which never passes the log top |
| `Syncerlog.SyncedMonotone` | mdv_core/mdv_syncerlog.c:211-256 | along every run `synced` and the list of claimed ranges only grow |
| `Syncerlog.ClaimsBecomeJobs` | mdv_core/mdv_syncerlog.c:116-146 | once every loop has ended, each claimed range was pushed as exactly one send job |
| `Syncerlog.NoLostChange` | mdv_core/mdv_syncerlog.c:164-282 | with any number of logs on the bus, in every run in which no announcement of this log finds another log's event queued, each record below the top is claimed, or already held by the peer, or a pending notification, message or running loop will read a top above it, also when a stale CAS resets `requests` |
| `Syncerlog.QuiescentMeansSynced` | mdv_core/mdv_syncerlog.c:164-282 | in such a run, when nothing is pending any more, every record was claimed or reported by the peer |
| `Syncerlog.LastAnnouncementIff` | mdv_platform/mdv_ebus.c:598-647 | when one announcement is all that is pending, it loses records exactly when it finds another log's event queued and the peer lacks some |
| `Syncerlog.SwallowedStaysLost` | mdv_platform/mdv_ebus.c:598-647 | then handling the other event leaves nothing pending and the records unsent |
| `Syncerlog.OtherLogLosesChange` | mdv_core/storage/mdv_trlog.c:92-101 | with a second log on the bus there is a run that ends with nothing pending and a record nobody will send |
| `Syncerlog.NoLostChangeIff` | mdv_platform/mdv_ebus.c:598-647 | no change is lost in any run exactly when no other log publishes on the bus |
| `Syncerlog.MessagesConserved` | mdv_core/mdv_syncerlog.c:164-208 | in every run one sync message is sent, or about to be, for each time `requests` leaves 0 and none for the changes counted in between; each is answered once, and each answer or report starts one loop |
| `Syncerlog.EmptyLogQuiet` | mdv_core/mdv_syncerlog.c:149-170 | in every run an empty log has nothing counted and no message under way |
| `Syncerlog.BatchesTile` | mdv_core/mdv_syncerlog.c:211-256 | the batches of one undisturbed pass tile the interval from `synced` to the top, and all but the last are full |
| `Syncerlog.LoopAloneFinishes` | mdv_core/mdv_syncerlog.c:211-256 | a loop running alone, by steps of its own only, always ends, resets `requests` and claims everything up to the top in batches counted from `synced`; a larger position of the peer moves no batch, it only ends the loop |
| `Syncerlog.Syncer.constructor` | mdv_core/mdv_syncerlog.c:211-256 | a new synchroniser has no requests, nothing synced and no jobs |
| `Syncerlog.Syncer.ClaimOne` | mdv_core/mdv_syncerlog.c:219-236 | the inner loop claims one range of at most a batch from `synced` on, exactly when the local position is below the top |
| `Syncerlog.Syncer.Schedule` | mdv_core/mdv_syncerlog.c:211-256 | the nested loops emit exactly the batches of the undisturbed pass and reset `requests` |
| `Committer.CommitCoalescing` | mdv_core/mdv_committer.c:47-71 | in every run and per log at most one job lies between being about to be emitted and its successful CAS, `requests` is positive exactly while there is one, and when it is 0 an apply began after the last counted change |
| `Committer.ResetOnlyWhenApplied` | mdv_core/mdv_committer.c:47-71 | the CAS resets the counter only when no change was counted since the apply before it began |
| `Committer.LogCommitter.Start` | mdv_core/mdv_committer.c:144-157 | a change is counted, and a job is to be pushed exactly when the counter was 0 |
| `Committer.LogCommitter.Run` | mdv_core/mdv_committer.c:47-71 | the job applies until the first apply during which no change arrives, and no longer |
| `Uuids.Cmp` | mdv_platform/mdv_uuid.c:19-30 | the comparison of UUIDs is 0 exactly on equal ones and follows one strict order |
| `Uuids.SortedIdentifies` | mdv_platform/mdv_topology.c:203-242 | two sorted pairs of UUIDs are equal exactly when they join the same two nodes, in either order |
| `Flood.Post` | mdv_core/mdv_peer.c:679-697 | one message with the grown `notified` set is posted to each peer left |
| `Flood.Forward` | mdv_core/mdv_tracker.c:679-718 | a node posts to exactly the peers not yet notified and adds exactly these to `notified` |
| `Flood.FloodExact` | mdv_core/mdv_tracker.c:606-731 | over fixed links, once no message is in flight, a node has handled the broadcast exactly when a path from the first destinations reaches it outside the initial notified set |
| `Flood.LinkStateReachesComponent` | mdv_core/mdv_tracker.c:388-448 | a link-state broadcast, whose notified set equals its destinations, is handled by exactly the nodes connected to them |
| `Flood.SegmentIff` | mdv_core/mdv_tracker.c:606-731 | a flood around some nodes is handled by exactly the segment of its destinations exactly when no other node marked as notified belongs to that segment |
| `Flood.TopologySyncReachesComponent` | mdv_core/mdv_tracker.c:451-603 | the flood with what the own segment lacks is handled by exactly the nodes joined to the other peers without the sender exactly when the gateway is not among them; the flood with what the remote segment lacks by exactly the nodes joined to the gateway exactly when no other peer is among them; both together reach the whole component of the sender |
| `Flood.ForwardWeighsLess` | mdv_core/mdv_tracker.c:679-718 | the messages of one forward together weigh less than the message that caused them, a message weighing (n+1)^(n-notified) |
| `Flood.MeasureDecreases` | mdv_core/mdv_tracker.c:679-718 | every delivery lowers the total weight of the messages in flight, whatever the peers are |
| `Flood.FloodTerminates` | mdv_core/mdv_tracker.c:679-718 | a broadcast makes at most as many deliveries as its initial weight, even when links change at every step |
| `Flood.CanDeliver` | mdv_core/mdv_tracker.c:606-731 | while a message is in flight a delivery is possible |
| `Topology.CompactionKeepsEdges` | mdv_platform/mdv_topology.c:54-120 | compaction keeps every link's two UUIDs and weight, with all indices in range |
| `Topology.CompactedTouchesAll` | mdv_platform/mdv_topology.c:54-120 | after compaction every node is at the end of a link |
| `Topology.MarkTouched` | mdv_platform/mdv_topology.c:54-85 | the index table marks exactly the nodes that links touch |
| `Topology.LinkedNodes` | mdv_platform/mdv_topology.c:54-120 | the loop returns exactly the touched nodes in order and rewrites the links in place to point to them |
| `Topology.SortNodes` | mdv_platform/mdv_topology.c:463-529 | the nodes are sorted by UUID and stay the same multiset |
| `Topology.IndexIds` | mdv_platform/mdv_topology.c:463-529 | the id map holds for each id the last node that carries it |
| `Topology.IndicesToIds` | mdv_platform/mdv_topology.c:463-529 | link ends are replaced in place by the ids of their nodes |
| `Topology.IdsToIndices` | mdv_platform/mdv_topology.c:463-529 | link ends are replaced in place by what the id map holds |
| `Topology.Create` | mdv_platform/mdv_topology.c:463-529 | both vectors are rewritten in place: nodes sorted by UUID, each link end looked up by id among them |
| `Topology.LookupByIdIff` | mdv_platform/mdv_topology.c:463-529 | looking a node up by id finds its UUID exactly when no node with that id has a greater UUID |
| `Topology.CreateKeepsEdgesIff` | mdv_platform/mdv_topology.c:463-529 | creation keeps all indices in range, and keeps the graph exactly when no linked node shares its id with a node of a greater UUID |
| `Topology.DistinctIdsSuffice` | mdv_platform/mdv_topology.c:463-529 | distinct ids are enough for that |
| `Topology.Peers` | mdv_platform/mdv_topology.c:588-623 | the result is exactly the set of nodes linked to the given one |
| `TopologyDiff.LinksMap` | mdv_platform/mdv_topology.c:253-291 | the map holds exactly the sorted pairs of the links |
| `TopologyDiff.FindLink` | mdv_platform/mdv_topology.c:371-384 | finds the first link that joins two nodes in either direction, or reports that there is none |
| `TopologyDiff.AppendLink` | mdv_platform/mdv_topology.c:123-169 | adds one link and exactly the end nodes that were missing, and keeps all other links |
| `TopologyDiff.ChooseLinks` | mdv_platform/mdv_topology.c:336-367 | chooses exactly the links whose pair the other side does not know, and the first link between the two nodes |
| `TopologyDiff.DiffPairs` | mdv_platform/mdv_topology.c:294-442 | the difference denotes A minus B plus the a-b link when anyone knows it |
| `TopologyDiff.DiffWeights` | mdv_platform/mdv_topology.c:294-442 | the difference gives a pair that only A knows A's weight, the a-b link A's weight or else B's, and no other pair any |
| `TopologyDiff.Diff` | mdv_platform/mdv_topology.c:294-442 | returns the empty topology, all of A, null or a topology in range with sorted nodes of A and B; the latter denotes the difference exactly when added nodes share no id with kept ones |
| `TopologyDiff.MixedIdsCorrupt` | mdv_platform/mdv_topology.c:385-420 | for any three nodes two valid topologies for which that condition fails: both sides number themselves 0 and only the second knows the link |
| `TopologyDiff.MixedIdsDiff` | mdv_platform/mdv_topology.c:294-442 | the code returns a graph for them that is not the difference |
| `Tracker.LinkCmp` | mdv_core/mdv_tracker.c:139-171 | links (x,y) and (y,x) are one key |
| `Tracker.FreshInv` | mdv_core/mdv_tracker.c:234-252 | a tracker over an empty store satisfies the invariant: nodes and ids inverse, link ends registered, ids bounded by the counter, storage in step |
| `Tracker.RegisterInv` | mdv_core/mdv_tracker.c:906-964 | registration keeps the invariant, moves no id and hands out only ids never used |
| `Tracker.RegisterFiles` | mdv_core/mdv_tracker.c:906-964 | the node ends with the address it was registered under, in memory and, if it is new, in the storage, under its old id or the next one; every other node stays; it fails exactly on a new address of 256 characters or more, and then nothing but the counter changes |
| `Tracker.LinkStateInv` | mdv_core/mdv_tracker.c:967-1061 | adding or removing a link keeps the invariant |
| `Tracker.RunInv` | mdv_core/mdv_tracker.c:906-1061 | in every run the invariant holds and no registered node changes its id |
| `Tracker.RegisterMeaning` | mdv_core/mdv_tracker.c:906-964 | registration changes no tracked link, seen as a weight per pair of UUIDs |
| `Tracker.LinkStateMeaning` | mdv_core/mdv_tracker.c:967-1061 | a link state sets or removes the weight of exactly its pair, in either direction |
| `Tracker.TopodiffMeaning` | mdv_core/mdv_tracker.c:1094-1144 | applying a difference succeeds and sets each pair of it to its last weight, and no other |
| `Tracker.TopodiffAddrs` | mdv_core/mdv_tracker.c:1094-1144 | each node of an applied difference ends with the address it has there, and every other node keeps its own |
| `Tracker.MergeHoldsUnion` | mdv_core/mdv_tracker.c:1094-1144 | applying the difference of A and B sets each pair to the weight the difference gives it and no other pair; so a tracker with the links of B ends with exactly the links of both |
| `Tracker.MergeWeights` | mdv_core/mdv_tracker.c:1094-1144 | with each pair linked at most once, the link between the two nodes ends with the sender's weight and every other link with the receiver's own, or else the sender's |
| `Tracker.MergeBothWays` | mdv_core/mdv_tracker.c:1094-1144 | after differences in both directions two trackers hold the same links |
| `Tracker.MergeBothWaysIff` | mdv_core/mdv_tracker.c:1094-1144 | and the same weights exactly when the two agreed on every link they shared |
| `Tracker.WeightsSwap` | mdv_core/mdv_tracker.c:451-603 | two trackers that know one link, the one between them, with different weights end with each other's weight |
| `Tracker.RunLeavesStoreOk` | mdv_core/mdv_tracker.c:906-964 | every run leaves a node storage with distinct ids, 0 for the local node only |
| `Tracker.RestartKeepsIdsIff` | mdv_core/mdv_tracker.c:218-252 | after a restart nodes and ids stay inverse in every run exactly when the storage held no other node |
| `TrackerClass.Tracker.constructor` | mdv_core/mdv_tracker.c:234-252 | loading gives the local node id 0 and every stored node its stored id, and raises the counter for the local node only |
| `TrackerClass.Tracker.Insert` | mdv_core/mdv_tracker.c:174-202 | a node is filed under its UUID and its UUID under its id |
| `TrackerClass.Tracker.Register` | mdv_core/mdv_tracker.c:906-964 | the in-place update is the registration of the model, error paths included; the node ends with the given address in memory and in the storage, and the others stay |
| `TrackerClass.Tracker.NodeIds` | mdv_core/mdv_tracker.c:994-1036 | finds the two ids exactly when both nodes are known |
| `TrackerClass.Tracker.LinkStateAdd` | mdv_core/mdv_tracker.c:1040-1061 | the in-place update is the link state of the model |
| `TrackerClass.Tracker.LinkStateGet` | mdv_core/mdv_tracker.c:1064-1091 | a link is reported exactly when the tracked graph has it, in either direction |
| `TrackerClass.Tracker.TopodiffAdd` | mdv_core/mdv_tracker.c:1094-1144 | the two loops apply a difference as the model does, and stop at the first failure |
| `TrackerClass.Tracker.ExtractNodes` | mdv_core/mdv_tracker.c:1217-1262 | every tracked node is listed once, and the index table says where its id went |
| `TrackerClass.Tracker.ExtractLinks` | mdv_core/mdv_tracker.c:1264-1388 | every tracked link is listed once, as indices of its two nodes |
| `TrackerClass.Tracker.ExtractTopology` | mdv_core/mdv_tracker.c:1264-1388 | the extracted topology is valid, has every tracked node with its address, and denotes exactly the tracked links with their weights, each once |
| `TrackerClass.Merge` | mdv_core/mdv_tracker.c:451-603 | extraction on both sides, difference and application together: it happens exactly when one side knows the link between the two, or nothing tells them apart; then the receiver ends, pair by pair, with the merged weights, also when only the receiver knew the link and the ids it gave the two nodes are free |
| `Vm.CompareOrders` | mdv_platform/mdv_vm.c:186-353 | the comparison is 0 exactly on equal strings and changes sign when its arguments are swapped |
| `Vm.CompareTransitive` | mdv_platform/mdv_vm.c:186-353 | it is transitive, so the operators decide one total order |
| `Vm.CompareMeans` | mdv_platform/mdv_vm.c:186-353 | the comparison is the lexicographic order of byte strings: at the first difference the smaller byte or the shorter string comes first |
| `Vm.ComparisonMeans` | mdv_platform/mdv_vm.c:186-353 | each of the six operators replaces its operands, the first one pushed on the left, by TRUE exactly when they stand in that order |
| `Vm.BitByBit` | mdv_platform/mdv_vm.c:356-435 | `and`, `or` and `not` of bytes are the logical operators on each of the eight bits |
| `Vm.BitwiseMeans` | mdv_platform/mdv_vm.c:356-435 | the three operators do this to every byte of the operands on the stack and touch nothing below |
| `Vm.StepErrors` | mdv_platform/mdv_vm.c:71-147 | each error of an instruction with its exact cause |
| `Vm.CodeEvaluates` | mdv_platform/mdv_vm.c:71-147 | running the postfix code of any expression pushes its value, or stops with the error its evaluation meets first |
| `Vm.EvalInIff` | mdv_platform/mdv_vm.c:6-19 | evaluation on a limited stack succeeds exactly when the expression has a value and its room fits, and then the limit changes nothing |
| `Vm.ProgramReturnsValue` | mdv_platform/mdv_vm.c:71-147 | a program returns OK exactly then, and leaves the old stack plus the value |
| `Vm.LogicalMeansTruth` | mdv_platform/mdv_vm.c:356-435 | on truth values the byte-wise operators are the logical ones, and comparisons answer by the order of the strings |
| `VmStack.TestHolds` | mdv_platform/mdv_vm.c:186-353 | the tests the six operators make on memcmp and the sizes decide equality and the lexicographic order |
| `VmStack.Bits` | mdv_platform/mdv_vm.c:356-417 | the loops of `and` and `or` combine all bytes |
| `VmStack.ByteStack.Push` | mdv_platform/mdv_vm.c:6-19 | succeeds exactly when payload, size and flag fit; then the bytes encode one more value; a failed push leaves the bytes below alone |
| `VmStack.ByteStack.Pop` | mdv_platform/mdv_vm.c:22-43 | on any bytes: takes off the datum that flag and size describe, inline or external, and fails exactly when the bytes are too few for it; on encoded values takes off the last one |
| `VmStack.ByteStack.Top` | mdv_platform/mdv_vm.c:46-68 | on any bytes: says where the top datum lies and whether it is external, and fails exactly when the bytes are too few for it; on encoded values it is the last one |
| `VmStack.ByteStack.PopPair` | mdv_platform/mdv_vm.c:170-183 | takes off the second operand, then the first |
| `VmStack.ByteStack.Compare2` | mdv_platform/mdv_vm.c:186-353 | the six comparisons on bytes are those on values: the two operands are replaced by TRUE or FALSE according to the lexicographic order; with fewer than two values it fails |
| `VmStack.ByteStack.Bitwise` | mdv_platform/mdv_vm.c:356-417 | `and` and `or` on bytes are those on values, with the error on different sizes |
| `VmStack.ByteStack.Not` | mdv_platform/mdv_vm.c:420-435 | flipping bytes in place negates the top value and nothing else |
| `VmStack.ByteStack.ResultAsBool` | mdv_platform/mdv_vm.c:150-167 | the top value as a truth value, with its two errors |
| `VmStack.ByteStack.Turn` | mdv_platform/mdv_vm.c:71-147 | one turn of the loop decodes one instruction, does it and finds the next |
| `VmStack.ByteStack.Run` | mdv_platform/mdv_vm.c:71-147 | the byte machine refines the machine on values: same verdict, and on success the bytes encode the same stack |
| `VmStack.ProgramEncodes` | mdv_platform/mdv_vm.h:27-33 | an encoded program is read back as its instructions, whatever follows it |
| `VmStack.InstrBytes` | mdv_platform/mdv_vm.h:27-33 | the bytes of each instruction: opcode, flag, size with the least significant byte first and payload, or function id |
| `VmStack.ValueBytes` | mdv_platform/mdv_vm.c:6-19 | the bytes of a value on the stack: payload, size with the least significant byte first, flag 0 |
| `VmStack.OperatorBytes` | mdv_storage/mdv_predicate.c:24-35 | the function id a program calls for each operator |
| `VmStack.EmptyPredicate` | mdv_storage/mdv_predicate.c:17-21 | the bytes of the empty predicate are the program of the constant TRUE |
| `VmStack.RunExpression` | mdv_platform/mdv_vm.c:71-147 | the bytecode of an expression returns OK exactly when it has a value and room, and leaves the old bytes plus the encoding of the value |
| `VmStack.Decide` | mdv_platform/mdv_vm.c:150-167 | a filter expression run on the byte machine answers its truth value |
| `LruCache.Conservation` | mdv_platform/mdv_lrucache.c:115-199 | over any trace the accepted items are exactly those still cached and those handed back, each once; re-putting the identical pointer hands nothing back |
| `LruCache.PutConserves` | mdv_platform/mdv_lrucache.c:115-199 | the same for one put |
| `LruCache.Recency` | mdv_platform/mdv_lrucache.c:115-213 | after any trace of puts and gets a key is cached exactly when fewer than `capacity` other keys were touched after it, and the list is in order of last touch |
| `LruCache.KeysAreSuffix` | mdv_platform/mdv_lrucache.c:115-213 | the cached keys are the last `capacity` ones of the move-to-back list of all touched keys |
| `LruCache.SuffixMostRecent` | mdv_platform/mdv_lrucache.c:115-213 | the end of a move-to-back list is what recency counts say |
| `LruCache.Cache.constructor` | mdv_platform/mdv_lrucache.c:43-82 | a new cache is empty |
| `LruCache.Cache.MoveToBack` | mdv_platform/mdv_lrucache.c:128-129 | excluding and appending an entry keeps map and list in agreement |
| `LruCache.Cache.Get` | mdv_platform/mdv_lrucache.c:202-213 | returns the data of the key or null, moves a hit to the back, and keeps map and list in agreement |
| `LruCache.Cache.Put` | mdv_platform/mdv_lrucache.c:115-199 | updates the items as the model does, hands back exactly what it displaces, and keeps map and list in agreement |
| `LruCache.Cache.Replace` | mdv_platform/mdv_lrucache.c:126-138 | the branch for a cached key |
| `LruCache.Cache.Evict` | mdv_platform/mdv_lrucache.c:168-196 | the branch for a full cache: the oldest entry is used again |
| `Rowdata.SetRange` | mdv_storage/mdv_2pset.c:617-620 | the cursor stands at the first key not below the given one |
| `Rowdata.View.constructor` | mdv_core/storage/mdv_rowdata_view.c:106-147 | a new view starts from the beginning and leaves `rowid` uninitialised |
| `Rowdata.View.SliceImpl` | mdv_core/storage/mdv_rowdata.c:152-228 | the loop collects at most `count` accepted rows: up to the `count`-th, an undecodable row, behind a row the filter fails on, or the end; and remembers the last key read |
| `Rowdata.View.SliceFromBegin` | mdv_core/storage/mdv_rowdata.c:231-251 | the first page, nothing for an empty store |
| `Rowdata.View.Slice` | mdv_core/storage/mdv_rowdata.c:254-298 | the page behind the remembered key, nothing when no key follows |
| `Rowdata.View.Fetch` | mdv_core/storage/mdv_rowdata_view.c:77-103 | one fetch of the view: a page of at most `count` rows from behind the remembered key, shorter only when there is no further row to read |
| `Rowdata.UptoIff` | mdv_core/storage/mdv_rowdata.c:170-228 | the loop stops at a position exactly when what it read is a page: decodable rows, a failing one only at its end, and `count` accepted rows with the last one at its end, or fewer with nothing left to read |
| `Rowdata.FetchedPage` | mdv_core/storage/mdv_rowdata.c:231-298 | a fetch returns nothing exactly when no key follows, else at most `count` rows, and leaves the cursor at the last row read |
| `Rowdata.PagesIncrease` | mdv_core/storage/mdv_rowdata.c:152-298 | with rows inserted between fetches, returned keys strictly increase across all pages |
| `Rowdata.PagesAccepted` | mdv_core/storage/mdv_rowdata.c:152-298 | every row returned is an accepted row of the store |
| `Rowdata.PagedScan` | mdv_core/storage/mdv_rowdata.c:152-298 | when a fetch finds nothing, every accepted row present at the first fetch has been returned |
| `Rowdata.CompleteIff` | mdv_core/storage/mdv_rowdata_view.c:77-103 | that holds in every scan exactly when the first fetch reads a row or there is no accepted row |
| `Rowdata.LosesRows` | mdv_core/storage/mdv_rowdata_view.c:106-147 | otherwise an uninitialised `rowid` behind the rows loses them |
| `Rowdata.PagesAreScan` | mdv_core/storage/mdv_rowdata.c:152-298 | from one store the pages together are exactly one full scan |
| `Rowdata.ScanEndsIff` | mdv_core/storage/mdv_rowdata.c:170-192 | repeated fetches come to an end exactly when every row decodes |
| `TwoPhaseSet.Store.Add` | mdv_storage/mdv_2pset.c:233-300 | adds an object unless its id is taken or removed, and reports OK in all three cases |
| `TwoPhaseSet.Store.AddBatch` | mdv_storage/mdv_2pset.c:303-384 | adds all objects, or none when a removed id occurs; fails exactly when a removed id follows an object that was new |
| `TwoPhaseSet.RunIs` | mdv_storage/mdv_2pset.c:233-384 | a store holds only items of deliveries that were not lost, and an object for each of their ids |
| `TwoPhaseSet.Converge` | mdv_storage/mdv_2pset.c:233-384 | stores with the same removed ids that receive the same items, one object per id, in any order and repetition, singly or in batches without a removed id, end with equal maps |
| `TwoPhaseSet.ConvergeIff` | mdv_storage/mdv_2pset.c:303-384 | for arbitrary deliveries they end equal exactly when the same items came in deliveries without a removed id |
| `TwoPhaseSet.BatchWithRemovedDiverges` | mdv_storage/mdv_2pset.c:349-364 | the same two items leave different maps singly and in one batch |
| `EventBus.StepSound` | mdv_platform/mdv_ebus.c:399-497 | in every step the counter of each list equals its number of holders, what is held is allocated, lists stay free of duplicates, and no list is changed |
| `EventBus.DispatchIteratesSnapshot` | mdv_platform/mdv_ebus.c:92-111 | in any interleaving a dispatch calls, one after the other, the subscribers of the list as it was when it started, without duplicates |
| `EventBus.DispatchCallsAll` | mdv_platform/mdv_ebus.c:92-111 | a dispatch starts with the subscribers of its type at that moment and ends exactly when all of them were called |
| `EventBus.ReplacedListDrained` | mdv_platform/mdv_ebus.c:488-497 | when unsubscribe returns, no dispatch holds the list it replaced |
| `EventBus.LaterDispatchesNeverCall` | mdv_platform/mdv_ebus.c:563-582 | until it is subscribed again, only a dispatch that was running before can call the handler |
| `EventBus.LateCallIff` | mdv_platform/mdv_ebus.c:563-582 | a call after the return is possible exactly when at the unsubscribe a dispatch of that type holds an older list with the handler ahead |
| `EventBus.LateCallExample` | mdv_platform/mdv_ebus.c:563-582 | a run of three steps after which that happens |
| `EventBus.ErasedIs` | mdv_platform/mdv_ebus.c:470-473 | erasing a subscriber removes it and nothing else |
| `EventBus.ErasedKeepsOrder` | mdv_platform/mdv_ebus.c:470-473 | the other subscribers keep their order |
| `EventBus.Bus.Retain` | mdv_platform/mdv_ebus.c:74-89 | a dispatch gets the current list with one more reference, as in the step system |
| `EventBus.Bus.Subscribe` | mdv_platform/mdv_ebus.c:399-435 | a new subscriber goes to the end of a new list and the old list loses a reference; a known one changes nothing; the table moves as in the step system |
| `EventBus.Bus.Unsubscribe` | mdv_platform/mdv_ebus.c:438-485 | the subscriber is missing from a new list and the replaced one is handed out; the table moves as in the step system |
| `Framing.HeaderRead` | mdv_net/mdv_msg.c:17-22 | a header in network order is read back as id, number and size |
| `Framing.HeaderBytes` | mdv_net/mdv_msg.c:17-22 | the eight bytes of a header are id, number and payload size, the most significant byte of each first |
| `Framing.WholeMsg` | mdv_net/mdv_msg.c:33-94 | the first bytes of a stream that starts with a message are kept until they are exactly that message |
| `Framing.Delivered` | mdv_net/mdv_dispatcher.c:308-323 | in every interleaving of writers, partial writes, partial reads and pauses the delivered messages are the first ones in the order the writers took the mutex, and all of them once nothing is under way |
| `Framing.CanRead` | mdv_net/mdv_msg.c:33-94 | while bytes are left a read is possible |
| `Framing.Sink.WriteAll` | mdv_platform/mdv_def.c:44-72 | everything is written through partial writes and pauses; on an error a prefix was written |
| `Framing.Sink.WriteMsg` | mdv_net/mdv_msg.c:9-30 | header and payload are written, or nothing when the message is too long |
| `Framing.Source.Read` | mdv_platform/mdv_def.c:75-92 | any non-empty part of what is there, a pause or the end |
| `Framing.Receiver.ReadHeader` | mdv_net/mdv_msg.c:36-77 | completes the header over resumed reads; a size over the limit fails and clears the message |
| `Framing.Receiver.ReadPayload` | mdv_net/mdv_msg.c:79-91 | completes the payload over resumed reads |
| `Framing.Receiver.ReadMsg` | mdv_net/mdv_msg.c:33-94 | bytes kept before and bytes read now are together the message, or are kept |
| `Framing.Receiver.Read` | mdv_net/mdv_dispatcher.c:344-393 | a complete message is handed on and cleared, its handler's verdict is returned, and no byte behind it is read |
| `Framing.ReadExact` | mdv_net/mdv_msg.c:33-94 | a read from a stream that starts with a message hands on that message and leaves the rest, or leaves the stream as it was |
| `RowCodec.ItemRoundTripIff` | mdv_types/mdv_serialization.c:31-160 | an item of each of the 13 types is read back as it was exactly when a truth value is 0 or 1 and an unsigned 64-bit number is below 2^63 |
| `RowCodec.LargeUnsignedLost` | mdv_types/mdv_serialization.c:133-139 | 2^63 as an unsigned number cannot be read back |
| `RowCodec.StoredByte` | mdv_types/mdv_serialization.c:31-160 | byte i of a number in memory is its i-th digit to base 256 |
| `RowCodec.ItemRange` | mdv_types/mdv_serialization.c:31-160 | items of an integer type are serialized as the numbers of its 8, 16, 32 or 64 bits, and every such number is the form of some item |
| `RowCodec.ItemsRoundTripIff` | mdv_types/mdv_serialization.c:732-756 | a list of items is read back as it was exactly when every item is, and not at all otherwise |
| `RowCodec.FieldFits` | mdv_types/mdv_serialization.c:598-658 | a serialized field takes exactly the bytes reserved for it |
| `RowCodec.SerializedIff` | mdv_types/mdv_serialization.c:533-592 | a field is serialized exactly when its type is known, its bytes are whole items, and these are as many as it may hold |
| `RowCodec.SerializedAs` | mdv_types/mdv_serialization.c:560-584 | it is serialized as its single item, as its bytes, or as its items in order |
| `RowCodec.RowSerializedIff` | mdv_types/mdv_serialization.c:523-595 | a row is serialized exactly when each of its fields is |
| `RowCodec.FieldRoundTripIff` | mdv_types/mdv_serialization.c:523-768 | a serialized field is read back as it was exactly when its items are faithful |
| `RowCodec.PickedIs` | mdv_types/mdv_serialization.c:616-622 | the columns a mask selects are exactly those in it, in order; without a mask all |
| `RowCodec.ProjectPicks` | mdv_types/mdv_table.c:26-30 | a projection consists of the elements at these columns |
| `RowCodec.ProjectAll` | mdv_types/mdv_serialization.c:661-664 | without a mask nothing is left out |
| `RowCodec.DecRowPicks` | mdv_types/mdv_serialization.c:701-760 | decoding under a mask decodes the fields at these columns, each by itself, and fails only when one of them cannot be read |
| `RowCodec.ProjectionCommutes` | mdv_types/mdv_serialization.c:523-768 | for every row that serializes and every mask: decoding gives the fields at the columns of the mask in order exactly when these are faithful, the same fields serialize again under the sliced table to the masked values, and the reserved bytes are exactly theirs |
| `RowBuffer.BinnField` | mdv_types/mdv_serialization.c:533-592 | one field is serialized, or refused exactly for its type, its size or its number of items |
| `RowBuffer.BinnRow` | mdv_types/mdv_serialization.c:523-595 | the loop serializes the row exactly when every field can be, and stops at the first refused field |
| `RowBuffer.CalcRowSize` | mdv_types/mdv_serialization.c:598-658 | the loop sums the bytes and counts the fields the mask selects |
| `RowBuffer.ReadField` | mdv_types/mdv_serialization.c:709-756 | one field is read to the free space and nothing before it is touched |
| `RowBuffer.UnbinnRowSlice` | mdv_types/mdv_serialization.c:667-768 | the loop reads the fields at the columns of the mask into a block of the calculated size; each starts where the one before it ends, and the last ends where the block ends |
| `RowBuffer.TableSize` | mdv_types/mdv_table.c:20-40 | the size is exactly that of the name and the selected field names with their null characters |
| `RowBuffer.SliceTable` | mdv_types/mdv_table.c:43-109 | the sliced table describes exactly the fields at the columns of the mask, in order, and its strings fill the block exactly |

## Left out

- `VmStack.ByteStack.Run`: programs with inline constants only; a pushed external pointer would let `NOT` write to memory outside the stack.
- `TrackerClass.Merge`: when only the receiver knows the link and ids meet, nothing is said about the receiver's links; the difference is then wrong (`TopologyDiff.Diff`).
- `Rowdata.View.Fetch`: the filter is an arbitrary verdict per row; the source's filter accepts every row.
- `RowBuffer.BinnField`: a single-item field must hold its item; the source reads past an empty one.
- `RowBuffer.BinnRow`: the same for the fields of a row.
- `RowBuffer.CalcRowSize`: the values have the shapes of their fields; what binn answers about other values is not part of this model.
- `RowBuffer.ReadField`: the same for one field.
- `Framing.Receiver.Read`: the verdict of a handler is any function of the message; a waiting request that takes the message, and the verdict for an unknown message id, are two such functions.
- `RowBuffer.UnbinnRowSlice`: the serialized row has the shapes of its table; rows of another table are not modelled, nor are the header of the row block and the alignment of its parts.
- `RowCodec.ItemRoundTripIff`: floating-point values are kept as their bytes; signalling NaNs are not modelled.
- `Framing.Sink.WriteAll`: the number of pauses is finite.
- `LruCache.Cache.Put`: a null item handed back for key 0 looks like no item, as in the source.
- `Topology.Create`: the extra data block with addresses is not modelled; addresses are values of the nodes.
- `mdv_binn_rowset` and `mdv_unbinn_rowset`: they apply the row codec row by row.
- `mdv_2pset_reserve_ids_range`: a counter under a mutex.
- The hash functions of links and UUIDs, and the memory layout of messages and tables.
- LMDB, binn, uECC, sha3, sockets, epoll, timers, the thread pool and request slots of the dispatcher: foreign or operating-system code; only the map, list or mutex behaviour is used.
- SQL lexer, paginator, predicate parser and router: stubs, generated code, or built on sources that are not part of this model.
- `mdv_tables.c` and its view: the paging of row data again.
- Reference counting of other objects, rollbackers, logging, configuration and the command-line client.
