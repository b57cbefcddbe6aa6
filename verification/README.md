# zetanet: a verified model of its core

This project models five connected parts of the zetanet networking library and proves what they promise:

* **The lock-free ordered hash map** that holds receipts. `HashMapProtocol` is a transition system in which any
  number of threads interleave the single atomic accesses of `insert`, `find` and `remove`; `HashMapInvariants`,
  `HashMapSteps` and `HashMapTheorems` prove reachability, lookups and the order chain, `HashMapLinearization` that each
  operation takes effect at a moment of its own, `HashMapValues` which value a node holds, `HashMapRefusal` when an
  insert is refused, `HashMapRemoval` what a remove must do, `HashMapProgress` when a thread gets to the end alone,
  `HashMapCollection` when garbage can be collected once all threads are idle; `RefusedInsert` is a run that goes wrong
  there. `SequentialMap` is the same map as a heap object with its collector and bucket iterator, `MapRuns` its whole
  runs and loops over it, `MapLaws` what such a run answers and leaves, said by its operations alone.
* **Reliable delivery.** `Reliable` is one endpoint (queues, dispatcher, receipts, receive loop, retry scan,
  `RateLimiter`) as functions; `PacketQueue` is the packet queue as a mutable object over the real map, each of whose
  methods does to the object what those functions say; `ReliableNetwork` lets any number of endpoints exchange
  datagrams over a network that loses, duplicates and reorders; `ReliableCounters`, `ReliableDelivery`,
  `ReliableTheorems` and `ReliableOrigin` prove what every step keeps and what holds in every run. `ReliableAnswers` is
  what one operation must do, with the source's numbers, `ReliableHistory` what a run obliges an endpoint to do,
  `ReliableProgress` that every datagram can still be settled.
* **File transfer.** `TransferChunks` (arithmetic, names, the binary chunk), `FileSend`, `FileReceive`, and
  `FileTheorems`: any arrival order rebuilds the file. `FileAssembly` is the path that collects all chunks first.
* **The packet codec.** `PacketCodec` (what a packet is), `PacketBuffers` (the buffer filled in place, the offset that
  moves), `PacketTheorems` (round trip and damage).
* **The packet buffer pool.** `PoolTuning` (size classes, targets, the byte budget as accounts), `BufferPool` and
  `PacketPool` (the pool as a mutable object that moves as the accounts say), `PacketHandles` (packets as handles),
  `PacketPrograms` (what a program of packet operations means), `PacketRuns` (the real pool does that), `IdleRetune`;
  `PoolShares` (the exact targets of a retune).

`EndToEnd` puts codec, reliable delivery and file transfer together; `ReorderedTransfer` is a run it needs.

`WireLe`, `Fields` and `Fnv` are the byte order, the fixed-width records and the FNV-1a checksum they all rest on;
`WireFormat` is the bytes of packets and chunks, written out.

Check the project with `dafny verify dfyconfig.toml`.

## Conventions

* Integers are unbounded; where a width matters it is written out: the 64-bit sum in `CalculateTotalChunks` wraps, packet
  ages are taken modulo 2^32, a packet's size is truncated to 32 bits, the header checksum to 16.
* Memory is a map from addresses to nodes or blocks; `delete` removes an address, so a dangling link is a link to an
  address outside the map. Addresses of new nodes are arbitrary unused ones.
* Outside decisions are parameters: clocks, whether a datagram reaches the socket, how many bytes the disk takes,
  whether the transport accepts a chunk, whether a weak compare-and-swap fails. LZ4 and the cipher are functions of which
  only the inverse laws are assumed (`PacketCodec.InversePairs`).
* `rank`, `slot`, `linked` and `clock` in the concurrent map, `delivered`, `acked`, `dropped`, `lastScan` in the network, and
  the ghost fields of the classes are history: no step depends on them.

## Where the code does less than expected

Each of these is a property one would expect, an input that breaks it, and the exact condition under which it holds.

* A packet that was effectively compressed and is larger than 64 MiB is built but always rejected by the receiver.
  Input: `PacketTheorems.OversizedIsRejected`, at codec level, for a compressor that knows only runs of zeros; that what
  LZ4 makes of so large a payload also fits one datagram is not claimed. Condition: `Expandable`, in
  `PacketTheorems.RoundTrip`.
* A due retune does not restore the byte budget when no pooled size was asked for since the last `ResetStats`.
  Input: `IdleRetune.IdleRetuneKeepsBoost`, a family of programs of public operations that end over the budget.
  Condition: `PacketPrograms.RetuneRestoresBudget` (if and only if), and over a whole program `KeepsBudget`, in
  `PacketPrograms.ProgramWithinBudget` and `PacketRuns.Run`.
* The sender does not check the file name that receivers check, and that check refuses more than paths that lead out
  of the directory. Input: the name `a..`, `TransferChunks.TrailingDotsAreRefused`. Condition: `FileSend.SentIsAcceptable`
  says which chunks are accepted and which rejected; `FileTheorems.UnsafeNameNeverArrives` what becomes of the file.
* All chunks of a file can be acknowledged and the file never arrive: a chunk handed over before chunk 0 is not
  written, and deduplication keeps it from coming again. Input: `EndToEnd.AcknowledgedButLost`, for every file of two
  chunks. Condition: `EndToEnd.AcknowledgedFileArrives` and `EndToEnd.OnceMeansFirstLeads` (if and only if). A sender can
  make sure of it by waiting for the acknowledgement of chunk 0: `EndToEnd.WaitingSenderDelivers`.
* An insert can be refused although its key is absent and every thread idle: a remove that finds its node no longer at
  the head gives up unlinking it, and the deleted node stays on its chain. Input: `RefusedInsert.AbsentButRefused`, and
  `RefusedInsert.RefusedAgain`: nothing has changed for the next insert. Condition: `HashMapRefusal.RefusedExactly`
  (if and only if the chain of the bucket leads to a node with the key), for an insert whose bucket the other threads
  leave alone. Whatever they do, a key never published before is accepted and a key live throughout is refused:
  `HashMapRefusal.NeverPublishedIsAccepted`, `HashMapRefusal.LiveIsRefused`.
* The map is not lock-free for inserts: one that stops between setting the order head and setting the tail makes every
  other insert that has to append spin. Input: `HashMapProgress.InsertWaits`, an insert that takes any number of steps
  of its own without ending. Condition: `HashMapProgress.AloneFinishes` (alone, every find and remove ends, and every
  insert does unless the head is set and the tail is not) and `HashMapProgress.WaitsForSetter` (it then waits for that
  one thread, whatever the others do).
* Collecting garbage after a remove gave up unlinking, with every thread idle, leaves a bucket link to freed memory. Input:
  `HashMapCollection.AbandonedUnlinkDangles`. Condition: `HashMapCollection.CollectingIsSafeExactly` (if and only if no
  bucket chain leads to a deleted node), which single-threaded histories always meet.
* One changed byte of a packet goes unnoticed in the sequence and acknowledgement numbers and in some compression
  metadata: `PacketTheorems.DamageIsRejected` gives the exact set of positions.
* Four seconds between retry scans is the limit below which nothing is given up unacknowledged:
  `ReliableTheorems.FiveSecondGapDrops` loses a receipt with five.

## Model

| member | source | states |
|---|---|---|
| `HashMapTheorems.StepInv` | znet/fancy_queue.h:290-399 | every atomic step of insert, find and remove, by any thread, keeps the bucket and order-chain invariants and what every other thread knows |
| `HashMapTheorems.RunInv` | znet/fancy_queue.h:290-510 | the invariant holds in every state of every interleaving |
| `HashMapTheorems.RunExtends` | znet/fancy_queue.h:60-98 | in every reachable state every thread can take its next step: no pointer it may follow dangles |
| `HashMapTheorems.LiveNodesReachable` | znet/fancy_queue.h:296-335 | a node once published and not deleted is reachable from its bucket head in every later state |
| `HashMapTheorems.UnlinkBypassesDeleted` | znet/fancy_queue.h:83-98 | an unlink CAS, even with a stale successor, bypasses only deleted nodes |
| `HashMapTheorems.LookupNeverMisses` | znet/fancy_queue.h:60-73 | a walk never passes a key that was live throughout; it can only end at that node, and find, remove and insert then act on it |
| `HashMapTheorems.WalkTerminates` | znet/fancy_queue.h:60-73 | each own step of a walk lowers the insertion index it stands on, which bounds its length by the number of nodes published when it began |
| `HashMapTheorems.OrderChainSound` | znet/fancy_queue.h:337-398 | the chain from the order head is acyclic, holds each linked node once in link order, contains the tail, and holds every node whose insert returned true |
| `HashMapTheorems.RealTimeOrder` | znet/fancy_queue.h:337-398 | an insert that returned before another began precedes it on the chain |
| `HashMapTheorems.NodePersists` | znet/fancy_queue.h:473-510 | keys and chain positions never change and a deletion mark is permanent |
| `HashMapLinearization.MissOrRemoveTakesEffect` | znet/fancy_queue.h:403-510 | a find that reports a miss, and a remove whatever it reports, has a moment between start and end at which no live node holds the key, in every interleaving |
| `HashMapLinearization.FoundTakesEffect` | znet/fancy_queue.h:403-428 | a find that reports a node has a moment at which that node is live with the key |
| `HashMapLinearization.LiveIsFound` | znet/fancy_queue.h:403-417 | a find reports the node that holds the key live from its start to its end, if there is one |
| `HashMapLinearization.AbsentIsMissed` | znet/fancy_queue.h:403-417 | a find of a key that no live node holds from its start to its end reports a miss |
| `HashMapValues.InsertStoresValue` | znet/fancy_queue.h:290-331 | in any interleaving the node of an insert that reports success holds the key and the value the insert was called with, then and ever after |
| `HashMapValues.EntryNeverChanges` | znet/fancy_queue.h:26-31 | no insert, find or remove of any thread changes the key or the value of a node |
| `HashMapValues.NodeHasInsert` | znet/fancy_queue.h:314-331 | every published node was published by a thread inside an insert called with exactly its key and value |
| `HashMapValues.FoundValueWasInserted` | znet/fancy_queue.h:403-417 | the value a find reports is the one an insert of that key was called with, the insert that published the node found |
| `HashMapRemoval.LiveIsRemoved` | znet/fancy_queue.h:473-510 | in any interleaving a remove that begins while a node with its key is live, and no other thread marks that node, reports success and has marked it |
| `HashMapRemoval.RemovedIsMarked` | znet/fancy_queue.h:473-510 | a remove reports success or failure, success only if a published node with its key is marked deleted by then |
| `HashMapRemoval.RemovesExactly` | znet/fancy_queue.h:75-98 | a remove whose bucket the others leave alone succeeds if and only if a node of the chain, live or deleted, has the key; it marks the first such node and takes it off the chain, and the rest of the chain stays as it was |
| `HashMapProgress.AloneFinishes` | znet/fancy_queue.h:337-398 | from every reachable state a thread that goes on alone ends its operation, except an insert while the order head is set and the tail is not |
| `HashMapProgress.WaitsForSetter` | znet/fancy_queue.h:347-365 | an insert that found no tail does not end, whatever the other threads do, until the one thread that set the head sets the tail |
| `HashMapProgress.HasSetter` | znet/fancy_queue.h:350-361 | whenever the head is set and the tail is not, some thread stands between setting the one and the other |
| `HashMapProgress.OneSetter` | znet/fancy_queue.h:350-361 | there is never more than one such thread |
| `HashMapProgress.InsertWaits` | znet/fancy_queue.h:347-365 | for every number of steps a run in which an insert takes them alone and has not ended |
| `HashMapLinearization.InsertTakesEffect` | znet/fancy_queue.h:290-335 | an insert that reports success has one step that turns the absent key into a present one, held by its node; the value it holds is the subject of `HashMapValues.InsertStoresValue` |
| `HashMapLinearization.RefusalTakesEffect` | znet/fancy_queue.h:296-312 | an insert that reports failure, in any interleaving, has a moment at which a published node, deleted or not, holds the key; when exactly that refuses it is the next row |
| `HashMapRefusal.RefusedExactly` | znet/fancy_queue.h:290-399 | an insert whose bucket the others leave alone until it has decided, over all its retries, is refused if and only if its bucket chain led to a node with the key when it began, and succeeds otherwise |
| `HashMapRefusal.NeverPublishedIsAccepted` | znet/fancy_queue.h:296-331 | in any interleaving an insert of a key never published before is not refused |
| `HashMapRefusal.LiveIsRefused` | znet/fancy_queue.h:299-304 | in any interleaving an insert of a key that is live from its start to its end is refused |
| `RefusedInsert.AbsentButRefused` | znet/fancy_queue.h:83-98 | a run that ends with every thread idle and an insert refused although no live node held its key at any moment of it |
| `RefusedInsert.RefusedAgain` | znet/fancy_queue.h:300-312 | from there an undisturbed insert of the key is refused and leaves everything as it was, any number of times |
| `HashMapCollection.RestIsCollectable` | znet/fancy_queue.h:337-398 | after any history, once all threads are idle, the order chain holds every published node once, live keys are unique, and the tail is the last node |
| `HashMapCollection.CollectingIsSafeExactly` | znet/fancy_queue.h:430-469 | after any history, once all threads are idle, collecting leaves no bucket link to freed memory if and only if no bucket chain led to a deleted node |
| `HashMapCollection.AbandonedUnlinkDangles` | znet/fancy_queue.h:459-468 | a run that ends with every thread idle, after which collecting leaves such a link |
| `HashMapSteps.UnlinkBucket` | znet/fancy_queue.h:83-98 | the unlink keeps every link covering only deleted nodes |
| `HashMapSteps.PublishBucket` | znet/fancy_queue.h:316-331 | the head CAS puts the new node above everything in its bucket and keeps the invariant |
| `HashMapSteps.Guarantee` | znet/fancy_queue.h:290-510 | a step of one thread is harmless to what any other thread relies on |
| `SequentialMap.LockFreeOrderedHashMap.constructor` | znet/fancy_queue.h:250-256 | an empty map with at least one bucket |
| `SequentialMap.LockFreeOrderedHashMap.FindInBucket` | znet/fancy_queue.h:60-73 | finds the node of a live key and its predecessor link, or shows that no live node has the key |
| `SequentialMap.LockFreeOrderedHashMap.Find` | znet/fancy_queue.h:403-428 | a value is found exactly when the abstract map has the key, and it is that entry |
| `SequentialMap.LockFreeOrderedHashMap.Insert` | znet/fancy_queue.h:290-399 | appends the entry unless the key is present, and says which |
| `SequentialMap.LockFreeOrderedHashMap.Remove` | znet/fancy_queue.h:473-510 | removes exactly the entry of the key; the removed node keeps its own link |
| `SequentialMap.LockFreeOrderedHashMap.CollectGarbage` | znet/fancy_queue.h:430-469 | the abstract map is unchanged, exactly the deleted nodes are freed, the order chain becomes the live nodes, no link leads to freed memory |
| `SequentialMap.LockFreeOrderedHashMap.CollectNodes` | znet/fancy_queue.h:430-469 | whatever the bucket links are, exactly the deleted nodes are freed, the rest keep their keys, values and bucket links, and the order chain becomes the live nodes with no link to freed memory |
| `SequentialMap.LockFreeOrderedHashMap.UnlinkDeleted` | znet/fancy_queue.h:435-457 | the order chain becomes the live nodes in insertion order, with a correct tail |
| `SequentialMap.LockFreeOrderedHashMap.Sweep` | znet/fancy_queue.h:459-468 | in-place compaction keeps the live nodes and frees the deleted ones |
| `SequentialMap.LockFreeOrderedHashMap.Begin` | znet/fancy_queue.h:224-247 | iteration starts with everything in the buckets still to visit |
| `SequentialMap.LockFreeOrderedHashMap.Advance` | znet/fancy_queue.h:177-195 | moving on takes exactly the current node off what remains |
| `SequentialMap.LockFreeOrderedHashMap.RemoveVisited` | znet/z_packet_queues.cc:181-191 | removing the entry being visited leaves what remains unaffected |
| `SequentialMap.FlattenLive` | znet/fancy_queue.h:224-247 | the buckets together list every live node exactly once |
| `MapRuns.Run` | znet/fancy_queue.h:280-510 | every single-threaded run of insert, find, remove and collect answers and ends as the insertion-ordered map does |
| `MapLaws.RunLeaves` | znet/fancy_queue.h:280-510 | after every single-threaded run the map has exactly the keys inserted since they were last removed, each with the value of the first such insert, in the order of those inserts |
| `MapLaws.AnswersFollow` | znet/fancy_queue.h:280-510 | in every single-threaded run an insert succeeds if and only if there is no such insert before it, a remove if and only if there is one, and a find reports its value |
| `MapRuns.ForEach` | znet/fancy_queue.h:104-247 | a loop whose body removes or overwrites the visited entry visits every live entry exactly once, then stands at the end |
| `MapRuns.Visit` | znet/fancy_queue.h:141-151 | one iteration deals with exactly one entry and keeps the rest of the loop intact |
| `RateLimiter.RateBound` | znet/z_packet_queues.cc:78-114 | any interval of length L admits at most (floor(L)+2) times the per-window cap, in packets and in bytes, in every run |
| `RateLimiter.CheckWithinCap` | znet/z_packet_queues.cc:78-114 | within a window the counters never exceed the configured limits |
| `RateLimiter.MustAdmit` | znet/z_packet_queues.cc:78-114 | in every run a request is admitted whenever those of the second that ends with it, admitted or refused, are no more than the regular packets and the burst, and no more bytes than the limit |
| `Reliable.NextIndex` | znet/z_packet_priority_queue.h:36-48 | the next packet is the first one of the highest priority present |
| `ReliableAnswers.DispatchAnswer` | znet/z_packet_dispatcher.h:70-129 | the next packet leaves its queue, which otherwise stays as it was, and is sent under the next number if and only if the socket takes it and it goes to the server or a known peer |
| `ReliableAnswers.ReceiveAnswer` | znet/z_packet_queues.cc:245-261 | every datagram that is no acknowledgement is handed over as it is, unless it is reliable and its number is recorded; every reliable one queues exactly one acknowledgement of its number to its sender |
| `ReliableAnswers.ClearAnswer` | znet/z_packet_queues.cc:262-282 | a datagram clears exactly the receipt whose number it acknowledges, if it comes from where the packet went or the packet went to the server or to everyone; all others stay |
| `ReliableAnswers.ScanRepeats` | znet/z_packet_queues.cc:181-195 | a scan sends the packet of every receipt more than one and at most five seconds old that has somewhere to go, under its number, and nothing else |
| `ReliableAnswers.ScanGivesUp` | znet/z_packet_queues.cc:181-195 | a scan drops exactly the receipts more than five seconds old, gives the time to those more than one second old and leaves the others |
| `ReliableCounters.PushCounters` | znet/z_packet_queues.h:56-70 | pushing keeps the counters right |
| `ReliableCounters.DispatchCounters` | znet/z_packet_queues.cc:205-234 | dispatching keeps the counters right |
| `ReliableCounters.AcknowledgeCounters` | znet/z_packet_queues.cc:262-282 | clearing a receipt keeps the counters right, so its subtraction never saturates |
| `ReliableCounters.QueueAckCounters` | znet/z_packet_queues.cc:291-329 | an ack that bypasses Push leaves the control counter at or below what is queued |
| `ReliableCounters.ScanCounters` | znet/z_packet_queues.cc:178-197 | the scan takes exactly the dropped receipts and their bytes off the counters |
| `ReliableDelivery.ReceiveAckInv` | znet/z_packet_queues.cc:262-282 | receiving an acknowledgement keeps the delivery invariant |
| `ReliableDelivery.ReceiveDataInv` | znet/z_packet_queues.cc:245-261 | receiving a packet keeps the delivery invariant; what it hands over and acknowledges is `ReliableAnswers.ReceiveAnswer` |
| `ReliableDelivery.DispatchInv` | znet/z_packet_dispatcher.h:96-150 | sending keeps it: a new number, a receipt for every reliable packet |
| `ReliableDelivery.ScanInv` | znet/z_packet_queues.cc:178-197 | the retry scan keeps it: retransmissions repeat datagrams already sent; which ones is `ReliableAnswers.ScanRepeats` |
| `ReliableDelivery.RunInv` | znet/z_packet_queues.cc:164-329 | the invariant holds in every state of every run over the lossy network |
| `ReliableTheorems.NeverDeliveredTwice` | znet/z_packet_queues.cc:250-260 | no (source, sequence number) is delivered twice |
| `ReliableTheorems.ClearedMeansDelivered` | znet/z_packet_queues.cc:262-282 | when a receipt is cleared, the end that acknowledged has delivered exactly that packet exactly once |
| `ReliableTheorems.SentIsAccountedFor` | znet/z_packet_dispatcher.h:96-150 | every reliable datagram ever sent is pending with its contents, was dropped by the scan, or was delivered exactly once |
| `ReliableTheorems.CountersExact` | znet/z_packet_queues.h:83-98 | in every reachable state the awaiting-ack and data counters are exact and the control counter never exceeds what is queued |
| `ReliableOrigin.SentWasPushed` | znet/z_packet_dispatcher.h:70-129 | in every run, whatever datagram is on the network was pushed by its sender's application with that type and payload, unless it is an acknowledgement |
| `ReliableHistory.DeliveredIsHanded` | znet/z_packet_queues.cc:243-261 | in every run an application gets exactly what arrived, in that order: every unreliable packet each time, every reliable one the first time its number arrives from its source |
| `ReliableHistory.PushWithinLimitsIsQueued` | znet/z_packet_queues.h:56-70 | in every run a packet is queued on its channel whenever what its application pushed in the second before is within the limits |
| `ReliableHistory.SentAgainExactly` | znet/z_packet_queues.cc:178-197 | in every run a scan sends a datagram again if and only if it awaits acknowledgement and was last sent more than one and at most five seconds ago, and gives it up if and only if it was longer ago |
| `ReliableHistory.RepeatedInTime` | znet/z_packet_queues.cc:20-24 | in every run with scans at most four seconds apart, whatever still awaits acknowledgement was last sent no longer than a second before the last scan |
| `ReliableProgress.CanAlwaysSettle` | znet/z_packet_queues.cc:245-282 | from every reachable state, whatever was lost, the run can go on so that a reliable datagram is handed over exactly once and its receipt cleared |
| `ReliableTheorems.ScanKeepsRecent` | znet/z_packet_queues.cc:178-197 | a scan at most four seconds after the last drops nothing and leaves every survivor at most a second old |
| `ReliableTheorems.NothingDropped` | znet/z_packet_queues.cc:178-197 | with scans at most four seconds apart no receipt is ever dropped |
| `ReliableTheorems.TimelyScansLoseNothing` | znet/z_packet_queues.cc:20-21 | with such scans every reliable packet sent is pending or was delivered exactly once |
| `ReliableTheorems.FiveSecondGapDrops` | znet/z_packet_queues.cc:183-190 | a run with scans five seconds apart that drops an unacknowledged receipt |
| `PacketQueue.ZPacketQueue.constructor` | znet/z_packet_queues.cc:36-60 | an empty queue over an empty receipt table |
| `PacketQueue.ZPacketQueue.CheckRateLimit` | znet/z_packet_queues.cc:78-114 | updates the window fields and answers as the limiter function does |
| `PacketQueue.ZPacketQueue.PushPacket` | znet/z_packet_queues.h:56-70 | the object becomes what pushing to the endpoint gives |
| `PacketQueue.ZPacketQueue.SendOne` | znet/z_packet_dispatcher.h:70-129 | the object and the datagram sent are those of dispatching the packet |
| `PacketQueue.ZPacketQueue.AddReceiptIfNeeded` | znet/z_packet_dispatcher.h:131-150 | the object becomes what adding the receipt to the endpoint gives: a reliable first transmission gets one under its number, counted once |
| `PacketQueue.ZPacketQueue.ProcessChannel` | znet/z_packet_queues.cc:205-234 | dispatches as many packets as are queued, up to the limit, in order, with the datagrams they produce |
| `PacketQueue.ZPacketQueue.ReceiveOne` | znet/z_packet_queues.cc:236-289 | the object becomes what receiving the datagram gives; the incoming queue gets exactly its contents unless it is an acknowledgement or a reliable packet already recorded |
| `PacketQueue.ZPacketQueue.AddAwaitingAckPacket` | znet/z_packet_queues.cc:291-329 | queues the ack and honours a piggybacked one |
| `PacketQueue.ZPacketQueue.ClearReceipt` | znet/z_packet_queues.cc:262-282 | removes the receipt an ack names if it came from where the packet went |
| `PacketQueue.ZPacketQueue.RetryScan` | znet/z_packet_queues.cc:178-197 | the loop over the live table drops, resends and keeps exactly what the scan of the whole table does; what it sends is every receipt more than one and at most five seconds old that has somewhere to go, and nothing else |
| `PacketQueue.ZPacketQueue.Retransmit` | znet/z_packet_dispatcher.h:39-68 | the same datagram again, under its original number |
| `PacketQueue.ZPacketQueue.CollectReceipts` | znet/z_packet_queues.cc:173-176 | collection does not change the endpoint |
| `WireLe.LoadStore` | znet/z_wire_le.h:111-142 | loading what was stored gives the value, for every width |
| `WireLe.StoreLoad` | znet/z_wire_le.h:111-142 | storing what was loaded gives the bytes, for every width |
| `WireLe.SwapReverses` | znet/z_wire_le.h:32-69 | the shifts and masks of the byte swaps reverse the bytes |
| `WireLe.HostIndependent` | znet/z_wire_le.h:77-142 | the bytes on the wire do not depend on the host's byte order, for 16, 32 and 64 bits |
| `WireLe.Read` | znet/z_wire_le.h:162-196 | a cursor read succeeds exactly when the bytes are there, and advances past them |
| `Fnv.UpdateChecksum` | znet/z_file_transporter.cc:95-102 | the loop computes the running checksum |
| `Fnv.UpdateConcat` | znet/z_file_transporter.cc:95-102 | feeding pieces in turn is feeding their concatenation |
| `Fnv.SubstitutionDetected` | znet/z_packet_serdes.cc:70-77 | inputs differing in one byte have different checksums |
| `Fnv.LowSubstitutionDetected` | znet/z_packet_serdes.cc:79-85 | so have their checksums truncated to sixteen bits |
| `Fnv.KnownChecksums` | znet/z_packet_serdes.cc:70-77 | the checksums of no bytes and of the letter a are the published FNV-1a values |
| `TransferChunks.TotalIsCeiling` | znet/z_file_transporter.cc:108-116 | the computed total is the true ceiling, or zero when the 64-bit sum wraps |
| `TransferChunks.AcceptedSizes` | znet/z_file_transporter.cc:533-570 | a consistent header has the true ceiling as its total, and its write fits the file |
| `TransferChunks.RangesPartition` | znet/z_file_transporter.cc:730-734 | the ranges of chunks 0 to total-1 lie within the file and every offset is in exactly one |
| `TransferChunks.ContainsPathTraversal` | znet/z_file_transporter.cc:68-93 | the scan objects exactly to the listed patterns |
| `TransferChunks.AcceptedNameStaysInside` | znet/z_file_transporter.cc:68-93 | an accepted name is relative and no component of it is the parent directory |
| `TransferChunks.TrailingDotsAreRefused` | znet/z_file_transporter.cc:68-93 | the scan also refuses `a..`, which has no parent component |
| `TransferChunks.RefusedNames` | znet/z_file_transporter.cc:68-93 | the scan refuses exactly the rooted names and those with a component that ends with two dots, or starts with them and is not the first |
| `TransferChunks.BuildTransferChunkPayload` | znet/z_file_transporter.cc:384-464 | builds exactly the consistent chunks, as their encoding |
| `TransferChunks.ParseTransferChunkPayload` | znet/z_file_transporter.cc:466-581 | accepts exactly the payloads that decode |
| `TransferChunks.ParseInvertsBuild` | znet/z_file_transporter.cc:384-581 | a payload is accepted as a chunk exactly when the chunk is acceptable and the payload is its encoding |
| `WireFormat.ChunkBytes` | znet/z_file_transporter.cc:384-464 | a chunk is these bytes, field by field |
| `TransferChunks.DamagedDataRejected` | znet/z_file_transporter.cc:572-576 | a payload with one data byte changed is rejected |
| `FileSend.SendFile` | znet/z_file_transporter.cc:163-308 | every payload enqueued encodes the chunk of its index; all are enqueued unless the transport refuses one |
| `FileSend.NextChunk` | znet/z_file_transporter.cc:213-273 | one iteration serializes its chunk and keeps the running checksum that of the part read |
| `FileSend.SentIsAcceptable` | znet/z_file_transporter.cc:213-273 | a receiver accepts each chunk sent as it was, except the first when the scan objects to its name: that one it rejects |
| `FileSend.AcceptedExactly` | znet/z_file_transporter.cc:466-581 | a receiver accepts exactly the chunks that cut some file as a sender does, under a name the scan does not object to; only the last flag, and with it the checksum of the file, may be missing |
| `FileReceive.PositionalWriteAt` | znet/z_file_write_interface.cc:24-38 | the write loop writes all of the data or a prefix of it, up to where the system refused |
| `FileReceive.ZFileTransporter.WriteAt` | znet/z_file_write_mmap.cc:28-41 | a mapped file refuses exactly what does not fit |
| `FileReceive.ZFileTransporter.EnsureStreamSession` | znet/z_file_transporter.cc:659-706 | finds the session, opens it on a chunk with a name, or refuses |
| `FileReceive.ZFileTransporter.StreamChunkToFile` | znet/z_file_transporter.cc:708-749 | sessions, result and completion flag are those of streaming the chunk; success is reported exactly when the chunk agrees with an open session, or opens one, and is recorded already or was written whole |
| `FileReceive.ZFileTransporter.FinalizeStreamedFile` | znet/z_file_transporter.cc:751-795 | sessions and output are those of finalizing |
| `FileReceive.ComputeFileChecksum` | znet/z_file_transporter.cc:632-657 | reading block by block gives the checksum of the whole file |
| `FileTheorems.StreamTracked` | znet/z_file_transporter.cc:708-749 | streaming a chunk, even if the disk refuses part of it, keeps every chunk already written, reports success exactly when this one is written by then, and completion exactly when all are |
| `FileTheorems.NothingBeforeFirstChunk` | znet/z_file_transporter.cc:673-675 | a chunk that arrives before chunk 0, or under a name the scan objects to, changes nothing |
| `FileTheorems.CompletionIsExact` | znet/z_file_transporter.cc:744-747 | after any arrivals, repeated, reordered and mixed with other traffic, even under the same identifier as long as the code can tell it apart, completion is reported exactly when every index has been written |
| `FileTheorems.SuccessIsExact` | znet/z_file_transporter.cc:719-748 | after any such arrivals success is reported exactly for the chunks written by then, and completion comes with success |
| `FileTheorems.FinalizeRebuildsFile` | znet/z_file_transporter.cc:751-795 | finalizing hands over the original file byte for byte exactly when every index has been written, and otherwise changes nothing, whatever the file name |
| `FileTheorems.UnsafeNameNeverArrives` | znet/z_file_transporter.cc:546-549 | for a name the scan objects to, no arrivals open a session and finalizing never hands anything over |
| `FileTheorems.DamagedFileRejected` | znet/z_file_transporter.cc:777-783 | a file with one byte changed is not handed over |
| `FileAssembly.AssembleFileFromChunks` | znet/z_file_transporter.cc:319-382 | the output is the concatenation of all chunks, exactly when all are there and the expectations are met |
| `FileAssembly.AssemblyRebuildsFile` | znet/z_file_transporter.cc:319-382 | the sender's pieces assemble to the file and meet the size and checksum it announces |
| `FileAssembly.WrongAssemblyIsRefused` | znet/z_file_transporter.cc:360-382 | a file of another size than announced, or with one byte changed under an announced checksum, is refused |
| `PacketBuffers.BuildPacket` | znet/z_packet_serdes.cc:88-201 | the buffer filled in place holds the packet as specified, there is none exactly when encryption fails or the size overflows, and the packet remembers whether it went out compressed |
| `PacketBuffers.FillPacketHeader` | znet/z_packet_serdes.cc:203-250 | the headers, with zero checksums, at their offsets |
| `PacketBuffers.CompressPayload` | znet/z_packet_serdes.cc:104-120 | compression is abandoned when it fails or does not help |
| `PacketBuffers.EncryptPayloadIfNeeded` | znet/z_packet_serdes.h:37-72 | encrypts under the sender's associated data, or fails |
| `PacketBuffers.UnpackBuffer` | znet/z_packet_serdes.cc:252-398 | accepts, decrypts and decompresses as specified |
| `PacketBuffers.ReadHeaders` | znet/z_packet_serdes.cc:252-352 | the checks and the moving offset accept exactly the packets the layout describes |
| `PacketTheorems.FlagsRoundTrip` | znet/z_packet_serdes.cc:51-68 | the flag byte unpacks to what was packed |
| `PacketTheorems.AssociatedDataAgrees` | znet/z_packet_serdes.h:110-140 | both sides compute identical associated data |
| `PacketTheorems.BuiltIsAccepted` | znet/z_packet_serdes.h:83-108 | a built packet is accepted exactly when its type is valid and on the right channel |
| `PacketTheorems.RoundTrip` | znet/z_packet_serdes.cc:88-398 | every packet that builds unpacks to the same type, channel, reliability, priority, numbers and payload exactly under the stated condition, and is rejected otherwise |
| `PacketTheorems.OversizedIsRejected` | znet/z_compression_wrapper.h:47 | packets that compress and build, for any size above 64 MiB, and are rejected |
| `PacketTheorems.RebuildIsSame` | znet/z_packet_serdes.cc:104-120 | building the packet that building left behind, as a retransmission does, gives the same bytes |
| `PacketTheorems.DamageIsRejected` | znet/z_packet_serdes.cc:276-352 | a packet with one byte changed passes the checks exactly when that byte is one no checksum covers; a plain packet is then unpacked exactly when the byte is in its two numbers |
| `WireFormat.AcceptedExactly` | znet/z_packet_serdes.cc:252-352 | a receiver accepts exactly the byte strings with this magic, version, sizes, flags, type, channel and checksums at these offsets |
| `WireFormat.ReadExactly` | znet/z_packet_serdes.cc:300-398 | what it reads stands at these offsets: type, channel, flag bits, priority, both numbers, and the payload of a plain packet; what it expands has the announced size, at most 64 MiB |
| `WireFormat.BuiltExactly` | znet/z_packet_serdes.cc:88-201 | a packet is built if and only if encryption, where asked for, has keys and succeeds, and the size stays below 2^32; it ends with the payload, compressed if that was asked for and helps, then encrypted if asked for |
| `WireFormat.SenderAuthenticates` | znet/z_packet_serdes.h:110-140 | the associated data is type, channel, flags and both numbers in these twelve bytes |
| `EndToEnd.DatagramIsWire` | znet/z_packet_dispatcher.h:96-129 | what is unpacked at the other end is exactly the datagram the reliable layer sent, kind, numbers and payload, with file packets on the control channel, or nothing |
| `EndToEnd.AcknowledgedFileArrives` | samples/file_transfer_demo/main.cc:383-432 | when every chunk, sent as a file packet, has been acknowledged each was handed over, and of the packets of that type the file results exactly when every chunk came at or after chunk 0 |
| `EndToEnd.DedupMeansOnce` | znet/z_packet_queues.cc:250-260 | chunks that travel reliably as file packets under one number each are handed over at most once |
| `EndToEnd.OnceMeansFirstLeads` | znet/z_file_transporter.cc:673-675 | chunks handed over once each arrive exactly when chunk 0 is handed over first |
| `EndToEnd.WaitingMakesFirstLead` | znet/z_file_transporter.cc:213-308 | if chunk 0 was acknowledged before any other chunk was pushed, it is handed over first, whatever the network does |
| `EndToEnd.WaitingSenderDelivers` | samples/file_transfer_demo/main.cc:383-432 | a file sent that way arrives once all chunks are acknowledged, unless its name is refused |
| `EndToEnd.AcknowledgedButLost` | samples/file_transfer_demo/main.cc:395-399 | for every file of two chunks, a run in which both are acknowledged and the file never arrives |
| `PoolTuning.SizeToClassIndex` | znet/z_network_allocator.h:227-238 | the chosen class is the smallest that fits, and there is one up to 65536 bytes |
| `PoolTuning.RetunedWithinBudget` | znet/z_network_allocator.h:298-310 | targets computed from any demand are worth at most the budget and eight blocks of each class |
| `PoolTuning.RetuneEffect` | znet/z_network_allocator.h:283-311 | a retune makes the targets affordable when some class shows demand and changes nothing when none does; what the targets then are is `PoolShares.TargetAnswer` |
| `PoolShares.ClassIs` | znet/z_network_allocator.h:227-238 | the classes are 64, 128 and so on to 65536 bytes, and a request goes to the smallest that holds it |
| `PoolShares.TargetAnswer` | znet/z_network_allocator.h:298-310 | a retune with demand sets every target to eight blocks or the largest number within the share of 16 MiB that the demand for its class is of all demand, whichever is more |
| `PoolShares.BudgetIsSpent` | znet/z_network_allocator.h:298-310 | all targets together are worth more than the budget less one block of each class, and at most the budget and eight blocks of each |
| `PacketPool.PacketBufferPool.constructor` | znet/z_network_allocator.h:204-212 | no blocks, no references, empty caches, minimal targets, no requests and no demand |
| `PacketPool.PacketBufferPool.Allocate` | znet/z_network_allocator.h:42-74 | a block nobody holds, of the smallest class that fits, out of the cache if it has one; accounts move as a request does; blocks already held are untouched |
| `PacketPool.PacketBufferPool.Retain` | znet/z_network_allocator.h:76-81 | one more reference, nothing else |
| `PacketPool.PacketBufferPool.Release` | znet/z_network_allocator.h:83-116 | one reference fewer; only the last lets the block be cached or freed; the accounts, due retune included, move as returning the block does |
| `PacketPool.PacketBufferPool.RetuneTargets` | znet/z_network_allocator.h:283-311 | every target becomes eight blocks or the largest number within the share of 16 MiB that the demand for its class is of all demand, whichever is more; caches are trimmed to that, and nothing happens without demand; held blocks are untouched |
| `PacketPool.PacketBufferPool.TrimClassCache` | znet/z_network_allocator.h:313-330 | keeps exactly the first target blocks of the cache and frees the rest |
| `PacketPool.PacketBufferPool.BoostClassCacheForSize` | znet/z_network_allocator.h:164-178 | raises the target of the smallest fitting class to the minimum asked for, if it is lower, and no other |
| `PacketPool.PacketBufferPool.ResetStats` | znet/z_network_allocator.h:150-162 | clears the figures without touching blocks or targets |
| `PacketHandles.Construct` | znet/z_packets.h:161-178 | a new packet alone holds a copy of the data; no other packet changes |
| `PacketHandles.Copy` | znet/z_packets.h:139-147 | the copy shares the block; counts stay exact |
| `PacketHandles.Move` | znet/z_packets.h:149-159 | the block changes hands without a count changing |
| `PacketHandles.CopyAssign` | znet/z_packets.h:194-205 | gives up the old block, shares the new one; self-assignment does nothing |
| `PacketHandles.MoveAssign` | znet/z_packets.h:207-221 | gives up the old block, takes over the new one; self-assignment does nothing |
| `PacketHandles.Destroy` | znet/z_packets.h:192-231 | gives up the block; every other packet carries what it did |
| `PacketHandles.CountsAreHolders` | znet/z_network_allocator.h:76-116 | a count is the number of packets holding the block, a cached block is held by none, a held block is allocated, an unheld one is cached |
| `PacketHandles.NoListTwice` | znet/z_network_allocator.h:100-110 | no block is in the free lists twice |
| `PacketHandles.CacheWithinBudget` | znet/z_network_allocator.h:283-330 | every cache is within its target, so affordable targets bound the cached bytes |
| `PacketPrograms.PacketsAreValues` | znet/z_packets.h:129-243 | sharing does not show: the meaning of a program gives each packet the bytes it would have if it owned them |
| `PacketPrograms.DemandIsAsked` | znet/z_network_allocator.h:150-162 | in every program the pool shows demand exactly when a pooled size was asked for since the last reset |
| `PacketPrograms.RetuneRestoresBudget` | znet/z_network_allocator.h:271-311 | after a retune that was due the targets are affordable if and only if a pooled size was asked for since the last reset or they were before |
| `PacketPrograms.ProgramWithinBudget` | znet/z_network_allocator.h:283-330 | in every program, unless a boost raised a target since the start or the last effective retune, targets and cached bytes are at most the budget and eight blocks of each class |
| `PoolShares.ProgramTargets` | znet/z_network_allocator.h:271-311 | in every program, when the last reference to a pooled block is given up while the packets constructed come to a multiple of 4096, the targets become those shares if a pooled size was asked for since the last reset |
| `PoolShares.OtherwiseTargetsStay` | znet/z_network_allocator.h:271-276 | at any other time giving up bytes leaves the targets alone |
| `PoolShares.OneSizeGetsAll` | znet/z_network_allocator.h:298-310 | a program that asked for one class only then has the whole budget in it, 256 blocks of the largest size, and eight blocks in every other |
| `PacketRuns.Run` | znet/z_packets.h:129-243 | in every run counts and holders agree, each packet carries the bytes it would if nothing were shared or recycled, the accounts are those the program means, caches stay within targets, and within the budget unless a boost raised a target since the last effective retune |
| `IdleRetune.IdleRetuneKeepsBoost` | znet/z_network_allocator.h:294-296 | programs of public operations whose last one sets off a retune and leaves targets and cached blocks over the budget |

## Left out

- The collector running beside inserts or removes, memory orderings other than sequential consistency, and two threads inserting the same key at once: the map's own comments require more than the code provides there.
- Reclamation while threads run: nodes of the concurrent map are freed only by collecting when all threads are idle; the node an abandoned insert deletes at once is only unreachable there, and is not among what is collected.
- HashMapValues.EntryNeverChanges: does not model a thread that writes to a value through an iterator while others run, as the retry scan does with the time of sending; `SequentialMap` and `MapRuns` do, for one thread.
- HashMapProgress.AloneFinishes: counts no thread's retries while others run; what it says is about a thread that goes on alone.
- `OrderIterator`: its constructor calls a virtual function of the derived class; the order chain is reasoned about directly.
- PacketQueue.ZPacketQueue.SendOne: does not model broadcasts (`to_all`): one number goes to every peer there, so exactly-once is stated for point-to-point traffic.
- PacketQueue.ZPacketQueue.Retransmit: does not model broadcasts, nor a retransmission whose build fails, which is a loss the next scan repeats.
- PacketQueue.ZPacketQueue.ReceiveOne: does not model goodbye messages and a full peer table; peers are identified with their addresses, and a received datagram makes its sender known.
- Several dispatch workers: reading the next sequence number and inserting the receipt are separate actions there.
- More than 2^32 sends, and 2^32 references to one block: the counters are not modelled wrapping.
- `Pop` and the order between priorities on the incoming queues, hello messages, threads and address resolution: deliveries are in the order in which they enter those queues, which is the order in which chunks, all of one priority, leave them.
- Changing the rate-limit configuration during a run: the bound is for a fixed one.
- FileSend.SendFile: does not model short reads, and takes the wait for the send window together with the transport's refusal as one answer per chunk, because both end the transfer the same way.
- FileSend.NextChunk: does not model a short read, which ends the transfer.
- FileReceive.ZFileTransporter.EnsureStreamSession: does not model failure to open the positional file, which is refused like a file too large to map.
- FileReceive.ZFileTransporter.FinalizeStreamedFile: does not model flush, read and rename failures, after which nothing is handed over.
- FileReceive.ComputeFileChecksum: does not model failed and short reads, which it reports instead of a checksum.
- FileAssembly.AssembleFileFromChunks: does not model failed and partial writes of the output file, after which it reports failure.
- FileTheorems.NothingBeforeFirstChunk: does not cover another sender's chunk under the same identifier that itself opens the session first; identifiers count from 1 in every process, so that collision is possible and the code cannot tell it.
- FileTheorems.CompletionIsExact: does not cover another sender's chunk under the same identifier with the same file size, chunk size and total, which the code takes for one of its own.
- FileTheorems.FinalizeRebuildsFile: does not cover those two collisions either.
- Temporary files are values inside the session record, as their unique owner; update in place of the mapping is not modelled separately.
- PacketBuffers.BuildPacket: does not model a null payload pointer with a positive size, which no constructor of a packet leaves behind.
- PacketTheorems.DamageIsRejected: what decryption or decompression makes of an unnoticed change is theirs to decide, so for encrypted or compressed packets it says which changes pass the checks.
- The HMAC helper, which nothing calls.
- Key derivation and nonces: the cipher is a function of plaintext and associated data.
- Packets alive at one moment are a map passed through the operations rather than objects scattered in memory.
- Demand averages are reals, not doubles; a retune that finds another thread retuning is skipped in the code and is not modelled.
- The P2P host election, sockets, logging, samples other than the receive loop of the file demo, and build scripts.
