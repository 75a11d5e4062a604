# A verified model of the µD3TN node

µD3TN is a delay-tolerant-networking node: it receives bundles over convergence layers, keeps
them in memory, splits and reassembles them, hands them to local applications and passes them on
when a contact comes up. This project models the parts of the node (and of its Python helpers)
that carry the hard obligations, and proves what they promise:

- **The bundle store** (`StoreSpec`, `AvlTree`, `BundleStore`) is an AVL tree with parent links,
  rotated in place. Whatever operations are performed, it answers like a plain map, stays
  balanced with exact stored heights, and hands out fresh 16-bit identifiers across wrap-around.
- **Fragments and duplicates** (`Bundles`, `KnownBundleList`, `DuplicateSuppression`,
  `NodeDuplicates`, `Reassembly`, `Processor`, `Delivery`, `Bundle7`, `Fragmentation`): a BPv7 bundle that is split
  any number of times is delivered exactly once, when its last missing fragment arrives, in any
  order, with duplicates and amid arbitrary other traffic. Sizes of BPv7 bundles are exact.
- **Checksums** (`Crc`, `CrcTables`, `CrcEntries`, `CrcCode`): table-driven registers against
  division by the generator polynomial bit by bit, with all 768 table entries of the C code, and the
  detection of bursts.
- **BPv6 streams** (`Sdnv`, `Bundle6`, `Bundle6Parser`, `Bundle6RoundTrip`, `Bundle6Quota`,
  `RxTask`): the byte-driven parser reads back what the serializer writes, if and only if the quota
  has room for it, and the receiving task, however the stream is cut into reads, sends the bundles
  that a parser taking one byte at a time would send.
- **The application agent protocol** (`Aap`) and **router configuration** (`Config`): round trips
  through parsers that are fed pieces of any size.
- **The transmission task and the shutdown of a link** (`BundleSerializer`, `TxShutdown`,
  `TxReports`, `TxDisconnects`, `TxProgress`): a state machine of all interleavings of producers,
  transmission task, receiving task, disconnect calls and cleanup; what its reports mean, when a
  disconnect call fails or leaves its command behind, and when the task can still exit.
- **Contact lists** (`ContactLists`) and **the broadcast simulation** (`Broadcast`).
- `Wrappers` holds the shared option type and small helpers, `Chains` the joining of runs of byte-driven machines.

Conventions. Byte strings are sequences of `Byte`; integer widths and truncations of the C code
are written out where they matter (`% U16`, `% U32`, `Add32`). Objects that the source changes in
place are classes or arrays; each method is proved against a function or a predicate of the
state, and the promises are lemmas about those. A parser or protocol run is described by a chain
of single steps (`Goes`, `Receives`, `Reaches`).

## Findings

Some things the source means to do, or says it does, are not what the code does. The model follows
the code; for each of these there is a concrete input and the exact condition.

- The gap check of reassembly only compares neighbours in the list. Fragments that cover the whole
  data unit are not recognised if a nested one is followed by a gap of its own
  (`Reassembly.NestedFragmentsStuck`, `Reassembly.CompleteIffChain`, `Reassembly.CompleteIffCovered`).
- `bundle_attempt_reassembly` goes on with a fragment that it has just discarded. This happens when
  its data unit was reassembled before, but also for a single fragment that holds the whole data
  unit, because its own entry in the known list counts as that of the data unit
  (`Processor.UsedAfterDiscardIff`).
- The minimum size of a first fragment adds room for the fragment fields if the bundle *is* a
  fragment, although the comment says otherwise; so the first fragment of a whole bundle exceeds
  the requested size (`Fragmentation.FitsIffFragment`, `Fragmentation.FirstPartSize`).
- `fast_reflected` computes a wrong checksum, on every message, for every model whose initial value
  is not its own mirror image, such as `crc16_riello` (`Crc.FastIffPalindrome`, `CrcCode.RielloAlwaysWrong`).
- An SDNV reader that is fed two more bytes after the end reports an error and then success with a
  wrong value, if and only if the value that the second byte makes fits (`Sdnv.RevivedAfterError`).
  This is a property of the functions: no caller in the node goes on after an error.
- The BPv6 header length is stored in 16 bits; if it does not fit, the parser always fails
  (`Bundle6RoundTrip.RecalculatedRoundTrip`).
- The BPv6 parser adds the storage in use when a bundle begins to what the bundle takes. So whether a
  bundle is read depends on the bundles stored before it, and a bundle that fits into the quota by
  itself fails when less room is left (`Bundle6Quota.ReadBackIffFits`).
- `bundle_serialize` drops the results of the serializers, and the transmission task does not look at
  failing send callbacks. A success is reported for exactly the bundles that were found and have version
  6 or 7 (`TxReports.SuccessIffAccepted`), even if the link broke or an EID of a BPv7 bundle cannot be
  written (`TxReports.SuccessForStump`, `BundleSerializer.DtnEidFits`).
- An application message with a payload and an empty EID ends before its payload (`Aap.ReadBackIff`).
- After a `recv` the application agent processes one message at most. A second message that came with
  it stays in the buffer until more bytes come (`Aap.Agent.Receive`, `Aap.Session`).
- `contacts_overlap` does not notice a contact that contains a later one
  (`ContactLists.ContainedUnnoticed`, `ContactLists.DisjointIff`).
- A disconnect call reads the queue handle, tests what it has read, and may then wait for room before it
  pushes to it. For a call from a thread other than the link's own tasks the assertion about the handle
  fails if and only if the call reads it after the cleanup has reset it (`TxDisconnects.FailsIff`). Worse, a
  push meets a deleted queue, and the assertion has passed, if and only if the call read the handle before
  the reset and pushes after the deletion (`TxDisconnects.MeetsDeletedIff`,
  `TxDisconnects.PushMeetsDeleted`). The one call of this kind in the repository
  (components/cla/zephyr/cla_ml2cap.c:416) comes from the thread that runs the cleanup afterwards.
- The exit command stays in the transmission queue if and only if it is pushed after the task's last
  attempt to drain the queue and before the queue is deleted, whether or not the handle is still valid
  then (`TxDisconnects.CommandLeftIff`, `TxDisconnects.CommandAfterExit`,
  `TxDisconnects.CommandAfterReset`).
- The transmission task is the only one that takes from its queue. So it waits for itself for ever if the
  link breaks while the queue is full (`TxProgress.StuckReached`). The contact manager for scheduled
  contacts waits for room while it holds the queue's semaphore
  (components/routing/contact/contact_manager.c:186); if the link becomes inactive while it does, it and
  the task, which wants the semaphore before it drains the queue, wait for each other
  (`TxProgress.WaitForEachOtherReached`). The same follows if both are to push into the last free place.
  From every other reachable state the exit can be reached, though it may need a disconnect call by another
  thread, because the task waits for an empty queue without a limit (`TxProgress.ExitReachableIff`).
- A bundle whose identity is that of a data unit that has been reassembled is refused although it has not
  arrived before (`NodeDuplicates.TakenAsNewIff`).
- While all 65535 identifiers are taken, the search for one never ends (`StoreSpec.ProbeEndsIff`).

## Model

| member | source | states |
|---|---|---|
| `BundleStore.Store.Rotate` | components/ud3tn/bundle_storage_manager.c:63-104 | a rotation to either side relinks both nodes and the subtree between them, keeps parent links and exact heights, and touches no other node |
| `AvlTree.RotationInOrder` | components/ud3tn/bundle_storage_manager.c:63-104 | a rotation keeps the in-order sequence of the entries |
| `AvlTree.SingleRotationBalance` | components/ud3tn/bundle_storage_manager.c:147-171 | a single rotation at a node out of balance by two gives an AVL tree, with its height determined |
| `AvlTree.DoubleRotationBalance` | components/ud3tn/bundle_storage_manager.c:147-171 | so does a double rotation when the inner subtree is the higher one |
| `BundleStore.Store.RestoreBalance` | components/ud3tn/bundle_storage_manager.c:147-171 | the choice between no, single and double rotation always restores the AVL property of the subtree |
| `BundleStore.Store.RebalanceFrom` | components/ud3tn/bundle_storage_manager.c:147-171 | walking up from a subtree whose height has changed leaves a sound AVL tree with the same entries, after any number of rotations |
| `BundleStore.Store.FindNodePtr` | components/ud3tn/bundle_storage_manager.c:106-130 | the search ends at the slot of the node with the id, or at the empty slot between smaller and larger ids |
| `BundleStore.ParentFwdPtrIs` | components/ud3tn/bundle_storage_manager.c:133-143 | the slot computed from the parent link is the one on the path to the node |
| `BundleStore.Store.AddNode` | components/ud3tn/bundle_storage_manager.c:252-275 | adding an absent id adds exactly its entry |
| `BundleStore.Store.DeleteLeaf` | components/ud3tn/bundle_storage_manager.c:173-250 | removing a node without successors leaves a sound tree without its entry |
| `BundleStore.Store.DeleteOneChild` | components/ud3tn/bundle_storage_manager.c:173-250 | so does removing a node with one successor |
| `BundleStore.Store.DeleteTwoChildren` | components/ud3tn/bundle_storage_manager.c:173-250 | so does removing a node with two, whose neighbour in the higher subtree takes its place |
| `BundleStore.Store.DeleteNodeAtPtr` | components/ud3tn/bundle_storage_manager.c:173-250 | deletion removes exactly the entry of the node and keeps the tree valid |
| `BundleStore.Store.Contains` | components/ud3tn/bundle_storage_manager.c:301-313 | membership in the map of stored bundles |
| `BundleStore.Store.Get` | components/ud3tn/bundle_storage_manager.c:315-335 | the bundle stored under an id, if any |
| `BundleStore.Store.Delete` | components/ud3tn/bundle_storage_manager.c:337-361 | the map without the id; the answer says whether it was there |
| `BundleStore.Store.Add` | components/ud3tn/bundle_storage_manager.c:279-299 | with fewer than 65535 bundles stored, a fresh non-zero id is found and mapped to the bundle |
| `StoreSpec.ProbeFindsFree` | components/ud3tn/bundle_storage_manager.c:279-299 | the wrapping search for an id reaches a free non-zero one whenever fewer than 65535 are taken |
| `StoreSpec.ProbeEndsIff` | components/ud3tn/bundle_storage_manager.c:286-288 | the search ends, within one round, if and only if some valid id is not taken |
| `StoreSpec.FreeIffFewer` | components/ud3tn/bundle_storage_manager.c:286-288 | which is the case exactly while fewer than 65535 ids are taken |
| `BundleStore.Store.Replay` | components/ud3tn/bundle_storage_manager.c:252-361 | any sequence of operations gives the replies of a plain map, and leaves a valid AVL tree of height 22 at most |
| `AvlTree.HeightBound` | components/ud3tn/bundle_storage_manager.c:9-32 | an AVL tree of at most 65535 nodes is at most 22 high, so the 8-bit height does not overflow |
| `AvlTree.BalancedSize` | components/ud3tn/bundle_storage_manager.c:24-32 | a balanced tree has at least as many nodes as the Fibonacci-like bound of its height |
| `KnownBundleList.List.RemoveBefore` | components/ud3tn/known_bundle_list.c:76-111 | popping from the head while expired |
| `KnownBundleList.List.AddIfNotExists` | components/ud3tn/known_bundle_list.c:113-164 | one pass that finds a match or inserts at the first later deadline |
| `KnownBundleList.List.ContainsReassembledParent` | components/ud3tn/known_bundle_list.c:174-189 | a full search for the data unit of a fragment |
| `KnownBundleList.List.RecordAddAndCheckKnown` | components/ud3tn/bundle_processor.c:1052-1066 | expiry, check and recording in one |
| `KnownBundleList.EarlyExitExact` | components/ud3tn/known_bundle_list.c:113-164 | in a deadline-sorted list the early exit misses no entry with the same identity and deadline |
| `KnownBundleList.ExpiryExact` | components/ud3tn/known_bundle_list.c:76-111 | in a deadline-sorted list, popping from the head removes exactly the expired entries |
| `KnownBundleList.InsertSorted` | components/ud3tn/known_bundle_list.c:113-164 | insertion keeps the list sorted and adds one entry |
| `DuplicateSuppression.AcceptedIsFirst` | components/ud3tn/known_bundle_list.c:113-164 | in every run of arrivals and reassemblies with a clock that does not go back, an arrival is accepted as new if and only if it is in time and its identity has neither arrived nor been reassembled before |
| `DuplicateSuppression.AtMostOnce` | components/ud3tn/known_bundle_list.c:113-164 | no identity is accepted after it has arrived or been reassembled |
| `NodeDuplicates.KnownIsHistory` | components/ud3tn/bundle_processor.c:525-722 | the known list of a node is what its arrivals, and the reassemblies that they complete, write into it |
| `NodeDuplicates.NotedIff` | components/ud3tn/bundle_processor.c:525-722 | the identities written in a run are those that arrived and those of the data units reassembled |
| `NodeDuplicates.TakenAsNewIff` | components/ud3tn/bundle_processor.c:1052-1066 | in every run of a node, a bundle is taken as new if and only if it is in time and its identity has neither arrived nor been reassembled before |
| `NodeDuplicates.NodeTakesOnce` | components/ud3tn/bundle_processor.c:1052-1066 | the second of two bundles of the same identity is refused |
| `DuplicateSuppression.DeadlineFixed` | components/ud3tn/bundle.c:417-428 | a bundle with a creation time has the same deadline whenever it is computed |
| `Reassembly.AddToList` | components/ud3tn/bundle_processor.c:575-599 | a fragment is put in front of the first one with a larger offset |
| `Reassembly.InsertKeepsOrder` | components/ud3tn/bundle_processor.c:575-599 | the list stays ordered by offset |
| `Reassembly.CheckGaps` | components/ud3tn/bundle_processor.c:601-636 | the first loop decides whether the walk over the list reaches the end without a gap |
| `Reassembly.CopyAll` | components/ud3tn/bundle_processor.c:637-679 | the second loop, in place on the new buffer |
| `Reassembly.ReassemblySound` | components/ud3tn/bundle_processor.c:601-679 | for slices of one data unit in any overlap, nesting or order: if the check passes, every byte is written and the payload is the data unit |
| `Reassembly.CompleteIffCovered` | components/ud3tn/bundle_processor.c:601-636 | the check passes exactly if all bytes are there, when no fragment ends before one that precedes it in the list |
| `Reassembly.CompleteIffChain` | components/ud3tn/bundle_processor.c:601-636 | for any slices: the check passes exactly if neighbours up to one that reaches the end leave no gap between them |
| `Reassembly.NestedFragmentsStuck` | components/ud3tn/bundle_processor.c:601-636 | three fragments, wherever they begin and end, that cover a data unit without passing the check because the nested one ends before the third begins |
| `Processor.BundleProcessor.Deliver` | components/ud3tn/bundle_processor.c:525-564 | duplicate check, recipient check, reassembly or delivery |
| `Processor.BundleProcessor.AttemptReassemblyOf` | components/ud3tn/bundle_processor.c:681-722 | the slot of the data unit is found or created, and reassembly attempted |
| `Processor.BundleProcessor.TryReassembleSlot` | components/ud3tn/bundle_processor.c:601-679 | a complete slot is recorded as known, delivered and removed |
| `Processor.DeliverLocalOk` | components/ud3tn/bundle_processor.c:525-722 | every local delivery keeps slots and known list in order, and delivers only to a recipient |
| `Processor.UsedAfterDiscardIff` | components/ud3tn/bundle_processor.c:681-722 | when a discarded fragment is used nevertheless |
| `Delivery.LastPieceDelivers` | components/ud3tn/bundle_processor.c:525-722 | in every run the arrival of a fragment delivers the data unit exactly if it was the last one missing |
| `Delivery.ExactlyOnce` | components/ud3tn/bundle_processor.c:525-722 | over a whole run the data unit is delivered once if all fragments arrived in time, else never |
| `Delivery.OtherArrives` | components/ud3tn/bundle_processor.c:525-722 | traffic of other data units does not affect ours |
| `Bundle7.UintSize` | components/bundle7/bundle7.c:24-46 | between one and nine bytes |
| `Bundle7.HeadSize` | components/bundle7/bundle7.c:24-46 | the calculated size is that of the shortest CBOR head |
| `Bundle7.HeadReadBack` | components/bundle7/serializer.c:153-157 | a CBOR head is read back, whatever follows it |
| `Bundle7.UintToByteString` | components/bundle7/serializer.c:236-240 | setting one bit in the head of an integer gives the head of a byte string |
| `Bundle7.EidSizeExact` | components/bundle7/bundle7.c:48-78 | an EID that can be written has the calculated size |
| `Bundle7.WriteCrc` | components/bundle7/serializer.c:46-79 | the checksum field over the item with the field's value set to zero |
| `Bundle7.Serialize` | components/bundle7/serializer.c:124-272 | fails exactly for a wrong version or an EID that cannot be written, else emits the wire format, piece by piece and with streamed checksums; after a failure, what was written ends before the first EID that cannot be |
| `Bundle7.SerializeBlock` | components/bundle7/serializer.c:216-263 | one block of the wire format |
| `Bundle7.SizeExact` | components/bundle7/bundle7.c:147-163 | with the header recalculated, the serialized size is the calculated one if and only if unknown flags do not make the stored flags longer |
| `Bundle7.PrimarySizeExact` | components/bundle7/bundle7.c:94-122 | the exact size of the primary block |
| `Fragmentation.FirstFragmentMinSize` | components/bundle7/bundle7.c:183-223 | the minimum size as the code accumulates it |
| `Fragmentation.BundleObject.Fragment` | components/bundle7/fragment.c:12-131 | when a bundle is split, refused or left as it is, and what both halves are; a bundle that is not split is unchanged |
| `Fragmentation.ReplicateBlocks` | components/bundle7/fragment.c:36-64 | the must-replicate blocks in order |
| `Fragmentation.FirstPartSize` | components/bundle7/bundle7.c:183-223 | the exact size of the first fragment relative to the room asked for |
| `Fragmentation.FitsIffFragment` | components/bundle7/fragment.c:15-27 | the first fragment keeps the limit if and only if the bundle was a fragment before (or the limit exceeds the minimum by more than 32 bits hold) |
| `Fragmentation.CutsKeepPieces` | components/bundle7/fragment.c:12-131 | however often and in whatever order a bundle is split, the pieces are a partition of its payload; the first keeps all blocks, every other carries exactly the must-replicate blocks in order and then the payload |
| `Fragmentation.FragmentedDeliveredOnce` | components/ud3tn/bundle_fragmenter.c:13-54 | splitting and delivery together: exactly one delivery if all pieces arrive in time, with the last one missing, of what would be delivered if the bundle had not been split |
| `Delivery.EveryPieceDelivers` | components/ud3tn/bundle_processor.c:525-722 | at any place of a run a piece adds the whole data unit to the deliveries if it is the last one missing, else nothing |
| `CrcEntries.TableRight` | components/ud3tn/crc.c:32-259 | each of the 768 entries of the three tables is what eight steps of the division, mirrored for two of them, give for its index |
| `CrcEntries.StepsRight` | pyd3tn/pyd3tn/crc.py:206-243 | shifting and adding machine words is division of bit sequences, for any number of steps |
| `CrcEntries.LinearRight` | components/ud3tn/crc.c:32-259 | a table whose entries add up is right if its entries for single bits are |
| `CrcCode.Lookup` | components/ud3tn/crc.c:73-73 | the literal entry for an index is the calculated one |
| `Crc.LookupIsDivision` | components/ud3tn/crc.c:141-147 | looking up the calculated entry is eight steps of the division |
| `Crc.LowFollowsRemainder` | components/ud3tn/crc.c:68-79 | the register that is updated with mirrored entries is the mirror image of the remainder, after any message |
| `CrcCode.ReflectedOneShot` | components/ud3tn/crc.c:81-92 | looking up the literal tables gives CRC-16/X.25 and CRC-32C of any byte string, by the bitwise definition |
| `CrcCode.CcittFalse` | components/ud3tn/crc.c:154-175 | CRC-16/CCITT-FALSE likewise |
| `CrcCode.CrcStream.FeedBytes` | components/ud3tn/crc.c:291-298 | feeding in pieces, each byte looked up in the literal table, is feeding the concatenation |
| `CrcCode.CrcStream.FeedEof` | components/ud3tn/crc.c:261-320 | the streamed checksum is that of all bytes in one |
| `Crc.BurstDetected` | components/ud3tn/crc.c:68-92 | messages that differ only within a window no wider than the checksum have different checksums |
| `Crc.BurstsOfBlocks` | components/ud3tn/crc.c:261-288 | two bytes for CRC-16/X.25, four for CRC-32C |
| `CrcCode.PythonCrc.CalculateTable` | pyd3tn/pyd3tn/crc.py:206-243 | both tables hold the divisions of all byte values |
| `CrcCode.PythonCrc.FastReflected` | pyd3tn/pyd3tn/crc.py:177-204 | the reflected register, started from the initial value as it is |
| `CrcCode.PythonCrc.Call` | pyd3tn/pyd3tn/crc.py:136-175 | the bitwise checksum on the general path, the fast path otherwise |
| `Crc.FastIffPalindrome` | pyd3tn/pyd3tn/crc.py:177-204 | the fast path is right if and only if the initial value is its own mirror image |
| `CrcCode.RielloAlwaysWrong` | pyd3tn/pyd3tn/crc.py:275-275 | a defined model for which it is wrong on every message |
| `Sdnv.DoneIffReadable` | components/bundle6/sdnv.c:15-92 | each reader is done after a string, and not before, exactly if it is well formed, not longer than 2, 3, 5 or 10 bytes and in range; it then has the value |
| `Sdnv.ReadAfterWrite` | components/bundle6/sdnv.c:54-190 | reading after writing is the identity, whatever follows |
| `Sdnv.EncodeShortest` | components/bundle6/sdnv.c:94-148 | no well-formed string for the value is shorter |
| `Sdnv.SizeExact` | components/bundle6/sdnv.c:94-148 | the size functions give the length of the shortest encoding |
| `Sdnv.Reader.Read` | components/bundle6/sdnv.c:54-92 | one byte |
| `Sdnv.Reader.ReadAll` | components/bundle6/parser.c:300-318 | reading on while the value is in progress is feeding the string, and stops at the byte that ends it |
| `Sdnv.Write` | components/bundle6/sdnv.c:150-190 | the buffer, filled backwards, holds the shortest encoding |
| `Sdnv.PythonEncode` | pyd3tn/pyd3tn/sdnv.py:4-30 | the unbounded encoder gives the same string |
| `Sdnv.PythonDecode` | pyd3tn/pyd3tn/sdnv.py:33-52 | the value and length of the well-formed prefix, or an error if there is none |
| `Sdnv.RevivedAfterError` | components/bundle6/sdnv.c:54-72 | after any encoding, a refused byte and one more: success again if and only if the value with the last byte fits, and then with that wrong value |
| `Bundle6.CalculateDict` | components/bundle6/bundle6.c:145-228 | one running length gives all dictionary offsets |
| `Bundle6.SerializeDictionary` | components/bundle6/bundle6.c:13-73 | the terminated strings, one after the other, in place |
| `Bundle6.ReadBack` | components/bundle6/parser.c:124-151 | each identifier is found at its offsets |
| `Bundle6.HeaderLengthExact` | components/bundle6/bundle6.c:230-274 | the header length exceeds what it must cover by the sizes of version, flags and length field |
| `Bundle6.Serialize` | components/bundle6/serializer.c:23-126 | the wire format of a bundle without references |
| `Bundle6Parser.ReadByte` | components/bundle6/parser.c:169-593 | every byte keeps the parser's structure filled as its stage demands |
| `Bundle6RoundTrip.NumberGoes` | components/bundle6/parser.c:300-318 | an encoded number takes the parser to what follows the number, if the countdown has room |
| `Bundle6RoundTrip.BlocksGo` | components/bundle6/parser.c:491-584 | the serialized blocks are collected and the last one sends the bundle |
| `Bundle6RoundTrip.RoundTrip` | components/bundle6/parser.c:169-593 | parsing the serialized bytes gives the same bundle, with whole seconds, RFC 5050 flags and normalised identifiers, if the announced length covers the primary block |
| `Bundle6RoundTrip.ShortLengthFails` | components/bundle6/parser.c:320-332 | if it does not, the parser fails and sends nothing |
| `Bundle6RoundTrip.RecalculatedRoundTrip` | components/bundle6/bundle6.c:230-274 | with the header length recalculated, parsing succeeds if and only if that length fits into 16 bits |
| `Bundle6Quota.ReadBackIffFits` | components/bundle6/parser.c:222-275 | a bundle whose length field covers its primary block is read back if and only if the storage in use when it begins, its dictionary and its data together do not exceed the quota |
| `Bundle6Quota.TooLongFails` | components/bundle6/parser.c:264-270 | if they do, the parser fails and sends nothing |
| `RxTask.Parser.Read` | components/bundle6/parser.c:595-640 | whatever it takes of a buffer, bulk reads included, the parser ends up where the byte-wise parser does |
| `RxTask.Receiver.Forward` | components/cla/cla_contact_rx_task.c:97-124 | the version byte selects the parser; an unknown one is kept |
| `RxTask.Receiver.ParseInput` | components/cla/cla_contact_rx_task.c:287-323 | parsing the buffer is receiving its parsed part byte by byte; why it stops |
| `RxTask.Receiver.BulkDone` | components/cla/cla_contact_rx_task.c:230-250 | a bulk read is receiving its bytes one by one |
| `RxTask.ReadDirectly` | components/cla/cla_contact_rx_task.c:186-228 | reads past the buffer until the awaited length is there |
| `RxTask.Task.ChunkRead` | components/cla/cla_contact_rx_task.c:259-323 | keeps the loop invariant |
| `RxTask.Task.BulkRead` | components/cla/cla_contact_rx_task.c:140-250 | keeps the loop invariant |
| `RxTask.Task.Consume` | components/cla/cla_contact_rx_task.c:338-394 | clearing, shifting or dropping the buffer keeps the loop invariant |
| `RxTask.Task.Run` | components/cla/cla_contact_rx_task.c:325-395 | at the top of the loop, received bytes are consumed bytes followed by the buffer, and the bundles sent are those of the byte-wise receiver on the consumed bytes |
| `RxTask.StreamDelivered` | components/cla/cla_contact_rx_task.c:140-395 | a stream of serialized bundles makes the receiver send exactly these, in order, whatever storage is in use at each reset, if each bundle fits the quota next to what is in use when it begins |
| `Aap.SerializedSize` | components/aap/aap_serializer.c:23-49 | the number of bytes that are serialized |
| `Aap.Serialize` | components/aap/aap_serializer.c:51-88 | the wire format of a message |
| `Aap.ParseProgresses` | components/aap/aap_parser.c:44-201 | in the middle of a message, a call of the parser takes a part of the rest or waits for more; never anything beyond the message |
| `Aap.Parser.ParseAap` | components/agents/posix/application_agent.c:125-143 | the loop over the parser's calls |
| `Aap.LoopProgresses` | components/agents/posix/application_agent.c:125-143 | the loop ends the message if and only if the buffer has all of it, and otherwise leaves fewer than eight bytes |
| `Aap.Agent.Receive` | components/agents/posix/application_agent.c:389-432 | leftover bytes are carried over; the next message of the stream is processed if and only if what was left over and received has all of it, and no other |
| `Aap.Session` | components/agents/posix/application_agent.c:389-432 | a stream of messages in any segmentation is processed in order, with each `recv` the next message if it has been received wholly; so all of them if each ends where a segment ends, but only the first of those that one `recv` takes |
| `Aap.Agent.ParseMessage` | components/agents/posix/application_agent.c:389-432 | one message of the buffer is processed exactly if the buffer has all of it |
| `Aap.FramedProcessed` | components/agents/posix/application_agent.c:389-432 | if there is a `recv` up to the end of each message, all messages are processed |
| `Aap.ReadBackIff` | components/aap/aap_parser.c:82-106 | a message is read back, consuming exactly its serialized size, if and only if one with a payload has an EID |
| `Config.Parser.Read` | components/agents/config_parser.c:442-483 | the byte loop: a failure resets the parser, the end of a command sends it once |
| `Config.DecimalNumber` | components/agents/config_parser.c:142-172 | printed numbers are read back |
| `Config.ContactsGo` | components/agents/config_parser.c:331-432 | the printed list of contacts is read in order |
| `Config.EndpointsGo` | components/agents/config_parser.c:286-314 | so is the list of endpoints |
| `Config.RoundTrip` | python-ud3tn-utils/ud3tn_utils/config.py:93-124 | a printed message is parsed back to the same command, EID, address, endpoints and contacts, done exactly at the final semicolon |
| `BundleSerializer.BundleSerialize` | components/ud3tn/bundle.c:351-369 | the result says whether the version is 6 or 7; whether the bundle was written wholly is another matter; what is on the link in each case |
| `BundleSerializer.DtnEidFits` | components/bundle7/serializer.c:163-167 | an EID of the scheme `dtn` can be written if and only if it has at most 128 characters |
| `BundleSerializer.AnnouncedTooMuch` | components/cla/cla_contact_tx_task.c:63-75 | what is left of a bundle that cannot be written is shorter than the size announced to the link |
| `TxShutdown.ExecKeeps` | components/cla/cla_contact_tx_task.c:44-128 | every interleaving keeps conservation, truthful reports, mutual exclusion and the order of the shutdown |
| `TxShutdown.ReportedOnceInOrder` | components/cla/cla_contact_tx_task.c:44-128 | at any time the reports are those of the first bundles pushed, each once; of all of them after the exit |
| `TxShutdown.QueueEmptyAtExit` | components/cla/cla_contact_tx_task.c:103-127 | the exit is prepared in a step that finds the queue empty and locked, with no producer inside |
| `TxShutdown.NothingAfterExit` | components/cla/cla.c:254-274 | after the exit no bundle can be pushed, and nothing is reported any more |
| `TxReports.SuccessIffAccepted` | components/cla/cla_contact_tx_task.c:77-97 | in every run a report is a success if and only if its attempt found a bundle of version 6 or 7 |
| `TxReports.ReportRightIff` | components/cla/cla_contact_tx_task.c:71-97 | when a report tells whether the bundle was transmitted |
| `TxReports.SuccessAnyway` | components/cla/cla_contact_tx_task.c:71-97 | for every such bundle, runs that report success with a link that breaks and with one that does not |
| `TxReports.SuccessForStump` | components/ud3tn/bundle.c:351-369 | a run that reports success for a bundle of which only the start was written |
| `TxDisconnects.FailsIff` | components/cla/cla_contact_tx_task.c:153-162 | in every run the assertion about the handle fails if and only if another thread's call reads the handle after it was reset |
| `TxDisconnects.MeetsDeletedIff` | components/cla/cla.c:264-274 | in every run a push meets a deleted queue if and only if another thread's call read the handle before it was reset and pushes after the deletion |
| `TxDisconnects.ArmedHaveRead` | components/cla/cla.c:310-317 | a call that is about to push has read the handle before it was reset |
| `TxDisconnects.OwnTasksFindQueue` | components/cla/cla.c:310-317 | disconnect calls by the link's own tasks always find the handle valid and the queue there |
| `TxDisconnects.OutsideCallFails` | components/cla/cla_contact_tx_task.c:153-162 | a run in which the assertion fails |
| `TxDisconnects.PushMeetsDeleted` | components/cla/cla.c:264-274 | a run in which it passes and the push meets a deleted queue |
| `TxDisconnects.CommandLeftIff` | components/cla/cla.c:254-274 | in every run the queue is not empty after the exit if and only if a command was pushed after the last attempt to drain it and before it was deleted |
| `TxDisconnects.LateInQueue` | components/cla/cla_contact_tx_task.c:103-127 | it then holds exactly as many exit commands |
| `TxDisconnects.CommandAfterExit` | components/cla/cla_contact_tx_task.c:153-162 | a run in which the exit command arrives after the exit |
| `TxDisconnects.CommandAfterReset` | components/cla/cla.c:264-274 | a run in which it arrives after the handle was reset, though the assertion has passed |
| `TxProgress.ExitReachableIff` | components/cla/cla_contact_tx_task.c:44-128 | from a reachable state the exit can be reached, without a failing wait for the queue, if and only if the task neither waits for room for its own command, nor for a producer that waits for room, nor competes with one for the last place |
| `TxProgress.StuckForever` | components/cla/cla_contact_tx_task.c:44-128 | otherwise no step whatever helps |
| `TxProgress.StuckReached` | components/cla/cla_contact_tx_task.c:153-162 | a run, for every queue length, after which the task waits for room in the queue that only it empties |
| `TxProgress.WaitForEachOtherReached` | components/routing/contact/contact_manager.c:168-187 | a run, for every queue length, after which the task and a producer wait for each other |
| `ContactLists.Verify` | components/ud3tn/node.c:431-453 | success if and only if no contact overlaps a later one, as the code defines it |
| `ContactLists.VerifiedIsStrict` | components/ud3tn/node.c:431-453 | success means distinct start times |
| `ContactLists.DisjointIff` | components/ud3tn/node.c:423-429 | verified contacts are disjoint if and only if none contains a later one |
| `ContactLists.ContainedUnnoticed` | components/ud3tn/node.c:423-429 | two contacts that overlap and are accepted |
| `ContactLists.Union` | components/ud3tn/node.c:287-341 | the slot-wise merge |
| `ContactLists.MergedSorted` | components/ud3tn/node.c:287-341 | the union is strictly sorted |
| `ContactLists.MergedMeans` | components/ud3tn/node.c:287-341 | at every start time it has what either list has; on a tie the existing contact is kept, and updated if it also ends at the same time |
| `ContactLists.ModifiedMeans` | components/ud3tn/node.c:258-285 | the modified list has exactly the merged contacts whose bitrate changed |
| `ContactLists.Subtract` | components/ud3tn/node.c:343-402 | the slot-wise difference |
| `ContactLists.DifferenceMeans` | components/ud3tn/node.c:343-402 | exactly the contacts matched on start and end by an endpoint-less entry are removed; matched ones with endpoints lose these |
| `ContactLists.DeletedMeans` | components/ud3tn/node.c:362-368 | the deleted list has exactly the removed contacts |
| `ContactLists.AtDetermines` | components/ud3tn/node.c:287-402 | a strictly sorted list is determined by what starts when |
| `Broadcast.Visit` | sim/kth_walkers.py:228-251 | one pair of nodes |
| `Broadcast.Sweep` | sim/kth_walkers.py:226-251 | one pass informs only nodes that must be, and if it informs nobody the informed set is closed |
| `Broadcast.Pass` | sim/kth_walkers.py:223-253 | passes until nothing changes: the least closed superset of the nodes informed before; the number of uninformed nodes bounds the passes |
| `Broadcast.LeastUnique` | sim/kth_walkers.py:223-253 | that set is unique, so the order of the pairs does not matter |
| `Broadcast.Simulate` | sim/kth_walkers.py:200-255 | at the end of every second, and with contact times that follow the code, the informed nodes are the least closed superset of those before |

## Left out

- Memory allocation failure, freeing and leaks: allocation is taken to succeed, and C strings are byte sequences without NUL.
- Locks around the bundle store and the known list; the running byte count of the store, which only holds if payloads do not change between add and delete.
- BundleStore.Store.Rotate: nodes live at addresses in a map that stands for the memory, instead of Dafny objects; links, heights and parent pointers are fields of the nodes at these addresses.
- BundleStore.Store.Add: requires fewer than 65535 stored bundles, because the source searches forever when all ids are taken (`StoreSpec.ProbeEndsIff`).
- Custody transfer, status reports, hop counts and the full retention-constraint machine of the bundle processor.
- Processor.BundleProcessor.AttemptReassemblyOf: the use of a freed bundle is recorded in a flag; its effect on memory is not modelled.
- NodeDuplicates.TakenAsNewIff: needs non-zero creation times, as the deadline of other bundles depends on the clock at each arrival, and equal lifetimes for bundles with the same source and time stamps.
- Bundle7.Serialize: checksum types other than none, 16 and 32 bits are excluded; the source would write an uninitialised checksum for them.
- Bundle7.EidSizeExact: what `sscanf` reads from an `ipn` EID is a parameter; a NULL EID is not modelled.
- Fragmentation.BundleObject.Fragment: shrinking the payload to zero bytes with `realloc` is taken to succeed; results about repeated splitting are for non-empty parts.
- The BPv7 parser, which drives a CBOR library, and TinyCBOR itself beyond heads of integers and strings.
- CrcCode.ReflectedOneShot: registers are bit sequences; only the table entries are machine words.
- CrcCode.PythonCrc.CalculateTable: register bits beyond the width, which Python integers may carry, are not kept.
- Bundle6.Serialize: blocks with EID references are excluded; the source indexes them wrongly. The parser's stages for references are modelled.
- BPv6 fragmentation.
- Bundle6Parser.ReadByte: the storage in use is read at each reset as one of an arbitrary sequence of numbers, not computed from the bundles stored; the SDNV reader keeps the number that is being read instead of writing it to its field at once.
- Bundle6Quota.ReadBackIffFits: sums of storage and sizes beyond 32 bits, which would wrap, are excluded.
- RxTask.Task.Run: framing layers (MTCP, TCPCL, SPP) are left out, so all received bytes go to the version selection; a bundle that begins with the version 7 byte ends the run.
- Aap.Session: the sending side, registration and message processing are left out; `recv` returns at least one byte.
- Config.Parser.Read: the clock is one value per call; reliability values beyond `int` are reduced to 16 bits.
- ContactLists.Verify: the sort before the verification is not modelled; its result is the argument.
- ContactLists.Union: endpoint lists are sets, and contact capacities are not recalculated; the modified list holds copies, where the source's shares the merged contacts, which differs if the second list has several contacts with one start time.
- TxProgress.ExitReachableIff: says that the exit can be reached, not that a fair scheduler reaches it.
- TxDisconnects.MeetsDeletedIff: what a push into a deleted queue does to memory is not modelled, nor calls on a link that has been freed.
- BundleSerializer.BundleSerialize: a link that fails in the middle of a bundle is part of `TxShutdown`; the bytes it has taken by then are not modelled.
- Broadcast.Simulate: positions are replaced by the set of near pairs, and node lifetimes by the list of alive nodes in each second.
- Sockets, tasks, command line, Zephyr and POSIX glue, MTCP and TCPCL framing, hash tables, plotting and mobility models.
