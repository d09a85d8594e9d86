# RocksKV: a verified model

RocksKV is a partitioned, replicated key-value store. Storage nodes keep partitions in RocksDB,
append every write of a primary to a per-partition command log and ship that log to the replica.
A metadata service places partitions on nodes with a consistent-hash ring, keeps the route table in
etcd and moves roles on failure, rebalance, migration and shutdown. Compute nodes split client
batches by partition. This project models those parts in Dafny and proves what they keep over every
input, every run and every reachable state. `dafny verify dfyconfig.toml` checks all of it.

The modules come in pairs: a module of values with the specification and the theorems, and a module
with the objects whose methods are the source's loops and updates, each proved to make exactly the
step the theorems speak of.

| part | specification and theorems | objects |
|---|---|---|
| command log | `CommandCodec`, `LogModel`, `LogTheorems` | `CommandCodec.Reader`, `LogStore` |
| log shipping | `Replication`, `EndToEnd` | `Shipping` |
| fields and key space | `FieldCodec`, `KeySpace`, `FieldStore` | `KeySpace.Database` |
| write guards | `Fencing` | `NodeStore` |
| client batches | `BatchWrite` | `BatchWrite.Cluster` |
| hash ring | `HashRing`, `RingLookup` | `RingStore` |
| route table | `Routing`, `TableWrites`, `Failover`, `MigrationPlan`, `Shutdown` | `RouterStore` |
| migration scheduler | `Scheduler` | `SchedulerStore` |

`Bytes` holds big-endian integers and the byte-wise order, `Common` the shared types.

How the outside world enters:

- The CRC, the ring's hash and the key hash are function parameters; nothing is assumed of them except,
  where a statement says so, that the virtual nodes of different labels do not collide.
- A process crash keeps every byte handed to a file and any prefix of the write buffer. Clocks, file
  numbers, the fate of each request (lost, answered, applied in part with the answer lost) and the
  moments at which the etcd watch delivers are inputs of the steps.
- The database is a map from byte strings with iteration in byte order. A handler is one step.
- Integers are unbounded; widths are written out where a number is encoded (16, 32 and 64 bits), where
  the replication lag is subtracted and where the batch count is added up.

Places where the code does not do what its comments or its other half suggest; each is stated as a
lemma, with the exact condition under which the expected property does hold:

- A batch the replica refuses is not sent again: the cursor passes it (`AnswerSkipsIffRefused`,
  `PassedForGood`, `RefusedPutIsLost`).
- An acknowledged write whose log entry fails, or is still buffered when the process dies, never
  reaches the replica (`LogCountsHandlers`, `AcknowledgedPutIsLost`).
- A failed rotation uses up a sequence number (`StepKeepsNumbering`).
- A route-table write from a copy that is behind undoes the writes the copy lacks (`LostIffBehind`,
  `FailoverNeedsDeliveries`, `ShutdownNeedsDeliveries`, `RoundNeedsItsPrimaryItems`) and can lower
  epochs (`CopyFencesIff`, `StaleWriteLowersEpoch`).
- A collision on the ring leaves a position without owner after a removal (`RemoveUndoesAdd`).
- A drained node stays on as replica of the partitions it led (`ShutdownFollowsRing`).
- A cancelled active migration is recorded twice and does not count against the limit
  (`CancelledTaskCountsTwice`, `CancelledTasksExceedLimit`, `RunPlacement`, `RunningWithinLimit`).
- A route update never changes the role a node has for a partition it already holds, so a demoted
  primary goes on accepting writes (`RoleFollowsRoute`, `PrimeIffTakenOn`, `DemotedPrimaryStillAccepts`).
- A partition given up and taken on again starts at the epoch then shown, which can be lower
  (`HeldIsHighestShown`, `RetakenEpochFalls`).
- A legacy field batch whose partition id starts with a 1 byte is taken for a versioned one
  (`LegacyRoundTrip`).
- The key range of the largest partition id is empty, and keys shorter than six bytes can fall in a
  foreign range (`RangeIsPrefix`, `ShortKeyInRange`, `ShortKeyExists`).

## Model

| member | source | states |
|---|---|---|
| Bytes.BigEndianRoundTrip | pkg/storage/partition.go:57-68 | a number written big-endian in k bytes reads back exactly when it fits |
| Bytes.BigEndianOrder | pkg/storage/partition.go:112-122 | big-endian numbers of one width sort byte-wise as they sort as numbers |
| CommandCodec.EntryRoundTrip | pkg/storage/command_log.go:52-138 | an encoded entry followed by anything decodes to itself exactly when its lengths and numbers fit their fields |
| CommandCodec.EncodingLayout | pkg/storage/command_log.go:52-78 | where each field of the frame lies, with the checksum taken over everything before it |
| CommandCodec.DecodedBytes | pkg/storage/command_log.go:95-138 | whatever decodes, its encoding is the bytes it was read from |
| CommandCodec.DecodeLocal | pkg/storage/command_log.go:95-138 | decoding looks at no byte past the entry it returns |
| CommandCodec.DecodeAllCut | pkg/storage/command_log.go:479-542 | a file cut at any byte decodes to exactly the entries that were whole before the cut |
| CommandCodec.DecodeAllAppend | pkg/storage/command_log.go:208-261 | appending an encoding to a file of whole entries appends that entry to what is decoded |
| CommandCodec.DecodeEntry | pkg/storage/command_log.go:95-138 | the sequence of reads over a file takes and checks the same entry as decoding the bytes at once, and stops where it must |
| CommandCodec.EncodeEntry | pkg/storage/command_log.go:52-78 | filling the buffer by offset yields the frame with its checksum |
| LogModel.StepKeeps | pkg/storage/command_log.go:208-577 | append, failed append, flush and crash with recovery keep the log valid, and what a scan finds only ever grows at its end |
| LogModel.RecoveredView | pkg/storage/command_log.go:170-205 | recovery sees what is on disk, with its counter and its index, and opens an empty file after it |
| LogTheorems.ReadsAreStable | pkg/storage/command_log.go:293-317 | over every run, an entry once returned by a read is returned unchanged by every later read at its number |
| LogTheorems.RestartExact | pkg/storage/command_log.go:479-542 | after a crash at any byte exactly the entries whose encoding survived whole come back, with the index append had built cut down to them and numbering resumed after the last |
| LogTheorems.RestartLosesNothing | pkg/storage/command_log.go:479-542 | a crash costs no entry exactly when nothing stays behind in the buffer |
| LogTheorems.RunKeeps | pkg/storage/command_log.go:208-577 | any number of appends, flushes and crashes in any order leave a valid log that extends every earlier one |
| LogTheorems.StepKeepsNumbering | pkg/storage/command_log.go:208-261 | numbering stays without gap over a step exactly when the step is not an append that failed to rotate |
| LogTheorems.RunNumbering | pkg/storage/command_log.go:208-261 | over runs without such a failure the entries are numbered 1, 2, 3 and so on through all crashes |
| LogTheorems.AppendWrites | pkg/storage/command_log.go:208-261 | an append adds exactly its entry after everything written, whether or not it rotates |
| LogStore.IndexedReadIsComplete | pkg/storage/command_log.go:320-379 | reading on from the indexed position finds everything a scan of all files would |
| LogStore.CommandLog.constructor | pkg/storage/command_log.go:170-205 | opening a directory gives the recovered log |
| LogStore.CommandLog.Recover | pkg/storage/command_log.go:479-542 | the loop over files and entries finds the highest number and where each entry starts |
| LogStore.CommandLog.WriteBuffered | pkg/storage/command_log.go:238-243 | the buffered writer loses and reorders nothing, whatever it passes on to the file |
| LogStore.CommandLog.Append | pkg/storage/command_log.go:208-261 | makes the append step, nothing on a closed log, or the failed-append step when a due rotation fails: the number is spent and nothing is written; a written entry has the next number, is indexed where it starts, and opens a new file exactly when it would not fit the old one |
| LogStore.CommandLog.Rotate | pkg/storage/command_log.go:561-577 | a rotation to a higher file number keeps the log valid, loses and adds no entry, and leaves every entry on disk |
| LogStore.CommandLog.Sync | pkg/storage/command_log.go:424-442 | everything buffered reaches the file: what is on disk afterwards is all that was written |
| LogStore.CommandLog.Close | pkg/storage/command_log.go:445-469 | closing flushes once and closing again changes nothing |
| LogStore.CommandLog.ReadFrom | pkg/storage/command_log.go:293-317 | in every valid state, by index or by scan, returns the first `limit` entries on disk at or past `fromSeq` |
| LogStore.CommandLog.ReadFromIndex | pkg/storage/command_log.go:320-379 | returns the first wanted entries found from a position on, over the files that follow |
| LogStore.CommandLog.ReadFromFullScan | pkg/storage/command_log.go:382-421 | returns the first wanted entries over all files |
| Replication.ReplicaCatchesUp | pkg/storage/command_log_replicator.go:234-346 | over every run without an answered refusal so far (lost requests, lost answers, refusals whose answer is lost, partly applied batches, crashes, a replica that comes to hold the partition late), the entries after the cursor up to any k not before the last delivery make the replica the replay of the log up to k |
| Replication.DrainedReplicaEqualsLog | pkg/storage/command_log_replicator.go:234-287 | a replica with nothing left to read is the replay of the whole log |
| Replication.RunKeepsInv | pkg/storage/command_log_replicator.go:234-346 | the shipping invariant over all those runs |
| Replication.RunKeepsOrder | pkg/storage/command_log_replicator.go:171-174 | in every run, refusals included, checkpoint, cursor, last flushed and current number are in order, so the lag never wraps, and the checkpoint never goes back |
| Replication.CatchUpFurtherBack | pkg/storage/command_log_replicator.go:382-405 | writing again from an older position ends in the same state, which is what makes a stale checkpoint safe |
| Replication.AnswerSkipsIffRefused | pkg/storage/command_log_replicator.go:284-286 | an answered request moves the cursor past its whole batch; it passes an entry this request did not apply exactly when the partition is not held or some entry of the batch is refused |
| Replication.PassedForGood | pkg/storage/command_log_replicator.go:408-437 | what a saved answer has passed is in no later batch of the run, whatever crashes follow |
| Replication.RefusedPutIsLost | pkg/storage/command_log_replicator.go:338-345 | for every put, a run in which it is shipped before the replica holds the partition, and the replica that holds it later and has nothing left to read is without it |
| Replication.LoggedBatchRepeatsPrimary | pkg/storage/server.go:530-681 | what the field handlers log makes the replica repeat the very writes of the primary |
| Replication.EntryEffect | pkg/storage/server.go:1389-1421 | replaying a delete leaves its key absent, a put gives it its value, both under the partition prefix, and no other key changes |
| Replication.BatchEntryEffect | pkg/storage/field_storage.go:375-391 | replaying a field batch changes the named document alone, in the partition it names or, when it names 0, in the one shipped |
| Replication.AppliedIffApplicable | pkg/storage/partition.go:317-344 | a request is applied whole exactly when the partition is held and every entry is applicable by its type, the status and its decoding |
| EndToEnd.LoggedRepeats | pkg/storage/server.go:1328-1370 | what a put, a delete or a field write logs makes the replica repeat the very writes of the handler |
| EndToEnd.BatchIsPuts | pkg/storage/server.go:780-796 | the batch handler, one database write and then one log entry per item, takes the site where as many single puts take it, also when entries fail |
| EndToEnd.PrimaryIsReplayOfLog | pkg/storage/server.go:354-481 | over every run of handlers, log and shipping in which no log entry fails and no crash finds anything buffered, the data of the primary is the replay of the log |
| EndToEnd.LogCountsHandlers | pkg/storage/server.go:1328-1352 | in every run the log holds at most one entry per handler, and exactly one each exactly when no log entry failed and no crash left anything in the buffer |
| EndToEnd.DrainedReplicaEqualsPrimary | pkg/storage/command_log_replicator.go:234-287 | if moreover no refusal was answered, a flushed log with nothing left to ship means that replica and primary hold the same data |
| EndToEnd.ReadyIsNeverRejected | pkg/storage/server.go:1373-1433 | in every run of handlers, log and shipping in which the replica holds the partition in normal status whenever something is shipped, no answer is ever a refusal: every logged entry can be applied |
| EndToEnd.ReadyReplicaEqualsPrimary | pkg/storage/command_log_replicator.go:234-346 | over those runs, if no entry was lost, a flushed log with nothing left to ship means that replica and primary hold the same data |
| EndToEnd.AcknowledgedPutIsLost | pkg/storage/server.go:396-415 | for every put that fits the write buffer, a run in which it is acknowledged, the primary crashes before it reaches the file, and the replica with nothing left to ship lacks it |
| Shipping.Replica.Replicate | pkg/storage/server.go:1373-1433 | applies entries up to the first refused one and names the last applied; succeeds exactly when the partition is held, deletes meet it in normal status, field batches decode and everything else meets it in normal or migrating-in status, and has then applied them all |
| Shipping.Replicator.constructor | pkg/storage/command_log_replicator.go:62-91 | recovers the log and starts the cursor at the checkpoint, or at 0 without one |
| Shipping.Replicator.SyncToReplica | pkg/storage/command_log_replicator.go:234-287 | at most 500 entries after the cursor are sent; the cursor and the checkpoint move only on an answer, to the last entry sent, and the replica takes what it did not refuse of what reached it |
| FieldCodec.VersionedRoundTrip | pkg/storage/field_storage.go:134-193 | the versioned form decodes to the batch exactly when every number and length fits |
| FieldCodec.LegacyRoundTrip | pkg/storage/field_storage.go:172-278 | the form without version byte decodes to the batch exactly when it fits and the partition id does not start with a 1 byte, short reads that pad with zeros included |
| FieldCodec.LegacyConfusion | pkg/storage/field_storage.go:172-193 | a well-formed batch whose legacy form is rejected |
| FieldCodec.ContentLayout | pkg/storage/field_storage.go:134-168 | where partition id, primary key and number of updates lie |
| FieldCodec.UpdateLayout | pkg/storage/field_storage.go:134-168 | where name, delete flag and value of an update lie |
| FieldCodec.ShortValuePads | pkg/storage/field_storage.go:212-278 | a value cut short but not to nothing is read as complete, with zeros for what is missing; only the flag 1 means delete |
| FieldCodec.EncodeFieldBatch | pkg/storage/field_storage.go:134-168 | the writing loop yields the versioned form |
| FieldCodec.DecodeContent | pkg/storage/field_storage.go:212-278 | the reading loop parses what the specification parses, failures included |
| KeySpace.RangeIsPrefix | pkg/storage/partition.go:112-122 | for keys of six bytes or more, lying in a partition's range is carrying its prefix, byte carries included, except for the largest id |
| KeySpace.KeyLayout | pkg/storage/partition.go:57-68 | the marker, the partition id in four bytes, then the key |
| KeySpace.ShortKeyInRange | pkg/storage/partition.go:112-122 | a key of fewer than six bytes, which carries no prefix, lies in a range exactly when it begins the end of the range and not its start, and never in that of the largest id |
| KeySpace.ShortKeyExists | pkg/storage/partition.go:112-122 | a range holds such a key exactly when the next partition id carries |
| KeySpace.CompareBytes | pkg/storage/server.go:1036-1056 | the comparison loop decides the byte-wise order |
| KeySpace.RangeCoversPartition | pkg/storage/partition.go:57-122 | in a database of prefixed keys the range holds the partition's keys and no other |
| KeySpace.DeletePartitionData | pkg/storage/migration.go:198-254 | the restart-from-the-start batched loop ends, removes exactly the range and counts it |
| KeySpace.ExportPartition | pkg/storage/migration.go:72-88 | the scan yields the range's pairs in key order and nothing else |
| FieldStore.FieldKeyRoundTrip | pkg/storage/field_storage.go:43-80 | a field key parses back exactly when its primary key is shorter than 2^32 - 12 bytes |
| FieldStore.FieldKeyLayout | pkg/storage/field_storage.go:43-56 | the partition prefix, the field marker, the length of the primary key, the primary key, then the field name |
| FieldStore.PrefixesDisjoint | pkg/storage/field_storage.go:89-100 | documents never overlap, even when one primary key is a prefix of another |
| FieldStore.PlainKeyAliasesField | pkg/storage/partition.go:57-68 | a plain key lands in a document exactly when it spells out the marker, length and primary key |
| FieldStore.DocumentIsGetField | pkg/storage/field_storage.go:292-295 | the document as a map is the single-field read, name by name |
| FieldStore.GetAllFields | pkg/storage/field_storage.go:310-355 | the seek-and-stop scan returns the whole document exactly when the key is short enough or the document is empty |
| FieldStore.ApplyFieldBatch | pkg/storage/field_storage.go:375-391 | writes the batch update by update |
| FieldStore.BatchEffect | pkg/storage/field_storage.go:375-391 | on its document a batch is last-update-wins, field by field; every other document is untouched |
| FieldStore.LastUpdateWins | pkg/storage/field_storage.go:375-391 | a field ends as the last update that names it leaves it, absent after a delete, and as before when none does |
| FieldStore.LastWriteWins | pkg/storage/rocksdb.go:148-160 | in a batch of writes the last one on a key decides |
| Fencing.AcceptedEpochsRise | pkg/storage/partition.go:175-216 | over every run, the epochs of accepted writes on a partition never go down while the node holds it |
| Fencing.RouteFences | pkg/storage/server.go:1177-1241 | after a route update has shown an epoch, no write below it is accepted while the partition is held |
| Fencing.HeldIsHighestShown | pkg/storage/partition.go:149-194 | the epoch a node holds is the highest one shown since it last took the partition on |
| Fencing.RetakenEpochFalls | pkg/storage/server.go:1217-1231 | for any two epochs, a run in which the partition is removed and taken on again and the lower one is accepted after the higher |
| Fencing.NothingAfterLeaseLost | pkg/storage/server.go:1290-1325 | after the lease is lost or the node stopped every write gets an internal error |
| Fencing.RoutedEffect | pkg/storage/server.go:1177-1241 | after an update the node holds exactly the partitions it is named for, at the highest epoch known or shown, with old roles kept and new ones taken from the first line |
| Fencing.RoleFollowsRoute | pkg/storage/server.go:1205-1213 | a role follows the route exactly when the partition is new or already had it |
| Fencing.PrimeIffTakenOn | pkg/storage/partition.go:149-172 | over every run a node is primary exactly when the update by which it took the partition on named it so |
| Fencing.DemotedPrimaryStillAccepts | pkg/storage/server.go:354-416 | for any two epochs, also none, a run in which a node the route made replica accepts a write at the higher of them |
| NodeStore.StorageNode.UpdatePartitionsFromRoute | pkg/storage/server.go:1177-1241 | both loops together make the route step |
| NodeStore.StorageNode.AddPartitionWithEpoch | pkg/storage/partition.go:149-172 | afterwards a write on a newly added partition is accepted exactly with a lease, in the primary role and at its epoch; a held partition is refused, and no other write is answered differently |
| NodeStore.StorageNode.UpdatePartitionEpoch | pkg/storage/partition.go:175-194 | the epoch becomes the larger one, all else stays |
| NodeStore.StorageNode.RemovePartition | pkg/storage/partition.go:219-237 | afterwards a node that may write answers every write on the partition with partition not found, and no other write is answered differently |
| NodeStore.StorageNode.ExportSST | pkg/storage/server.go:807-816 | the partition is left migrating out with its role and epoch: no put, batch or delete on it is accepted, while field writes and all other partitions are answered as before |
| NodeStore.StorageNode.IngestEmpty | pkg/storage/server.go:932-970 | a partition other than 0 that was not held is taken on and accepts no write; nothing else is answered differently |
| NodeStore.StorageNode.LoseLease | pkg/storage/server.go:1290-1325 | afterwards every write gets an internal error |
| NodeStore.StorageNode.ReleaseAllLeases | pkg/storage/server.go:235-242 | afterwards every write gets an internal error |
| NodeStore.StorageNode.Handle | pkg/storage/server.go:354-394 | each reply exactly under its condition on the lease, the partition, the role, the epoch, the status and the database, the guards taken in their order |
| BatchWrite.GroupingIsSequential | pkg/compute/server.go:636-681 | groups written in any order leave every node as the items written one by one in request order, repeated keys included |
| BatchWrite.PutsEffect | pkg/storage/partition.go:347-367 | after a run of puts a place holds the last value given to its key, everything else what it held |
| BatchWrite.RegroupedLength | pkg/compute/server.go:660-668 | the groups together hold as many items as went into them |
| BatchWrite.GroupByPartition | pkg/compute/server.go:636-641 | each partition gets exactly the items whose key hashes to it modulo 4096, in request order |
| BatchWrite.Cluster.WriteGroup | pkg/storage/partition.go:347-367 | a node takes a group as one batch under the partition's prefix |
| BatchWrite.Cluster.BatchPut | pkg/compute/server.go:630-713 | every node ends as after the sequential writes of the groups that were applied, those whose call failed afterwards included; a count comes back exactly when no call failed and is the number of items, wrapped to 32 bits |
| HashRing.AddKeepsConsistent | pkg/metadata/consistent_hash.go:39-60 | adding a node with fresh positions keeps ring, owners and nodes in agreement |
| HashRing.RemoveKeepsConsistent | pkg/metadata/consistent_hash.go:63-83 | so does removing one |
| HashRing.RemoveUndoesAdd | pkg/metadata/consistent_hash.go:39-83 | removal undoes addition exactly when the added positions collide with nothing |
| HashRing.CollisionLeavesOrphan | pkg/metadata/consistent_hash.go:75-81 | on a collision some position is left on the ring without owner |
| HashRing.HistoryConsistent | pkg/metadata/consistent_hash.go:39-83 | every history of additions and removals gives the consistent ring of its nodes |
| HashRing.RingIsFunctionOfNodes | pkg/metadata/consistent_hash.go:39-83 | two histories that end with the same nodes end with the same ring |
| HashRing.LabelReads | pkg/metadata/consistent_hash.go:50-54 | the label of a virtual node is the node, a mark and its number in decimal, read back at the last mark |
| HashRing.LabelsDiffer | pkg/metadata/consistent_hash.go:50-54 | two virtual nodes have the same label only if they are the same, whatever the node names |
| HashRing.PartitionLabelReads | pkg/metadata/consistent_hash.go:109-110 | the label of a partition holds its id in decimal, so different partitions have different labels |
| RingLookup.ReplicaSucceedsPrimary | pkg/metadata/consistent_hash.go:63-127 | looking a key up on the ring from which its primary has been removed finds its old replica as primary |
| RingLookup.RemovalMovesOnlyItsOwn | pkg/metadata/consistent_hash.go:63-127 | removing a node from the ring changes the primary of only the keys it owned, and no pair it was not part of |
| RingLookup.AdditionMovesOnlyToIt | pkg/metadata/consistent_hash.go:39-127 | adding a node to the ring moves a primary only to it, and a pair it does not enter is the old pair |
| RingLookup.LookupIsNearest | pkg/metadata/consistent_hash.go:86-127 | on a consistent ring search and walk find the nearest node clockwise and the nearest other one |
| RingLookup.LookupWalks | pkg/metadata/consistent_hash.go:100-127 | on any ring the primary owns the first position at or past the key, the replica is the first other owner on the walk round from there, and is missing exactly when there is none |
| RingLookup.WalkFindsNearest | pkg/metadata/consistent_hash.go:100-127 | the first position met on the clockwise walk that belongs to some set of nodes belongs to the nearest of them |
| RingStore.ConsistentHash.constructor | pkg/metadata/consistent_hash.go:26-36 | an empty ring, with 150 virtual nodes unless a positive number is given |
| RingStore.ConsistentHash.AddNode | pkg/metadata/consistent_hash.go:39-60 | makes the addition and leaves the ring sorted, collisions or not |
| RingStore.ConsistentHash.RemoveNode | pkg/metadata/consistent_hash.go:63-83 | makes the removal and leaves the ring sorted, collisions or not |
| RingStore.ConsistentHash.Search | pkg/metadata/consistent_hash.go:155-163 | binary search with wrap-around finds the first position at or past the hash |
| RingStore.ConsistentHash.GetNode | pkg/metadata/consistent_hash.go:86-97 | on every sorted ring, collisions or not, the owner the lookup specification names |
| RingStore.ConsistentHash.GetNodes | pkg/metadata/consistent_hash.go:100-127 | on every sorted ring, collisions or not, the pair the lookup names for the label of the partition |
| Routing.RunKeepsTable | pkg/metadata/router.go:277-559 | over every run, however late the watch is and whatever tables it skips, the partition set stays, roles stay apart and the version counts the writes |
| Routing.CaughtUpRunFences | pkg/metadata/router.go:277-559 | over every run whose operations start from an up-to-date copy, epochs never fall and rise strictly whenever a primary differs |
| Routing.CopyFencesIff | pkg/metadata/etcd.go:332-370 | from a copy of an earlier table, writing one partition takes no epoch back exactly when no other epoch has risen since the copy and the written one is not behind |
| Routing.StaleWriteLowersEpoch | pkg/metadata/etcd.go:332-370 | for any two partitions, a run in which promoting one and then setting the status of the other from a copy that is behind takes an epoch back |
| Routing.CompletionKeepsApart | pkg/metadata/router.go:494-559 | completing a move keeps the roles apart exactly when it is not a replica move onto the primary |
| TableWrites.MovesSurvive | pkg/metadata/etcd.go:408-434 | in a row of writes, each from the first copy or any earlier table the watch has handed over by then, every table has exactly the moves it builds on and the others are overwritten |
| TableWrites.LostIffBehind | pkg/metadata/etcd.go:408-434 | some write is lost exactly when some write started from a copy that was not up to date |
| Failover.PromotionsSurvive | pkg/metadata/failover.go:171-236 | the stored table has exactly the promotions the last write builds on |
| Failover.FailoverNeedsDeliveries | pkg/metadata/failover.go:171-236 | a failover promotes all affected partitions exactly when each of its writes starts from the table the one before has left |
| Failover.FailoverFollowsRing | pkg/metadata/failover.go:171-236 | from an aligned table failover alone puts primaries where the ring without the node has them |
| Failover.FailoverThenRebalance | pkg/metadata/router.go:277-366 | failover and rebalance move the primary of exactly the failed node's partitions, once, raising exactly those epochs by one, and end aligned |
| Failover.FailoverRun | pkg/metadata/failover.go:171-236 | the same through store, cache and deliveries |
| Failover.SecondFailoverChangesNothing | pkg/metadata/failover.go:171-236 | a second failover before the rebalance has nothing to write, and leaves store and cache as they are, exactly when the first lost no promotion |
| MigrationPlan.PlanKeepsApart | pkg/metadata/router.go:494-559 | roles stay apart after every single item of a plan |
| MigrationPlan.RoundAligns | pkg/metadata/migration.go:239-295 | one round in any order puts every primary where the ring has it, with each moved primary's epoch up by one |
| MigrationPlan.PlanningConverges | pkg/metadata/migration.go:207-303 | two rounds, each completion from an up-to-date table, align primaries and replicas, the third plan is empty, epochs rise once where the primary moved |
| MigrationPlan.RoundNeedsItsPrimaryItems | pkg/metadata/migration.go:343-410 | a round whose completions start from any earlier tables aligns every primary exactly when no primary item is overwritten |
| Shutdown.DrainedIsNoPrimary | pkg/metadata/router.go:585-812 | the drained node ends up primary of nothing, whatever the table |
| Shutdown.DrainedCases | pkg/metadata/router.go:585-812 | for each standing of the node, roles, epoch and status of the drained partition |
| Shutdown.ShutdownFollowsRing | pkg/metadata/router.go:585-812 | from an aligned table every primary becomes that of the ring without the node, exactly the led partitions have their epochs raised, by one, and the node stays replica of exactly those, or of everything when only two nodes exist |
| Shutdown.ShutdownNeedsDeliveries | pkg/metadata/router.go:585-812 | a shutdown drains every partition exactly when each of its writes starts from the table the one before has left |
| RouterStore.BuildRing | pkg/metadata/router.go:215-221 | the ring the router builds is the consistent ring of the nodes |
| RouterStore.Router.AllocatePartitions | pkg/metadata/router.go:215-258 | 4096 partitions, each where the ring puts it, in normal status at epoch 1 |
| RouterStore.Router.RebalancePartitions | pkg/metadata/router.go:277-366 | makes the rebalance step: refused below two nodes, written only when some role changes |
| RouterStore.Router.RebalanceLoop | pkg/metadata/router.go:303-345 | the new table is the ring's, and the count of changes is zero exactly when no pair differs |
| RouterStore.Router.PromoteReplica | pkg/metadata/router.go:369-414 | the version rises exactly when the partition is known; primary and replica change places, the status stays, the epoch rises by one, every other partition is as cached, and roles that were apart stay apart |
| RouterStore.Router.SetPartitionStatus | pkg/metadata/router.go:417-454 | the version rises exactly when the partition is known; it has the status given with its roles and epoch, and every other partition is as cached |
| RouterStore.Router.CompleteMigration | pkg/metadata/router.go:494-559 | the version rises exactly when the partition is known; a primary move gives the role to the node, leaves another old primary as replica and raises the epoch by one, a replica move changes the replica alone, the status is normal again, every other partition is as cached, and roles stay apart exactly when it is not a replica move onto the primary |
| RouterStore.Router.HandleNodeFailure | pkg/metadata/failover.go:171-236 | promotes each partition led by the node once, each time from whichever of its own tables, or the first copy, the watch has handed over by then |
| RouterStore.Router.CalculateMigrationPlan | pkg/metadata/migration.go:207-303 | empty below two nodes, else a plan for the cached table, high priorities first: an item takes the role off the node that has it now, with high priority exactly for a primary that is gone and low exactly for a replica still online |
| RouterStore.Router.ShutdownNode | pkg/metadata/router.go:585-812 | refused without another node, else makes for each partition the writes that drain it, each from whichever of its own tables, or the first copy, the watch has handed over by then, and counts what it moved |
| Scheduler.RunKeeps | pkg/metadata/migration_scheduler.go:139-430 | in every run the queue is ordered and holds exactly the waiting tasks, partitions are unique across queue and active, active stays within the limit, completions are counted |
| Scheduler.QueueDetermined | pkg/metadata/migration_scheduler.go:158-170 | the queue's order is determined by the tasks in it: descending priority, then arrival |
| Scheduler.NoOvertaking | pkg/metadata/migration_scheduler.go:300-337 | no task starts while one of higher priority, or an earlier one of the same, stays pending |
| Scheduler.OnePlaceEach | pkg/metadata/migration_scheduler.go:139-243 | pending, active, completed and cancelled are disjoint and make up everything accepted |
| Scheduler.CancelEffect | pkg/metadata/migration_scheduler.go:192-219 | a cancel takes exactly the tasks of its partition from queue and active map, and one taken from the queue counts as cancelled |
| Scheduler.CancelledNeverStarts | pkg/metadata/migration_scheduler.go:192-243 | in every run, a task cancelled while queued, alone or with all others, never starts and is never queued again |
| Scheduler.ProcessEffect | pkg/metadata/migration_scheduler.go:300-337 | the tasks started are the front of the queue, all of it unless the limit is reached, and every one becomes active |
| Scheduler.StepKeepsPlacement | pkg/metadata/migration_scheduler.go:192-243 | a step keeps every task in exactly one place exactly when it cancels no active task |
| Scheduler.RunPlacement | pkg/metadata/migration_scheduler.go:192-243 | in every run that holds exactly as long as no active task has been cancelled |
| Scheduler.RunningWithinLimit | pkg/metadata/migration_scheduler.go:300-395 | in every run the running migrations are the active ones and those dropped from the active map while running; the limit holds exactly when there is room for the dropped ones beside the active ones |
| Scheduler.StepDrops | pkg/metadata/migration_scheduler.go:192-243 | a step drops exactly the active tasks it cancels, or the one that the late report of a cancelled task takes for its own |
| Scheduler.NothingDropped | pkg/metadata/migration_scheduler.go:300-395 | as long as no active task has been cancelled nothing is dropped and the limit holds |
| Scheduler.CancelledTasksExceedLimit | pkg/metadata/migration_scheduler.go:192-219 | for every limit and every number, a run in which that many migrations are running |
| Scheduler.CancelledTaskCountsTwice | pkg/metadata/migration_scheduler.go:398-430 | for every limit, a run that cancels an active task and records it twice |
| SchedulerStore.MigrationScheduler.AddTask | pkg/metadata/migration_scheduler.go:139-179 | refused when the partition is queued or active, else placed behind every task of its priority or higher and before every lower one, the others in their order |
| SchedulerStore.MigrationScheduler.CancelTask | pkg/metadata/migration_scheduler.go:192-219 | succeeds exactly when the partition is queued or active; afterwards it is neither, the other queued and active tasks are as they were, and an active one is recorded as completed and failed |
| SchedulerStore.MigrationScheduler.CancelAllTasks | pkg/metadata/migration_scheduler.go:222-243 | empties queue and active map; the active tasks, in any order, are recorded as completed and failed |
| SchedulerStore.MigrationScheduler.ProcessQueue | pkg/metadata/migration_scheduler.go:300-337 | starts a front part of the queue and stops only when the queue is empty or the limit reached; what was active stays active |
| SchedulerStore.MigrationScheduler.CompleteMigration | pkg/metadata/migration_scheduler.go:398-430 | records one completion, as migrated or failed as reported, and frees the partition |

## Left out

- Machine or power loss, where bytes handed to a file but not synced may vanish, and write errors after which the buffered writer stays in error.
- EndToEnd.DrainedReplicaEqualsPrimary: field batches too large for their encoding are not among the commands; after a loss, which `LogCountsHandlers` pins down, the data may still agree because a later write covers it.
- The replica handler still running after its request timed out: an unanswered request applies a prefix of the batch before the next one is sent.
- A change of the replica's address, which starts a new connection with the same cursor.
- Interleaving inside one write handler: guards, database write and log append take separate locks in the source and are one step here.
- A single writer per epoch across the cluster: the route update on the wire carries no epoch and roles are not refreshed, so only statements about one node are made.
- `ReplayTo` and `RecoverPartition`: they write the logged key without its partition prefix.
- Scheduler settings changed while running, force mode, retries, bandwidth limits and all real time.
- Per-partition migration targets and progress, and a shutdown with a scheduler or in force mode, where moves complete later or not at all; `ShutdownFollowsRing` covers the primaries of a shutdown whose replica moves stay open.
- RouterStore.Router.HandleNodeFailure: the tables the watch hands over during the operation are the first copy and the operation's own; tables of other writers in between are not modelled, nor in `ShutdownNode`.
- A second allocation, which resets every epoch to 1: allocation is the first step of a run.
- `BatchPut` on the compute node returning early when routing fails, with groups already sent still on their way, and a failed group applied only after the call has returned.
- `GetPartitionDistribution`, `GetAllNodes` and the other read-only listings, which would only add easy members.
- `AttributeGroup` and grouped field storage, JSON export and import of partitions, SST files, `replication.go` and `wal_replicator.go`.
- gRPC, etcd client calls and sessions, RocksDB internals, client libraries, the command line, metrics and logging.
- RouterStore.Router.CalculateMigrationPlan: fixes one order among items of equal priority; the theorems about plans hold for every order.
- NodeStore.StorageNode.Handle: the five handlers share one guard chain and are one method with the kind of write as input; their database writes are modelled in `FieldStore` and `BatchWrite`.
