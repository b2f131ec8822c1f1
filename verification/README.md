# Proofs about FCP's state engine

FCP emulates cloud services on one machine. This project models its persistent state engine
(`internal/state`) and the two engines of `internal/server` that sit on it, the DynamoDB condition
language and Firestore writes, and proves what they keep over every run.

Each engine has a specification module, written as functions on values, and a service module, a class
with the store's own methods and loops, proved against it. The `Delivery`, `Reads`, `Operators`,
`Conditions` and `Transforms` modules say what a caller gets without those functions, in terms of the
request and the state before it, and prove that the functions compute it.

| files | engine |
|---|---|
| `SnapshotRestore`, `RestoreWitnesses` | restoring a snapshot, with the process stopped between any two file system calls |
| `Objects`, `ObjectService`, `Reopen`, `Snapshots` | object bodies in generation files, S3 and GCS operations, startup validation, saved snapshots |
| `Durable` | commit by one rename, rollback after a failed save |
| `Queues`, `QueueDelivery`, `QueueProofs`, `QueueRuns`, `QueueFailures`, `QueueWitnesses`, `QueueService` | SQS standard and FIFO queues |
| `PubSub`, `PubSubDelivery`, `PubSubService` | Pub/Sub subscriptions |
| `DynamoValues`, `DynamoTables`, `DynamoCollisions`, `DynamoTransactions`, `DynamoRuns`, `DynamoReads`, `DynamoService`, `DynamoPages` | DynamoDB values, items, transactions, batches, pagination |
| `DynamoExpressions`, `DynamoParser`, `DynamoOperators`, `DynamoCompiler` | tokenizer, parser and evaluators of condition expressions |
| `FirestoreFields`, `Firestore`, `FirestoreConditions`, `FirestoreTransforms`, `FirestoreService` | Firestore updates, masks, transforms, preconditions, commits and batches |

SHA-256 is an injective function, `newID` and the clock are parameters, and encoding, decoding and
normalizing the state is a round trip. Whether a save, a rename or a sync succeeds is a parameter of
each operation, so every theorem covers every pattern of failures. A crash can only stop the process.

## What the code does otherwise

Some promises hold only under a condition. The first name is an input or a run that shows it, the
names behind it say exactly when it happens.

- Bucket names with a NUL byte share generation files with other buckets, and deleting one object then
  removes the body of another (`NulBucketLosesObject`, `NulMeansCollision`).
- A two-attribute DynamoDB key collides with another when one of its texts contains 0x01 followed by the
  second attribute's prefix, a type tag and NUL (`SeparatorCollides`, `CollidesIff`).
- A key attribute sent with several members, such as S and N, is indexed under one and stored as
  another (`TwoMembersBreakIndex`, `PutKeepsIndex` with `CloneKeepsKeyScalar`).
- With a value bound to the empty name, the condition `a =` is accepted (`EmptyNameIsAccepted`, `MisreadsIff`).
- A Pub/Sub subscription whose dead-letter topic is its own topic loses the forwarded copies
  (`CopyIsLost`, `OwnTopicLosesCopies`).
- An empty acknowledgement id acknowledges every message that was never delivered
  (`EmptyAckTakesUndelivered`, `UndeliveredAreNotAcked`).
- Assigning below a stored empty map panics in Firestore, since decoding yields a nil map (`EmptyMapPanics`, `SetPanicsIff`).
- An empty SQS receipt handle deletes, or hides, the first message that was never received
  (`UnreceivedIsDeleted`, `EmptyReceiptTakesUnreceived` and `UnreceivedAreNotEdited`).
- A FIFO queue that is a dead-letter target can hold received messages behind unreceived ones
  (`RedriveBreaksOrder`, `RedriveKeepsOrderIff`).
- The FIFO sequence counter wraps at 2^64 (`CounterWraps`, `SentKeepsNumbersIff` and `RedrivenKeepsNumbersIff`).
- A duplicate FIFO send prunes expired deduplication records in memory without a save, and a later failed
  save brings them back (`UnsavedPruningIsUndone`, `UnsavedChangeIff`).
- The tokenizer of condition expressions works on bytes, and takes 0x85 and 0xA0 for spaces: the name "à" is
  split, and `à=:v` compares another attribute (`NonAsciiNameIsSplit` and `NonAsciiNameIsMisread`,
  `TokenizesToItselfIff`).
- A state whose encoding is over 256 MiB is saved but not read again: the data directory no longer opens
  (`OversizedStateDoesNotOpen`, `Open`), and a restore stopped between its two renames cannot be resolved
  (`OversizedRestore`, `RecoveryRefusedIff` and `OversizedIsStuck`).
- A saved snapshot of 5378 object files or more cannot be loaded, since the reader limits the manifest to
  1 MiB and the writer does not (`SaveTooMany`, `SavedIsAcceptedIff` and `ManyObjectsCannotBeLoaded`).
- A crash before the restore journal exists leaves the stage directory behind for good (`StageIsLeftBehind`,
  `CrashBeforeJournalLeavesStage` and `StageStaysForGood`).
- The recovery branch that puts the backup back when the digest matches is never taken: a restore of a
  snapshot identical to the live state, stopped between the two renames, installs the staged copy
  (`IdenticalRestore`, `IdenticalRestoreInstallsStage` and `StagedObjectsArePresent`).

## Model

| member | source | states |
|---|---|---|
| SnapshotRestore.RunKeepsInv | internal/state/snapshot.go:187-397 | every reachable state of the step machine, crashes included, satisfies the recovery invariant |
| SnapshotRestore.RestoreResolves | internal/state/snapshot.go:187-397 | from any moment a journal exists, through any crashes in the restore or in recovery, the first completed recovery leaves the new pair if the rename of `state.json` happened and the old pair otherwise, with journal, backup and stage gone |
| SnapshotRestore.RecoveryNeverCorrupt | internal/state/snapshot.go:343-367 | "restored object directory is missing" is never reported |
| SnapshotRestore.RecoveryRefusedIff | internal/state/integrity.go:28-40 | recovery, and the opening after it, is refused exactly when `state.json` is over 256 MiB, and then changes nothing |
| SnapshotRestore.OversizedIsStuck | internal/state/snapshot.go:329-332 | no later step of a run changes such a directory or gets past recovery |
| RestoreWitnesses.OversizedRestore | internal/state/snapshot.go:329-332 | a run that leaves the objects in the backup directory, with recovery refused |
| SnapshotRestore.IdleIsPaired | internal/state/snapshot.go:305-397 | whenever no restore is in flight the object directory holds every file `state.json` references, with its content |
| SnapshotRestore.JournalPersists | internal/state/snapshot.go:260-300 | only a completed recovery removes the journal, and it belongs to one restore throughout |
| SnapshotRestore.StagedObjectsArePresent | internal/state/snapshot.go:343-367 | when the digest matches and the live directory is missing, the staged one is there |
| SnapshotRestore.CrashBeforeJournalLeavesStage | internal/state/snapshot.go:187-230 | before the journal a crash changes neither state nor objects; the store opens again exactly if `state.json` is readable, and the stage directory stays |
| SnapshotRestore.StageStaysForGood | internal/state/snapshot.go:187-397 | after such a crash no later step of the run, whatever is restored or recovered, removes or changes that directory |
| SnapshotRestore.IdenticalRestoreInstallsStage | internal/state/snapshot.go:329-383 | stopped between the two renames, recovery installs the staged copy exactly when the whole state of the snapshot is the live one, and puts the backup back exactly otherwise, if `state.json` is readable |
| RestoreWitnesses.IdenticalRestore | internal/state/snapshot.go:329-356 | a run in which recovery installs the staged copy without the commit |
| RestoreWitnesses.SameObjectsOtherRest | internal/state/snapshot.go:371-383 | a run in which only queues, tables or documents differ, and the backup is put back |
| RestoreWitnesses.StageIsLeftBehind | internal/state/snapshot.go:199-210 | a run that opens again with the stage directory of the interrupted load |
| SnapshotRestore.DataDirectory.ChooseBranch | internal/state/snapshot.go:305-386 | the branch taken and the directory left are those of the protocol |
| SnapshotRestore.DataDirectory.RemoveBackupDirectory | internal/state/snapshot.go:368-370 | entry by entry, every intermediate directory is a protocol step, and the backup is gone |
| SnapshotRestore.DataDirectory.PutBackupBack | internal/state/snapshot.go:372-383 | the live directory is removed step by step and ends as the backup was |
| SnapshotRestore.DataDirectory.RemoveStageDirectory | internal/state/snapshot.go:387-389 | every intermediate directory is a protocol step, and the stage is gone |
| SnapshotRestore.DataDirectory.Recover | internal/state/snapshot.go:305-397 | uninterrupted recovery succeeds from every reachable directory exactly when `state.json` is not over 256 MiB, through protocol steps only, and changes nothing otherwise |
| SnapshotRestore.DataDirectory.CopyFiles | internal/state/snapshot.go:639-659 | the stage ends with exactly the snapshot's files |
| SnapshotRestore.DataDirectory.SwapDirectories | internal/state/snapshot.go:222-256 | journal, two renames and commit are protocol steps that end committed and in recovery |
| SnapshotRestore.DataDirectory.LoadSnapshot | internal/state/snapshot.go:187-258 | an uninterrupted load ends with the snapshot's state and files and leaves no journal, backup or stage |
| Durable.FailedSavesLeaveNoTrace | internal/state/integrity.go:97-117 | in every run whose steps save or change nothing in the state they meet, the run without the failed steps is a run too and ends in the same state, in memory and on disk |
| Durable.FailedMutationsDoNotMatter | internal/state/integrity.go:106-117 | two runs that differ only in steps that save and fail, in the states they meet, agree in every state and every commit |
| Durable.LastCommitStands | internal/state/store.go:352-390 | in every run the committed state is what the last committing step wrote, and after a failed save memory holds it again |
| Objects.FileForInjective | internal/state/integrity.go:119-129 | with NUL-free owners, generation names of different slots or bodies differ |
| Objects.NulMeansCollision | internal/state/integrity.go:119-129 | a bucket name, S3 or GCS, shares generation names with a shorter NUL-free one exactly when it has a NUL |
| Objects.NulBucketLosesObject | internal/state/store.go:529-655 | for every bucket name with a NUL, S3 or GCS, two puts and a delete lose a body that the committed state refers to |
| Objects.ReferencesAreOwn | internal/state/integrity.go:119-129 | in a well-formed catalog a generation file is referenced by its own slot only |
| ObjectService.ObjectStore.Save | internal/state/store.go:352-390 | memory and disk agree afterwards, and every committed reference is present throughout |
| ObjectService.ObjectStore.CommitBody | internal/state/store.go:538-580 | temporary file, rename, sync and commit succeed together or leave the catalog alone; every intermediate directory is safe |
| ObjectService.ObjectStore.Replace | internal/state/store.go:529-586 | and removing the previous generation afterwards is safe |
| ObjectService.ObjectStore.PutObject | internal/state/store.go:529-586 | succeeds exactly when the bucket exists and every call succeeds, then the slot holds the body under its ETag and every other slot is as before; otherwise changes nothing; safe at every step |
| ObjectService.ObjectStore.PutGcsObject | internal/state/gcp.go:175-238 | the same for GCS |
| ObjectService.ObjectStore.UploadPart | internal/state/store.go:704-760 | accepted exactly for part numbers 1 to 10000 of an open upload; safe at every step |
| ObjectService.ObjectStore.CollectParts | internal/state/store.go:810-826 | fails with the error of the first bad part, else yields the listed parts; `FirstBadDecides` says which are bad |
| ObjectService.ObjectStore.ReadParts | internal/state/store.go:836-874 | the body is the concatenation of the part files |
| ObjectService.ObjectStore.CompleteUpload | internal/state/store.go:798-922 | an open upload with a non-empty list is completed exactly when every listed number ascends, every part is there under its ETag in quotes, all but the last have 5 MiB and every call succeeds; the first part that is not so decides the error; then the slot holds the parts one behind the other and upload and parts are gone, otherwise nothing changes; safe at every step |
| ObjectService.MatchesWhenQuoted | internal/state/store.go:817 | a requested ETag is taken for the stored one exactly when it is that, in any letter case, in any run of quotes |
| ObjectService.FirstBadDecides | internal/state/store.go:810-826 | no error exactly when every listed part is good; else the first that is not decides it: order before existence and ETag before size |
| ObjectService.CompletionCompletes | internal/state/store.go:836-922 | the stored object is the listed parts one behind the other, and nothing else changes but the upload and its parts |
| ObjectService.CompletionSize | internal/state/store.go:810-826 | an accepted completion has at most 10000 parts and the size is their sum, at least 5 MiB times (n-1) |
| ObjectService.NumbersAscend | internal/state/store.go:810-826 | listed part numbers ascend from at least 1 to at most 10000 |
| ObjectService.CompletionOk | internal/state/store.go:895-917 | the bucket of a reachable upload exists, and part files are referenced by nothing after the commit |
| ObjectService.ObjectStore.DeleteSlot | internal/state/store.go:638-655 | succeeds exactly when the source's checks and the save do; safe at every step |
| ObjectService.ObjectStore.AbortUpload | internal/state/store.go:924-939 | removes the upload and its parts, or nothing; safe at every step |
| ObjectService.ObjectStore.ResetWorkload | internal/state/store.go:415-480 | buckets stay, every object and part goes; safe at every step |
| ObjectService.ObjectStore.Reset | internal/state/store.go:392-410 | everything goes, or nothing; safe at every step |
| ObjectService.ObjectStore.CreateBucket | internal/state/store.go:482-490 | adds the bucket unless its save fails |
| ObjectService.ObjectStore.DeleteBucket | internal/state/store.go:492-509 | refused exactly when the bucket is missing or has objects or open uploads |
| ObjectService.ObjectStore.CreateGcsBucket | internal/state/gcp.go:109-127 | adds the bucket unless its save fails |
| ObjectService.ObjectStore.DeleteGcsBucket | internal/state/gcp.go:161-173 | refused exactly when the bucket is missing or has objects |
| ObjectService.ObjectStore.CreateUpload | internal/state/store.go:682-702 | every open upload has an existing bucket |
| ObjectService.OperateAll | internal/state/store.go:482-939 | every run of object requests and other saves keeps the store valid, with every directory on the way safe, and readable if no save is over 256 MiB |
| Reopen.ValidateAndCleanup | internal/state/integrity.go:131-231 | accepts exactly when every referenced file holds its content, then removes exactly the unreferenced files, one by one, each directory on the way holding all references; removes nothing otherwise |
| Reopen.Open | internal/state/store.go:173-250 | opening succeeds exactly on a safe directory whose `state.json` is not over 256 MiB and yields the state in it with exactly its files; every directory on the way is safe with the same state |
| Reopen.OpenAfterCrash | internal/state/store.go:173-250 | the directory left by a crash at any step of any run, opening included, opens exactly when its `state.json` is not over 256 MiB, with exactly its committed state and files |
| Reopen.OperateCrashOpen | internal/state/store.go:352-390 | if no save of a run writes a longer one, whatever a crash at any step leaves opens |
| Reopen.OversizedStateDoesNotOpen | internal/state/integrity.go:26-38 | a run that commits a longer one and whose safe directory does not open |
| Snapshots.Assemble | internal/state/snapshot.go:119-160 | the state, a copy of every referenced file and one manifest entry for each; fails exactly when one is missing |
| Snapshots.SnapshotRoot.Save | internal/state/snapshot.go:77-175 | refused exactly for an invalid or an existing name; else saves the store's catalog and files and leaves the other snapshots alone |
| Snapshots.CheckSnapshot | internal/state/snapshot.go:543-637 | accepts exactly when manifest size, header, state, entries and total size check; then the manifest names exactly the referenced files, without repetition |
| Snapshots.SnapshotRoot.Read | internal/state/snapshot.go:543-616 | each error, and the snapshot exactly when it checks |
| Snapshots.SnapshotRoot.Delete | internal/state/snapshot.go:473-498 | each error, and only the named snapshot goes |
| Snapshots.DistinctCover | internal/state/snapshot.go:580-602 | as many distinct expected names as references are all the references |
| Snapshots.SavedIsExact | internal/state/snapshot.go:119-160 | a saved snapshot holds exactly the saved bodies and is a pair as a restore needs it |
| Snapshots.SavedIsAcceptedIff | internal/state/snapshot.go:543-637 | a saved snapshot is accepted exactly when state, manifest and every file are within the reader's limits |
| Snapshots.ManyObjectsCannotBeLoaded | internal/state/snapshot.go:618-637 | a snapshot of 5378 object files or more is never accepted |
| Snapshots.SaveTooMany | internal/state/snapshot.go:77-175 | a run that saves 5378 objects and cannot read the snapshot |
| Snapshots.Materialize | internal/state/snapshot.go:639-659 | the state with exactly the files the manifest names |
| Snapshots.SaveOperateOpen | internal/state/snapshot.go:500-512 | saving, any requests to the store, reading, materializing and opening succeeds exactly within the limits and gives the whole saved state with exactly its files |
| Snapshots.SaveOperateLoad | internal/state/snapshot.go:187-258 | saving, any requests and loading into a data directory ends with the whole saved state and its files, or leaves the directory alone |
| QueueProofs.ReceiveSplitsByFate | internal/state/store.go:1166-1248 | what stays, what is returned and what is redriven are the messages of those fates in queue order; at most `max` are returned |
| QueueProofs.ReceiveConserves | internal/state/store.go:1166-1248 | source plus dead-letter queue keep their multiset of message ids |
| QueueProofs.DeliveryIsBounded | internal/state/store.go:1211-1240 | under a live policy no message is returned more than `maxReceiveCount` times |
| QueueProofs.FifoOrder | internal/state/store.go:1166-1248 | when a receive returns a message, every earlier message of its group still in the queue is returned earlier in the same call |
| QueueDelivery.ReceiveDelivers | internal/state/store.go:1166-1248 | said of the queue before, without the loop: the reply is the first messages, one to ten as asked, that are visible, not out of receives and in a FIFO queue behind no invisible one of their group, each received once more under its new receipt and hidden until now plus the visibility; the queue keeps the others in order, visible ones out of receives stand behind the target's messages; saved exactly if anything was returned or moved |
| QueueDelivery.OnlyVisibleAreReturned | internal/state/store.go:1204-1240 | every message returned was visible, in a FIFO queue with all of its group in front of it, and keeps id, body and group |
| QueueDelivery.NotReturnedInFlight | internal/state/store.go:1230-1240 | over every run with any failed saves, a message that a saved receive returned is not returned again before its visibility is over, unless it is changed or the id queued anew |
| QueueDelivery.NotReturnedWhileDelayed | internal/state/store.go:1147-1164 | over every run a message is not returned before the delay of its send, or the queue's, is over |
| QueueDelivery.StaysHidden | internal/state/store.go:1166-1280 | hidden messages stay hidden through every other operation, in memory and on disk |
| QueueDelivery.ArrivedSnoc | internal/state/store.go:1211-1228 | a redriven message arrives behind the target's, visible at once, without a receipt, in a FIFO target renumbered and remembered under its own id for five minutes |
| QueueDelivery.SentSendsAs | internal/state/store.go:1077-1164 | an accepted send is a duplicate exactly in a FIFO queue with an unexpired record under its id, or group and id; else the new message stands last, with the fields of the request, hidden for its delay, and in a FIFO queue numbered and remembered for five minutes |
| QueueDelivery.SendAcceptedIff | internal/state/store.go:1082-1116 | a send is accepted exactly with a delay of at most 15 minutes and, in a FIFO queue, no delay of its own, a printable group and a printable deduplication id or content-based deduplication; in a standard queue, no deduplication id |
| QueueProofs.RemainingStaysNumbered | internal/state/store.go:1166-1248 | a receive keeps the sequence numbers of the source increasing |
| QueueProofs.DeadLetterStaysNumbered | internal/state/store.go:1211-1228 | a receive keeps the numbers of the dead-letter queue increasing and advances its counter by the exhausted messages |
| QueueProofs.PerformKeepsShape | internal/state/store.go:1305-1424 | no operation makes a queue its own target, mixes types or breaks the name rule |
| QueueProofs.SentKeepsNumbersIff | internal/state/store.go:1396-1399 | an enqueuing FIFO send keeps the numbers in order exactly when the counter has room or no message is numbered |
| QueueProofs.RedrivenKeepsNumbersIff | internal/state/store.go:1211-1228 | a redriven message keeps the target's numbers in order exactly when the counter has room or no message there is numbered |
| QueueProofs.UnreceivedAreNotEdited | internal/state/store.go:1250-1280 | a non-empty receipt handle never touches a message that was not received |
| QueueProofs.EmptyReceiptTakesUnreceived | internal/state/store.go:1250-1280 | an empty one takes the first of them |
| QueueWitnesses.UnreceivedIsDeleted | internal/state/store.go:1250-1264 | a run that deletes a message before anyone received it |
| QueueProofs.PerformKeepsLegal | internal/state/store.go:984-1303 | every operation keeps shapes and sequence numbers while the counter has room |
| QueueRuns.AlwaysShaped | internal/state/store.go:984-1424 | in every run, in memory and on disk, the name suffix decides the type and redrive targets are other queues of the same type |
| QueueRuns.AlwaysLegal | internal/state/store.go:1132-1134 | in every run in which each number drawn by an enqueuing send or a redrive fits the counter, they strictly increase along every queue and stay at most the counter |
| QueueFailures.UnsavedChangeIff | internal/state/store.go:1117-1131 | an operation changes memory without saving exactly when it is an accepted duplicate FIFO send while some record has expired |
| QueueFailures.FailedSaveRestores | internal/state/integrity.go:106-117 | in every run, after a failed save memory and disk hold the queues of the last committing step |
| QueueFailures.FailedRedriveRestoresBoth | internal/state/store.go:1166-1248 | a receive that moved messages between two queues and failed to save leaves both as last committed |
| QueueFailures.QueueFailuresDoNotMatter | internal/state/integrity.go:106-117 | two queue runs that differ only in failed steps agree in every state and every commit |
| QueueFailures.QueueFailuresLeaveNoTrace | internal/state/integrity.go:106-117 | where no duplicate send meets an expired record, the queue run without its failed steps ends the same |
| QueueWitnesses.UnsavedPruningIsUndone | internal/state/store.go:1117-1131 | a run in which a failed purge brings a pruned record back, so that erasing the failed step changes the end |
| QueueWitnesses.CounterWraps | internal/state/store.go:1396-1399 | a run that ends with the number 0 behind 2^64 - 1 numbered messages |
| QueueWitnesses.RedriveBreaksOrder | internal/state/store.go:1211-1228 | a run after which a dead-letter target holds a received message behind an unreceived one |
| QueueRuns.RedriveConserves | internal/state/store.go:1166-1248 | in every run a receive keeps the ids of source plus target, appends to the target, touches no other queue and respects the policy |
| QueueRuns.ReceivedFormPrefix | internal/state/store.go:1166-1280 | in every run, the received messages of each group of a FIFO queue that nothing is redriven into form a prefix |
| QueueRuns.RedriveKeepsOrderIff | internal/state/store.go:1211-1228 | a redrive keeps that prefix in the target exactly when its group there has no unreceived message |
| QueueRuns.RecordSurvives | internal/state/store.go:1117-1139 | the record of a saved send survives every operation inside its window, in memory and on disk |
| QueueRuns.DuplicateInsideWindow | internal/state/store.go:1117-1131 | a send under the same key inside five minutes enqueues nothing and returns the first id and sequence number |
| QueueRuns.EnqueuedFiveMinutesApart | internal/state/store.go:1117-1139 | two saved sends under one key that both enqueue are at least five minutes apart |
| QueueRuns.GroupKeysAreDistinct | internal/state/store.go:1377-1394 | under group scope distinct (group, id) pairs never share a key |
| QueueService.QueueStore.CreateQueue | internal/state/store.go:984-1013 | an existing queue is left alone; a new one is empty, with the attributes asked for or the defaults, and a redrive policy only to another existing queue with 1 to 1000 receives; refused exactly for invalid attributes of a new name |
| QueueService.QueueStore.SetQueueAttributes | internal/state/store.go:1282-1303 | exactly the attributes asked for change, a redrive policy only to another existing queue with 1 to 1000 receives; each error |
| QueueService.QueueStore.DeleteQueue | internal/state/store.go:1052-1060 | the queue is gone and the others stay; each error |
| QueueService.QueueStore.PurgeQueue | internal/state/store.go:1062-1071 | the messages are gone and everything else stays; each error |
| QueueService.QueueStore.Prune | internal/state/store.go:1118-1122 | exactly the unexpired records remain |
| QueueService.QueueStore.SendMessage | internal/state/store.go:1077-1145 | reply, error and new state of the specification; an accepted send appends a new message with the request's body and group, hidden for its delay or the queue's, or answers with the first message of an unexpired record and appends nothing |
| QueueService.QueueStore.ScanMessages | internal/state/store.go:1195-1239 | the loop computes the scan of the specification, and `ReceiveDelivers` says what that returns, moves and leaves |
| QueueService.QueueStore.ReceiveMessages | internal/state/store.go:1166-1248 | reply, error and new state of the specification; said of the queue before, the reply is the first messages that are visible, not out of receives and not behind an invisible one of their FIFO group, up to the clamped maximum, and both queues hold exactly the rest |
| QueueService.QueueStore.DeleteMessage | internal/state/store.go:1250-1264 | removes the first message with the receipt handle and nothing else; the receipt is invalid exactly when no message has it |
| QueueService.QueueStore.ChangeVisibility | internal/state/store.go:1266-1280 | hides the first message with the receipt handle until now plus the seconds asked for and changes nothing else; the receipt is invalid exactly when no message has it |
| PubSub.PullSplitsByFate | internal/state/gcp.go:479-537 | what stays, what is returned (at most max) and what is forwarded are the messages of those fates, in order |
| PubSub.FatesAreJustified | internal/state/gcp.go:498-528 | a message is forwarded exactly when visible and out of attempts, and returned only when visible |
| PubSubDelivery.PullDelivers | internal/state/gcp.go:479-537 | said of the messages before, without the loop: exactly the smaller of the maximum, at least one, and the number of visible messages with attempts left is returned, the first of them in order, each delivered once more under its new ack id and hidden until now plus the request's deadline or the subscription's; those out of attempts leave, a fresh copy of each goes to every other subscription of the dead-letter topic, the rest stays; saved exactly if anything was returned or copied |
| PubSubDelivery.NotRedeliveredInTime | internal/state/gcp.go:518-527 | over every run with any failed saves, a message that a saved pull returned is not returned again before its deadline, unless that is changed or a snapshot loaded |
| PubSubDelivery.PublishPublishes | internal/state/gcp.go:448-477 | every subscription of the topic grows by the messages in order, each under its id and the time; the others stay |
| PubSubDelivery.UnackedAcknowledges | internal/state/gcp.go:539-558 | exactly the messages not acknowledged stay, each in its place among them |
| PubSubDelivery.ExtendedRedates | internal/state/gcp.go:560-584 | the last entry for a message's ack id decides its deadline: the one value for all, its own, or zero |
| PubSub.PullFansOut | internal/state/gcp.go:495-530 | every other subscription of the dead-letter topic gets, behind what it has, one fresh copy of each visible message out of attempts, in order; no other changes; the pulled one keeps exactly the other messages |
| PubSub.OwnTopicLosesCopies | internal/state/gcp.go:500-530 | every subscription of the dead-letter topic gets the copies exactly when that topic is not the own one or no visible message has used up its attempts |
| PubSub.CopyIsLost | internal/state/gcp.go:500-530 | a run after which a published message is in no subscription although nothing was acknowledged |
| PubSub.MessagesStay | internal/state/gcp.go:437-584 | one step removes a message only by acknowledgement, purge, deletion, reset, snapshot load or dead-lettering |
| PubSub.SavedMessagesStay | internal/state/gcp.go:437-584 | over every run with any failed saves, a saved message stays until one of those removes it |
| PubSub.PerformIsDisciplined | internal/state/gcp.go:365-584 | every Pub/Sub operation saves or changes nothing |
| PubSub.PubSubFailuresLeaveNoTrace | internal/state/integrity.go:106-117 | every Pub/Sub run without its failed steps ends the same |
| PubSub.PubSubFailuresDoNotMatter | internal/state/integrity.go:106-117 | two Pub/Sub runs that differ only in failed steps agree in every state and every commit |
| PubSub.UndeliveredAreNotAcked | internal/state/gcp.go:539-558 | non-empty acknowledgement ids never remove a message that was not delivered |
| PubSub.EmptyAckTakesUndelivered | internal/state/gcp.go:539-558 | an empty one removes all of them |
| PubSubService.PubSubStore.AppendToTopic | internal/state/gcp.go:463-472 | exactly the subscriptions of the topic grow, in any iteration order |
| PubSubService.PubSubStore.Publish | internal/state/gcp.go:448-477 | every subscription of the topic, and no other, grows by the messages in order, each under its new id and visible at once; each error |
| PubSubService.PubSubStore.PullMessages | internal/state/gcp.go:495-530 | the loop, which copies to the live subscriptions and changes delivered messages in place as it goes, ends in the specified state and split |
| PubSubService.PubSubStore.Pull | internal/state/gcp.go:479-537 | reply, error and new state of the specification; said of the messages before, the reply is the smaller of the maximum, at least one, and the number of visible messages with attempts left, the first of them in order, each hidden until now plus the deadline |
| PubSubService.PubSubStore.Acknowledge | internal/state/gcp.go:539-558 | exactly the messages that are not acknowledged stay, in order; each error |
| PubSubService.Compact | internal/state/gcp.go:550-556 | the in-place filter leaves exactly the messages not acknowledged, in order |
| PubSubService.PubSubStore.ModifyAckDeadline | internal/state/gcp.go:560-584 | each message gets the deadline that the last entry for its ack id gives, one for all, its own or zero, and stays as it was without one; each error |
| DynamoTables.EncodeInjective | internal/state/dynamodb.go:365-392 | keys without 0x01 before their last component have distinct encodings |
| DynamoTables.SeparatorCollides | internal/state/dynamodb.go:365-392 | every two-attribute schema has colliding keys |
| DynamoCollisions.CollidesIff | internal/state/dynamodb.go:365-392 | a key has a colliding partner exactly when one of its texts contains 0x01, the second attribute's prefix, a type tag and NUL |
| DynamoCollisions.CollisionNeedsLink | internal/state/dynamodb.go:365-392 | two keys with one encoding have such a text |
| DynamoTables.CloneKeepsKeyScalar | internal/state/dynamodb.go:38-63 | cloning keeps the key scalar exactly when no member that the encoder prefers hides it |
| DynamoValues.CloneKeepsIff | internal/state/dynamodb.go:38-63 | storing keeps a value unchanged exactly when one member is set, in it and in every value inside, or none at all |
| DynamoValues.CloneKeepsFirst | internal/state/dynamodb.go:38-63 | of several members exactly the first in the encoder's order stays, unchanged |
| DynamoReads.KeyText | internal/state/dynamodb.go:365-392 | an item is stored under kind, name, type and text of its key attributes, S before N before B, set off by 0x01 |
| DynamoReads.GetAfterWrite | internal/state/dynamodb.go:164-329 | over every run with any failed saves, after a saved put, update or transaction a get of the key yields the very item, and none after a removal, until a later operation names the key or empties or removes the table; the stored values have one member each |
| DynamoReads.TransactDoes | internal/state/dynamodb.go:282-329 | after an accepted transaction every put is stored under its key, every removal leaves nothing, and every key that no write names is as before |
| DynamoReads.BatchDoes | internal/server/dynamodb.go:206-230 | after a batch that goes through, the same of every put request and every delete request, table by table |
| DynamoTables.PutKeepsIndex | internal/state/dynamodb.go:198-218 | a put keeps every item under its own key exactly when its key survives cloning |
| DynamoTables.TwoMembersBreakIndex | internal/state/dynamodb.go:198-218 | a put of a key attribute with S and N leaves an item under a key not its own |
| DynamoTables.DeleteKeepsIndex | internal/state/dynamodb.go:220-243 | a delete keeps every item under its own key |
| DynamoTables.UpdateKeepsIndex | internal/state/dynamodb.go:245-280 | an update keeps every item under its own key exactly when the key of the item it computes from its actual base survives cloning |
| DynamoTables.PassThroughIsStable | internal/state/dynamodb.go:245-280 | which it does for every updater that passes the key attributes through |
| DynamoTables.GetRefines | internal/state/dynamodb.go:164-177 | get is lookup in the map from primary keys to items |
| DynamoTables.PutRefines | internal/state/dynamodb.go:198-218 | put is update of that map, with the item's values as stored (`CloneKeepsIff`, `CloneKeepsFirst`) |
| DynamoTables.DeleteRefines | internal/state/dynamodb.go:220-243 | delete is removal from that map |
| DynamoTables.UpdateRefines | internal/state/dynamodb.go:245-280 | update stores its result under the same primary key |
| DynamoTransactions.LookupAfter | internal/state/dynamodb.go:317-324 | after a transaction each slot holds what the one operation on it stores, or what it held before |
| DynamoTransactions.TransactKeepsIndex | internal/state/dynamodb.go:282-329 | a transaction keeps every item under its own key |
| DynamoTransactions.OrderDoesNotMatter | internal/state/dynamodb.go:282-329 | success and resulting tables are the same for every permutation of the operations |
| DynamoTransactions.BatchHasOneResult | internal/server/dynamodb.go:206-230 | whatever order the map yields the tables in, the batch has one result |
| DynamoRuns.AlwaysClean | internal/state/dynamodb.go:97-329 | in every run whose keys have 0x01 only in their last component, each item is stored under the encoding of its own such key, in memory and on disk |
| DynamoRuns.AlwaysIndexed | internal/state/dynamodb.go:97-329 | in every run whose stored keys survive cloning, each item is stored under the encoding of its own key, in memory and on disk, with any bytes in the keys |
| DynamoRuns.SetIsTyped | internal/server/dynamodb.go:693-771 | `SET x = :v` outside the key meets that condition on every indexed table |
| DynamoRuns.SetIsProper | internal/server/dynamodb.go:693-771 | and the one on 0x01 where the key it names does |
| DynamoRuns.AcceptableIff | internal/state/dynamodb.go:290-316 | a transaction is accepted exactly when its writes name distinct primary keys |
| DynamoRuns.TransactRefines | internal/state/dynamodb.go:282-329 | and then leaves in every table the plain puts and removals on it, in order |
| DynamoRuns.PerformRefines | internal/state/dynamodb.go:97-329 | every operation acts on the plain maps, conditions and errors included |
| DynamoRuns.RunRefinesMap | internal/state/dynamodb.go:97-329 | every such run, with any failed saves, is a run of plain maps from primary keys to items alone, for every operation, transactions included, in memory and on disk |
| DynamoRuns.RunGets | internal/state/dynamodb.go:164-177 | every get in such a run is a lookup in the plain map |
| DynamoRuns.DynamoFailuresLeaveNoTrace | internal/state/integrity.go:106-117 | every DynamoDB run without its failed steps ends the same |
| DynamoRuns.DynamoFailuresDoNotMatter | internal/state/integrity.go:106-117 | two DynamoDB runs that differ only in failed steps agree in every state and every commit |
| DynamoService.TableStore.PutItem | internal/state/dynamodb.go:198-218 | new state of the specification; a validation error exactly without a usable key and a failed condition exactly when it is false of the item found, or of an empty one; an accepted item whose values have one member each is stored as sent under its key and nothing else changes |
| DynamoService.TableStore.DeleteItem | internal/state/dynamodb.go:220-243 | the item under the key is gone and nothing else changes; each error exactly as for a put; an absent item needs no save |
| DynamoService.TableStore.UpdateItem | internal/state/dynamodb.go:245-280 | new state of the specification, and each error; the update starts from the item found or from the key, and its result, under the same key, is stored as computed |
| DynamoService.TableStore.ResolveOps | internal/state/dynamodb.go:290-316 | the `seen` set accepts exactly the transactions whose operations resolve and touch distinct items |
| DynamoService.TableStore.ApplyResolved | internal/state/dynamodb.go:317-324 | the second pass applies every resolved operation in order |
| DynamoService.TableStore.TransactWrite | internal/state/dynamodb.go:282-329 | all puts are stored, all removals leave nothing, everything else stays and is saved; or nothing changes |
| DynamoService.TableStore.CollectBatch | internal/server/dynamodb.go:207-220 | refused exactly when an entry is malformed; else the operations of some table order |
| DynamoService.TableStore.BatchWrite | internal/server/dynamodb.go:206-230 | the outcome is that of every possible table order, for 1 to 25 operations: every put stored, every removal gone, everything else as before; otherwise nothing changes |
| DynamoPages.Select | internal/server/dynamodb.go:404-429 | from the start key on, the page ends behind the item that makes up the limit; it holds exactly the items that pass, projected and in order, counts those that match, and names the last key unless it reached the end |
| DynamoPages.PageIs | internal/server/dynamodb.go:404-429 | the same of the specified page, for any start and limit, by counting matching and passing items |
| DynamoPages.StartIs | internal/server/dynamodb.go:406-413 | without a start key a page starts at the first item, with one behind the first item of that key, and without such an item it is empty |
| DynamoPages.KeysEqualIff | internal/server/dynamodb.go:457-464 | keys of one member an attribute are equal exactly when their attributes are |
| DynamoPages.LessIff | internal/state/dynamodb.go:179-196 | the order of the keys is the bytewise one: a proper prefix, or the smaller byte where they first differ |
| DynamoPages.PageThenRest | internal/server/dynamodb.go:404-429 | a page followed by the rest after it is the unlimited answer, in items and count |
| DynamoPages.LastKeyResumes | internal/server/dynamodb.go:447-464 | with distinct keys the last key leads back to the item after it |
| DynamoPages.FollowTable | internal/server/dynamodb.go:325-429 | on an unchanged indexed table, in either direction and listed anew for every page, following LastEvaluatedKey terminates and yields every item that passes key condition and filter, as projected and in its place, and the number of those that match |
| DynamoPages.ListItems | internal/state/dynamodb.go:179-196 | the items in the ascending order of their encoded keys |
| DynamoPages.ListingIsUnique | internal/state/dynamodb.go:179-196 | an unchanged table has one listing |
| DynamoPages.ListingHasDistinctKeys | internal/state/dynamodb.go:179-196 | the listing of an indexed table has distinct primary keys |
| DynamoPages.ReverseItems | internal/server/dynamodb.go:466-470 | the array ends reversed |
| DynamoExpressions.Tokenize | internal/server/dynamodb.go:661-691 | terminates on every input with the specified tokens |
| DynamoExpressions.TokensKeepText | internal/server/dynamodb.go:661-691 | tokenizing drops exactly the spaces and yields words, comparisons and punctuation only |
| DynamoExpressions.TokensOfRender | internal/server/dynamodb.go:661-691 | tokenizing inverts writing tokens out, for every spacing that keeps them apart |
| DynamoExpressions.TokenizesToItselfIff | internal/server/dynamodb.go:661-691 | a text is read as itself exactly when it is a word without spaces, a comparison or punctuation, byte by byte |
| DynamoExpressions.NonAsciiNameIsSplit | internal/server/dynamodb.go:661-691 | the bytes of à are not |
| DynamoParser.NonAsciiNameIsMisread | internal/server/dynamodb.go:511-691 | so `à=:v` compiles to a comparison of another attribute |
| DynamoParser.AttachMeaning | internal/server/dynamodb.go:535-549 | grouping conjunctions to the left keeps the meaning |
| DynamoParser.ExpressionRoundTrip | internal/server/dynamodb.go:535-639 | the tokens of a condition are parsed back into it, regrouped |
| DynamoParser.CompileRoundTrip | internal/server/dynamodb.go:511-691 | a printed condition, with any spacing, compiles with every token consumed to one of the same meaning on every item |
| DynamoOperators.ComparisonMeans | internal/server/dynamodb.go:612-637 | `name op :value`, in any spacing, holds exactly when the attribute is there and compares to the value as =, <>, <, <=, > or >= says |
| DynamoOperators.BetweenMeans | internal/server/dynamodb.go:598-611 | `BETWEEN` holds exactly when it is there and between the two, both included |
| DynamoOperators.BeginsMeans | internal/server/dynamodb.go:576-593 | `begins_with` holds exactly when it is there and begins so |
| DynamoOperators.ExistenceMeans | internal/server/dynamodb.go:559-575 | `attribute_exists` holds exactly of an item that was found and has the attribute, `attribute_not_exists` of every other |
| DynamoOperators.ConjunctionMeans | internal/server/dynamodb.go:535-558 | `(left AND right)` holds exactly when both hold, each compiled by itself |
| DynamoParser.ExpressionSound | internal/server/dynamodb.go:535-639 | with no value bound to the empty name, whatever the parser accepts spells the condition it returns |
| DynamoParser.EmptyNameIsAccepted | internal/server/dynamodb.go:593-617 | with such a value, a comparison without its value is accepted |
| DynamoParser.MisreadsIff | internal/server/dynamodb.go:535-639 | the parser accepts something its tokens do not spell exactly when a value is bound to the empty name |
| DynamoCompiler.ExpressionParser.ParseExpression | internal/server/dynamodb.go:535-549 | terminates with the position within the tokens; the closure computes the condition's meaning on every item |
| DynamoCompiler.ExpressionParser.ParsePredicate | internal/server/dynamodb.go:551-638 | the same for one predicate |
| DynamoCompiler.ExpressionParser.ParseSimple | internal/server/dynamodb.go:559-638 | the same for the predicates without nesting |
| DynamoCompiler.Compile | internal/server/dynamodb.go:511-524 | no condition for blank text, an error unless every token is consumed, else an evaluator with the meaning |
| FirestoreFields.GetAfterSet | internal/server/firestore.go:465-502 | a field that was set is found with its value |
| FirestoreFields.SetKeepsOthers | internal/server/firestore.go:487-502 | setting keeps every path that diverges |
| FirestoreFields.GetAfterRemove | internal/server/firestore.go:504-515 | a deleted field is not found |
| FirestoreFields.RemoveKeepsOthers | internal/server/firestore.go:504-515 | deleting keeps every path that diverges |
| FirestoreFields.SetPanicsIff | internal/server/firestore.go:487-502 | setting panics exactly when the path leads through a nil map |
| FirestoreFields.EmptyMapPanics | internal/server/firestore.go:487-502 | a stored empty map makes the next write below it panic |
| FirestoreFields.MaskIsExact | internal/server/firestore.go:296-307 | a path the mask names and no other of its paths overlaps ends up as in the update, present or absent; one that diverges from all is kept |
| FirestoreFields.MaskLastDecides | internal/server/firestore.go:296-307 | with repeated or overlapping paths, the last mask path leading to a field decides it |
| Firestore.FailedWriteChangesNothing | internal/server/firestore.go:276-355 | a write that fails or panics leaves the working map alone |
| Firestore.BatchIsFoldOfOk | internal/server/firestore.go:179-198 | a batch, each write working on the map the one before left, leaves the fold of exactly the writes it reports OK |
| Firestore.CommitIsAllOk | internal/server/firestore.go:160-177 | a commit succeeds exactly when every write of the batch would be OK, with the same documents |
| Firestore.CreateTimeSurvives | internal/server/firestore.go:276-355 | a document keeps its create time through any fold of writes that does not delete it |
| Firestore.CreateTimeSurvivesRuns | internal/state/gcp_services.go:58-74 | so it does over every run of commits and batches that fail, panic or are not saved, in memory and on disk |
| Firestore.FirestoreFailuresLeaveNoTrace | internal/state/gcp_services.go:58-74 | every run of commits and batches without its failed requests ends the same |
| Firestore.FirestoreFailuresDoNotMatter | internal/state/gcp_services.go:58-74 | two runs that differ only in requests whose save fails agree in every state and every commit |
| Firestore.ApplyTouchesOne | internal/server/firestore.go:276-355 | a write changes no other document |
| FirestoreConditions.RefusedIff | internal/server/firestore.go:357-372 | a write is refused with FailedPrecondition exactly when the document does not exist, or was not last changed, as its precondition says |
| FirestoreConditions.AcceptedMeetsAndDates | internal/server/firestore.go:276-355 | an accepted write met its precondition; it leaves no document, or one with update time now and the old create time or now, and no other change |
| FirestoreConditions.CommitRefusedIff | internal/server/firestore.go:160-177 | a commit fails with FailedPrecondition exactly when its first write that is not accepted does not meet its precondition in the documents the writes before it left |
| FirestoreConditions.CommitMeetsAndDates | internal/server/firestore.go:160-177 | in a commit that succeeds every write met its precondition there and dated its document |
| FirestoreConditions.BatchStatusIff | internal/server/firestore.go:179-198 | in a batch the same of every single status |
| FirestoreConditions.AtMostOneAccepted | internal/server/firestore.go:276-372 | over every run with any failed saves, of two writes of one document that rely on the same update time, in requests later than it, at most one is accepted, in one request or in two |
| FirestoreTransforms.WireKeepsIff | internal/server/firestore.go:266-274 | encoding and decoding keeps a value exactly when no map inside it is empty |
| FirestoreTransforms.EqualIff | internal/server/firestore.go:404-409 | the equality of array elements tells values apart but for nil and empty maps |
| FirestoreTransforms.UpdateStoresFields | internal/server/firestore.go:296-297 | an accepted update without mask and transforms stores the fields as sent |
| FirestoreTransforms.UpdateMergesFields | internal/server/firestore.go:298-307 | with a mask it takes over exactly the masked fields, and deletes those it does not have |
| FirestoreTransforms.TransformedMakes | internal/server/firestore.go:374-455 | server time is now; an increment adds as doubles or modulo 2^64, and gives the amount where the field is missing; maximum and minimum are the larger and the smaller of the two values under every comparison consistent on them; the array transforms add or remove exactly the candidates |
| FirestoreTransforms.TransformDecides | internal/server/firestore.go:374-440 | every transform finds what the ones before it left and decides its field, unless a later one overlaps |
| FirestoreTransforms.TransformsKeepRest | internal/server/firestore.go:374-440 | fields that diverge from every transformed one stay |
| FirestoreTransforms.TransformStores | internal/server/firestore.go:334-351 | an accepted transform of a document stores that of the field the document had |
| Firestore.AppendMissingAdds | internal/server/firestore.go:396-414 | the old elements stay as a prefix, every candidate is a member, nothing else is added |
| Firestore.AppendMissingTwice | internal/server/firestore.go:396-414 | appending again changes nothing |
| Firestore.RemoveAllRemoves | internal/server/firestore.go:415-432 | exactly the elements equal to no candidate remain |
| FirestoreService.AppendElements | internal/server/firestore.go:396-414 | the nested loops compute that array |
| FirestoreService.RemoveElements | internal/server/firestore.go:415-432 | the nested loops compute that array |
| FirestoreService.MaskFields | internal/server/firestore.go:296-307 | the loop computes the masked update or panics as specified |
| FirestoreService.TransformFields | internal/server/firestore.go:374-440 | the loop computes all transforms, or the failure or panic of the first that stops |
| FirestoreService.WorkingMap.ApplyWrite | internal/server/firestore.go:276-355 | changes the working map in place as specified, and not at all when it fails or panics; refused with FailedPrecondition exactly when the document does not exist, or was not last changed, as the write says; an accepted write leaves update time now, or no document |
| FirestoreService.FirestoreStore.Commit | internal/server/firestore.go:160-177 | documents become the fold of all writes and are saved, or stay untouched; it succeeds only if every write met its precondition in the documents the writes before it left, and fails with FailedPrecondition exactly when the first that is not accepted does not |
| FirestoreService.FirestoreStore.BatchWrite | internal/server/firestore.go:179-198 | documents become the fold of the writes reported OK; each status is FailedPrecondition exactly when its write does not meet its precondition in the documents the writes before it left |

## Left out

- HTTP, XML, JSON and gRPC handlers, routing, the dashboard and the CLI: plumbing.
- Cryptography, hashes, base64, JSON and protobuf: hashes are injective, codecs are round trips.
- `flock`, `fsync` and power loss: each rename with its sync is one durable step.
- Temporary files of `state.json` and of the journal, and directory entries that are not regular files.
- File removals that fail (`_ = os.Remove`): they leave unreferenced files, which the next start removes.
- Data directories of older versions, with file names without a content hash.
- Secret Manager, KMS, IAM, FCM and Vertex stores: append and lookup.
- Firestore queries, cursors and the comparison of values of different types; `compareFirestoreValues` is a parameter.
- The save that fails because an attribute value without members cannot be encoded is one of the saves that may fail.
- DynamoDB update expressions and projections: the update and the projection are parameters, as are `dynamoCompare` and `dynamoBeginsWith`.
- Matching of S3 notifications: the queue operation `Notify` enqueues the event.
- FirestoreTransforms.TransformedMakes: speaks of maximum and minimum for comparisons that are consistent on the two values; `compareFirestoreValues` is not across types, and compares integers as doubles.
- The text of a redrive policy and of an ARN, and of numeric queue attributes: the parsed values are given.
- Case folding beyond ASCII, and the trimming of multi-byte spaces in attribute names; doubles, which are reals; the wrap of the int32 delivery attempt.
- Firestore maps nested in values are values: update in place through a pointer is not modelled.
- ObjectService.ObjectStore.CreateBucket: asks for a NUL-free name, which the source does not check; `NulMeansCollision` shows why the object theorems need it.
- ObjectService.ObjectStore.CreateGcsBucket: asks for a NUL-free name, for the same reason.
- QueueRuns.AlwaysLegal: asks that every number drawn fits its counter; `SentKeepsNumbersIff` and `RedrivenKeepsNumbersIff` say what happens at the wrap.
- DynamoRuns.AlwaysClean: asks that stored keys survive cloning and that no key has 0x01 before its last component; `PutKeepsIndex` and `CollidesIff` say what happens otherwise.
- DynamoRuns.AlwaysIndexed: asks that stored keys survive cloning; `TwoMembersBreakIndex` shows why.
- SnapshotRestore.DataDirectory.LoadSnapshot: asks that the loaded state, once encoded again, is not over 256 MiB; a saved snapshot that the reader accepts has at most 64 MiB, one edited by hand is not modelled.
- The recovery that a failing call of `LoadSnapshot` starts in the same process, when the live `state.json` is over 256 MiB: the failure of that recovery is ignored by the code and not modelled.
- Snapshots.SnapshotRoot.Save: file system errors other than a missing object, and the strict mode's check before saving, are not modelled.
