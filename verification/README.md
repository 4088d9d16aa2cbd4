# Distributed prime finder on a replicated file system: a verified model

The repository finds the distinct primes in a set of number files. A coordinator hands the
files to workers, merges the primes they stream back, checkpoints its progress, and writes one
sorted output file. The input, the checkpoint and the output all live on AFS, a small replicated
file system with whole-file client caches, a primary with backups, and an election when the
primary is gone. This project models the parts of it that are hard to get right and proves
properties over all inputs, all runs and all reachable states.

| module | what it is about | main results |
|---|---|---|
| `Congruence`, `Primality` | number theory from first principles | Euclid's lemma, the binomial theorem, Fermat's little theorem, square roots of 1 |
| `Words`, `MillerRabin` | the primality test on 64-bit words | no overflow; no prime is rejected; the exact meaning of acceptance |
| `Sequences`, `Decimal` | chunking; number files as text | print/parse round trip |
| `Worker` | filter, drop repeats, batch, stream | the received stream is the kept numbers or nothing |
| `Coordinator` | pending files, assignment, merge, output | workers, reassignments and arrival order are invisible in the output |
| `Recovery` | runs, failing AFS calls, crashes, restarts | every complete history ends in the same bytes; exactly when runs complete, and with what |
| `Handler` | one AFS server and its reply table | exactly-once execution, no panic |
| `Sync` | how a recovering server catches up | stream round trip; what a broken stream leaves behind |
| `Failover` | one path on many servers, with crashes at any phase | durability, growing versions and truncated copies, each with its exact condition |
| `ClientCache`, `AfsClient`, `SnapshotStore` | whole-file caching by many clients; the client object; how snapshots and outputs are written | a validated copy is the server's content, and exactly when it may not be |
| `Election`, `Returning` | interleaved elections, crashes, restarts, late announcements | at most one live primary; exactly when a lost one returns |

Code that works by changing state is written as methods with loops and as classes, and each is
proved against a function whose properties are then proved as lemmas. Protocols are state
machines; a history is a sequence of states, and a property of all histories is a lemma about
every index of every such sequence.

## What the code does not do as described

Where a promise is false of the code, the model follows the code. Most have a concrete history
or input, and, where a caller or operator could tell beforehand, the exact condition.

- `README.md` line 27 of the repository says that at most one file of work is lost. A snapshot
  is deleted, created and stored, so a crash in between loses all completed files
  (`CrashCanLoseTwoFiles`). As long as no AFS call fails, the bound holds exactly outside that
  window or with fewer than two completed files (`CrashLosesAtMostOneFile`). A failed save is
  only logged, and then the bound breaks outside the window, too (`FailedSavesLoseTwoFiles`);
  `CrashLosesAtMostOneFileIff` is the exact condition whatever fails, and
  `SuccessfulSavesLoseAtMostOne` covers runs whose saves succeed.
- A run whose completed files hold no primes can never complete: an empty output has no chunks,
  and a store without chunks is refused (`StoresOutputIffPrimes`). A run that finds nothing
  pending leaves the snapshot where it is (`LeftoverSnapshot`, `SnapshotIsLeftBehind`).
- A file that fails on every worker is only logged; the run still succeeds, and its primes are
  missing (`FailedFileIsOnlyLogged`, `OutputIsExpectedIff`).
- Two workers that share an address each process that address's whole load
  (`EveryFileIsSentOnce`); the output stays the same (`WorkersAreInvisible`).
- A sync stream that breaks off leaves a truncated file under the full version, and no later
  sync of that version repairs it (`ResyncRepairsOnlyWholeFiles`).
- The table of replies is not replicated, so exactly-once execution ends with the primary: a
  retried store runs again on the promoted server (`RecordedIffExecutedHere`,
  `RetryOnPromotedServer`, `StoreRunsTwiceAcrossFailover`).
- A store is acknowledged even if a live backup missed it
  (`UnreplicatedStoreIsAcknowledged`); if that backup is promoted, a later store can return the
  same version again. Versions are safe exactly when every live server held the acknowledged
  one (`SafeIffHeldByAll`). A backup that missed a large store can sync a part of it, be promoted
  and serve that part under the full version (`TruncatedStoreIsServed`, `ServesTruncatedIff`).
- Deleting and re-creating a file repeats its versions, and so does a restart of the server,
  which gives every file version 1; another client's old copy is then validated
  (`RecreationDefeatsValidation`, `RestartDefeatsValidation`). After a failed close the next open
  serves bytes the server never got (`FailedCloseServesUnsavedBytes`). The version that a broken
  fetch saw is kept for the next attempt, and is recorded for an empty file that arrives without
  one (`FetchRecordsStaleVersion`, `BrokenFetchDefeatsValidation`). `GoesWrongIff` says exactly
  which copies can come to be wrongly confirmed without a further delete or restart.
- A file stored under the name of an input file is not served, as the input directory comes
  first (`StoredBytesAreServedIff`). The client that stored it sees its own bytes after its first
  store and the input file after any later one (`NextOpenShowsStoredIff`).
- A late announcement demotes a live primary whose monitor has ended. While it is the least live
  server no primary returns, even if others monitor (`DemotedIffAnnouncementPending`,
  `ReturnsIffLeastMonitors`, `LateAnnouncementStrandsTheCluster`).
- The bound in the comment at `primefinder/pkg/prime/miller_rabin.go` line 26 is the one for 13
  bases, and there are 12. They still cover 64-bit words, by a published computation that is
  carried as the premise `NoStrongPseudoprime` and never assumed.

## Model

| member | source | states |
|---|---|---|
| `Primality.EuclidsLemma` | primefinder/pkg/prime/miller_rabin.go:30-51 | a prime dividing a product divides a factor; proved from the extended Euclidean algorithm, as a basis for the witness loop |
| `Primality.FermatsLittleTheorem` | primefinder/pkg/prime/miller_rabin.go:30-51 | a^(p-1) is 1 modulo a prime p that does not divide a, proved by the binomial theorem |
| `Primality.SquareRootsOfOne` | primefinder/pkg/prime/miller_rabin.go:40-47 | modulo a prime, x squared is 1 only if x is 1 or -1: what the squaring loop relies on |
| `Primality.SmallestPrimeDivisor` | primefinder/pkg/prime/miller_rabin.go:14-51 | every composite number has a prime divisor whose square does not exceed it |
| `MillerRabin.AddMod` | primefinder/pkg/prime/miller_rabin.go:71-78 | (a+b) mod m over the integers for all words and m > 0; no operation wraps around |
| `MillerRabin.MulMod` | primefinder/pkg/prime/miller_rabin.go:57-68 | a*b mod m over the integers for all words and m > 0, without overflow |
| `MillerRabin.ModPow` | primefinder/pkg/prime/miller_rabin.go:81-95 | base^exp mod m over the integers for all words and m > 0, including m = 1 |
| `MillerRabin.HalveFactor` | primefinder/pkg/prime/miller_rabin.go:60-66 | one round of Russian-peasant multiplication preserves acc + x*y modulo m |
| `MillerRabin.HalveExponent` | primefinder/pkg/prime/miller_rabin.go:87-93 | one round of square-and-multiply preserves acc * x^e modulo m |
| `MillerRabin.SplitPowersOfTwo` | primefinder/pkg/prime/miller_rabin.go:18-24 | n-1 = 2^r * d with d odd and r at least 1, for odd n above 1 |
| `MillerRabin.SplitIsUnique` | primefinder/pkg/prime/miller_rabin.go:18-24 | that split is the only one |
| `MillerRabin.CheckWitness` | primefinder/pkg/prime/miller_rabin.go:30-51 | a base passes exactly when n is a strong probable prime to it: the loop makes neither too few nor too many squarings |
| `MillerRabin.IsPrime` | primefinder/pkg/prime/miller_rabin.go:6-53 | for every word, the answer is the mathematical acceptance condition, and it is true for every prime |
| `MillerRabin.AcceptedIff` | primefinder/pkg/prime/miller_rabin.go:18-52 | above 7 and coprime to 30, with n-1 = 2^r * d and d odd: accepted if and only if for every listed base a below n, a^d is 1 or a^(2^i * d) is -1 for some i below r, modulo n |
| `MillerRabin.PassedBaseShowsNoOtherRoot` | primefinder/pkg/prime/miller_rabin.go:40-47 | a passed base shows no square root of 1 but 1 and -1: if a^(2^(i+1) * d) is 1 modulo n, then a^(2^i * d) is 1 or -1 |
| `MillerRabin.AcceptedShowsNoOtherRoot` | primefinder/pkg/prime/miller_rabin.go:30-51 | an accepted number shows no other square root of 1 to any listed base below it |
| `MillerRabin.DescendSquareRoots` | primefinder/pkg/prime/miller_rabin.go:40-47 | modulo a prime, if some repeated square is 1 then a^d was 1 or an earlier square was -1 |
| `MillerRabin.PrimesAreStrongProbablePrimes` | primefinder/pkg/prime/miller_rabin.go:30-51 | a prime passes every base below it |
| `MillerRabin.PrimesAreAccepted` | primefinder/pkg/prime/miller_rabin.go:6-53 | no prime of any size is rejected |
| `MillerRabin.DividingBaseFails` | primefinder/pkg/prime/miller_rabin.go:30-51 | a base that properly divides n never reaches 1 or -1 |
| `MillerRabin.AcceptedHasNoSmallFactor` | primefinder/pkg/prime/miller_rabin.go:14-51 | an accepted number divisible by a listed base is that base |
| `MillerRabin.ExactBelow1681` | primefinder/pkg/prime/miller_rabin.go:6-53 | below 41 squared the test is exactly primality, without enumeration |
| `MillerRabin.ExactUnderPremise` | primefinder/pkg/prime/miller_rabin.go:26-52 | under the stated premise the test is primality for every word |
| `MillerRabin.ExactIffNoStrongPseudoprime` | primefinder/pkg/prime/miller_rabin.go:26-52 | the premise is exactly what is needed: the test decides primality of all words if and only if it holds |
| `Sequences.PiecesRebuild` | afsfs/pkg/server/replication.go:107-129 | chunks concatenate to the content, none is empty or too long, and all but the last are full |
| `Decimal.PrintParseRoundTrip` | primefinder/cmd/worker/main.go:95-107 | printing any words and scanning, trimming and parsing the text returns them; no line overflows the scanner |
| `Decimal.ShortLinesAreRead` | primefinder/cmd/worker/main.go:95-98 | any newline-free lines below 256 bytes, the last one with or without a newline, are all read, each without its carriage return |
| `Decimal.LongLineEndsTheScan` | primefinder/cmd/worker/main.go:95-98 | a line of 256 bytes or more ends the scan with an error after exactly the lines before it |
| `Decimal.TrimLaw` | primefinder/cmd/worker/main.go:99-102 | blanks around a word are trimmed, and nothing else |
| `Decimal.NumeralLine` | primefinder/cmd/worker/main.go:99-106 | a decimal numeral with any blanks around it and any zeros before it gives its number if it fits in 64 bits, and nothing otherwise |
| `Decimal.OtherLine` | primefinder/cmd/worker/main.go:99-106 | a blank line, or a word with any other character in it, gives nothing |
| `Decimal.EveryNumeral` | primefinder/cmd/worker/main.go:103-106 | every word of digits is a numeral with zeros before it, so these cases are all |
| `Decimal.ValueOfFirst` | primefinder/cmd/worker/main.go:103-106 | a digit counts for the power of ten at its place |
| `Decimal.PrintLinesInjective` | primefinder/pkg/coordinator/coordinator.go:317-330 | equal output texts mean equal number sequences |
| `Decimal.WordFitsTwentyDigits` | primefinder/cmd/worker/main.go:95-96 | a printed word has at most 20 digits, well below the 256-byte line limit |
| `Worker.KeptHoldsTheAcceptedNumbersOnce` | primefinder/cmd/worker/main.go:98-122 | the kept numbers are exactly the accepted numbers of the file, each once |
| `Worker.KeptInFirstOccurrenceOrder` | primefinder/cmd/worker/main.go:98-122 | they stand in the order of their first occurrences |
| `Worker.ScanFile` | primefinder/cmd/worker/main.go:91-147 | whatever number of sends succeed, the messages sent are that prefix of the file's message list, and an unbroken scan has found all kept numbers |
| `Worker.WorkerServer.constructor` | primefinder/cmd/worker/main.go:37-42 | a worker starts with nothing seen |
| `Worker.WorkerServer.ProcessFile` | primefinder/cmd/worker/main.go:48-170 | what is sent on every path including open and scan errors; worker state takes in the file's accepted numbers exactly when the whole stream succeeded, and stays unchanged otherwise |
| `Worker.WorkerServer.MergeFound` | primefinder/cmd/worker/main.go:149-156 | the worker's primes become the union, without duplicates |
| `Worker.TryWorker` | primefinder/pkg/coordinator/coordinator.go:284-314 | the receive loop computes the meaning of the stream; any error discards everything |
| `Worker.StreamRefinement` | primefinder/cmd/worker/main.go:91-147 | for any text and any number of successful sends, the coordinator gets exactly the kept numbers and the count, or a failure |
| `Worker.TryIsAllOrNothing` | primefinder/pkg/coordinator/coordinator.go:270-315 | whatever a worker manages to open and deliver, one try gives the kept numbers and the count of a readable file, or a failure |
| `Worker.WholeTryIsPossible` | primefinder/pkg/coordinator/coordinator.go:270-315 | every readable file can be received whole |
| `Worker.BatchesAreFull` | primefinder/cmd/worker/main.go:109-136 | every batch is non-empty and at most 10000 long, and all but the last have exactly 10000 |
| `Coordinator.StrictlyIncreasingUnique` | primefinder/pkg/coordinator/coordinator.go:343-354 | a set has only one strictly increasing listing |
| `Coordinator.DedupAndSort` | primefinder/pkg/coordinator/coordinator.go:343-354 | the result is the strictly increasing listing of the set of inputs |
| `Coordinator.BuildSeenSet` | primefinder/pkg/snapshot/snapshot.go:166-172 | the set of the given primes |
| `Coordinator.FilterPending` | primefinder/pkg/coordinator/coordinator.go:186-198 | the loop computes the pending list |
| `Coordinator.PendingIsTheRest` | primefinder/pkg/coordinator/coordinator.go:186-198 | pending is exactly discovered minus completed, and has no duplicates if discovery has none |
| `Coordinator.AssignFiles` | primefinder/pkg/coordinator/coordinator.go:237-244 | each address gets exactly the files whose position leads to it, in order; no other address gets any |
| `Coordinator.EveryFileIsSentOnce` | primefinder/pkg/coordinator/coordinator.go:99-114 | at least one result per file is sent, and exactly one per file if and only if no worker given a file shares its address |
| `Coordinator.DistinctWorkersSendOnce` | primefinder/pkg/coordinator/coordinator.go:99-114 | with distinct addresses the number of results is the number of pending files, so the channel's buffer suffices |
| `Coordinator.LoadsAreBalanced` | primefinder/pkg/coordinator/coordinator.go:237-244 | with distinct addresses each worker gets m / n files, and the first m % n one more |
| `Coordinator.LoadIsEveryNth` | primefinder/pkg/coordinator/coordinator.go:237-244 | the j-th file of worker k is file n*j + k |
| `Coordinator.ProcessOneFile` | primefinder/pkg/coordinator/coordinator.go:246-268 | own worker first, then in order each worker with another id, until a try succeeds |
| `Coordinator.SucceedsIffSomeWorkerDoes` | primefinder/pkg/coordinator/coordinator.go:246-268 | a file succeeds if and only if its own worker or one with another id does, with that worker's result |
| `Coordinator.AssignmentIsAPartition` | primefinder/pkg/coordinator/coordinator.go:237-244 | the workers process between them the given files and no others, and with distinct addresses each as often as it is listed |
| `Coordinator.MergePrimesIsUnion` | primefinder/pkg/coordinator/coordinator.go:131-136 | merging yields the union and keeps freedom from duplicates |
| `Coordinator.MergeKeepsAccurate` | primefinder/pkg/coordinator/coordinator.go:130-141 | merging a file's kept numbers keeps the collected primes equal to the primes of the completed files |
| `Coordinator.CoordinatorState.constructor` | primefinder/pkg/coordinator/coordinator.go:59-95 | a run starts from the snapshot or from nothing, with the seen set equal to the collected primes |
| `Coordinator.CoordinatorState.MergeResult` | primefinder/pkg/coordinator/coordinator.go:130-137 | one result is merged, and seen stays the set of collected primes |
| `Coordinator.CoordinatorState.MergeLoop` | primefinder/pkg/coordinator/coordinator.go:121-162 | the whole loop: the final state, every snapshot taken, and the output text |
| `Coordinator.FormatOutput` | primefinder/pkg/coordinator/coordinator.go:317-330 | the output is the sorted distinct primes, one per line |
| `Coordinator.MergeLoopInvariant` | primefinder/pkg/coordinator/coordinator.go:121-156 | for every arrival order, the collected primes are the primes of the completed files without duplicates, and the completed files are the earlier ones plus those that succeeded |
| `Coordinator.SnapshotsAreAccurate` | primefinder/pkg/coordinator/coordinator.go:137-156 | every snapshot on the way is accurate, and its pending list is discovered minus completed |
| `Coordinator.SnapshotAfterEachSuccess` | primefinder/pkg/coordinator/coordinator.go:137-156 | after each result without an error there is a snapshot with the tally up to it |
| `Coordinator.OneSnapshotPerSuccess` | primefinder/pkg/coordinator/coordinator.go:121-156 | there are no other snapshots |
| `Coordinator.RepeatedMergeInvariant` | primefinder/pkg/coordinator/coordinator.go:121-156 | the same when files are reported more than once: the collected primes are the primes of the completed files without duplicates |
| `Coordinator.ArrivalOrderIsInvisible` | primefinder/pkg/coordinator/coordinator.go:121-162 | any two arrival orders in which the same files succeed, repeated or not, give the same output bytes |
| `Coordinator.ResultIsAllOrNothing` | primefinder/pkg/coordinator/coordinator.go:246-315 | by whichever tries and reassignments, a file's result is a failure or exactly its kept numbers |
| `Coordinator.ArrivalsAreLegitimate` | primefinder/pkg/coordinator/coordinator.go:99-119 | for any workers, the results are those of exactly the pending files, each a failure or exactly the kept numbers; with distinct addresses there is one for each |
| `Coordinator.WorkersAreInvisible` | primefinder/pkg/coordinator/coordinator.go:95-162 | any two groups of workers, shared addresses included, assignments, reassignments and arrival orders in which the same files succeed give the same output bytes |
| `Coordinator.EveryAssignmentCompletes` | primefinder/pkg/coordinator/coordinator.go:95-162 | if every file succeeds at least once, the output is the sorted primes of all files, completed before or now |
| `Recovery.BehaviourInv` | primefinder/pkg/coordinator/coordinator.go:59-170 | the invariant of all histories of runs, failing AFS calls, crashes, restarts, and failovers that bring back an older, empty or missing snapshot |
| `Recovery.CompletedRunOutput` | primefinder/pkg/coordinator/coordinator.go:121-169 | a run that returned nil has stored the sorted primes of exactly the completed files, and every other discovered file failed |
| `Recovery.CrashResumeEquivalence` | primefinder/pkg/coordinator/coordinator.go:59-170 | after any history of crashes at any step, a completed run over all inputs that sees no error leaves the expected output |
| `Recovery.AnyTwoHistoriesAgree` | primefinder/pkg/coordinator/coordinator.go:59-170 | two such histories, interrupted or not, leave the same bytes |
| `Recovery.ExpectedOutputReadBack` | primefinder/pkg/coordinator/coordinator.go:317-354 | that output reads back as the strictly increasing accepted numbers of all inputs; every prime of an input is there |
| `Recovery.SnapshotIsNeverTorn` | primefinder/pkg/snapshot/snapshot.go:134-218 | in every reachable state a readable snapshot is an accurate tally of the files it lists |
| `Recovery.OutputIsExpectedIff` | primefinder/pkg/coordinator/coordinator.go:121-169 | a finished run left the expected output if and only if its completed files hold all primes of the input |
| `Recovery.FailedFileIsOnlyLogged` | primefinder/pkg/coordinator/coordinator.go:121-126 | for any file with a prime that no other file has, a history in which it fails and the run ends without an error and without that prime |
| `Recovery.StoresOutputIffPrimes` | afsfs/pkg/server/handler.go:457-459 | a run about to store its output can complete if and only if some completed file holds a prime |
| `Recovery.CompletedRunHasPrimes` | afsfs/pkg/server/handler.go:457-459 | every run that has completed has a completed file with a prime |
| `Recovery.EveryOutcomeIsPossible` | primefinder/pkg/coordinator/coordinator.go:59-170 | whichever files fail, if the others are readable and hold a prime, a run completes with exactly those failures |
| `Recovery.SomeRunCompletesIff` | primefinder/pkg/coordinator/coordinator.go:59-170 | some history ends in an error-free run over all files if and only if all are readable and one holds a prime |
| `Recovery.CrashLosesAtMostOneFile` | primefinder/pkg/snapshot/snapshot.go:175-192 | if no AFS call fails, a crash loses at most one file if and only if it is outside the delete-to-store window or fewer than two files are completed |
| `Recovery.CrashLosesAtMostOneFileIff` | primefinder/pkg/coordinator/coordinator.go:137-156 | whatever calls fail, a crash of a run that read its snapshot loses at most one file if and only if at most one is completed, or the snapshot is in place and lacks at most the last result |
| `Recovery.SuccessfulSavesLoseAtMostOne` | primefinder/pkg/coordinator/coordinator.go:137-156 | if the saves have succeeded since some moment before the run, whatever else fails, a crash outside the window of a save loses at most one file |
| `Recovery.FailedSavesLoseTwoFiles` | primefinder/pkg/coordinator/coordinator.go:146-155 | for any two readable files, a history in which both saves fail, the run goes on, and a crash loses both outside any save |
| `Recovery.CrashCanLoseTwoFiles` | primefinder/pkg/snapshot/snapshot.go:175-192 | for any two readable files, a history without failing calls in which a crash loses both |
| `Recovery.LeftoverSnapshot` | primefinder/pkg/coordinator/coordinator.go:78-81 | a completed run removes the snapshot if it had pending files and leaves it otherwise |
| `Recovery.SnapshotIsLeftBehind` | primefinder/pkg/coordinator/coordinator.go:78-81 | for any readable file with a prime, a history in which a run finds nothing pending, completes and leaves the snapshot |
| `Handler.DedupKeyInjective` | afsfs/pkg/server/handler.go:741-743 | distinct client ids or sequence numbers never share a key, even with colons in ids |
| `Handler.HandlerObject.constructor` | afsfs/pkg/server/handler.go:66-113 | files on disk start at version 1, and all tables are empty |
| `Handler.HandlerObject.Open` | afsfs/pkg/server/handler.go:305-334 | whole new state and reply: replay, not found, or a fresh handle |
| `Handler.HandlerObject.FetchFile` | afsfs/pkg/server/handler.go:339-373 | the content in chunks with the version TestAuth reports, or nothing exactly when the file is missing |
| `Handler.HandlerObject.TestAuth` | afsfs/pkg/server/handler.go:377-389 | valid exactly when the cached version is the server's |
| `Handler.HandlerObject.StoreFile` | afsfs/pkg/server/handler.go:394-482 | whole new state and reply for every stream: refused, replayed, broken, empty, or stored at the next version |
| `Handler.HandlerObject.CreateFile` | afsfs/pkg/server/handler.go:486-528 | whole new state and reply: refused, replayed, exists, or an empty file at version 1 |
| `Handler.HandlerObject.DeleteFile` | afsfs/pkg/server/handler.go:532-563 | whole new state and reply: refused, replayed, or file and version removed |
| `Handler.HandlerObject.CloseFile` | afsfs/pkg/server/handler.go:567-579 | only that handle goes, and whether it was known |
| `Handler.HandlerObject.Replicate` | afsfs/pkg/server/handler.go:584-664 | deletes and creates act on the first chunk, a store only at the end of its stream |
| `Handler.SendPieces` | afsfs/pkg/server/replication.go:107-129 | the read loop sends exactly the 1 MB pieces of the content |
| `Handler.SendReplica` | afsfs/pkg/server/replication.go:71-129 | a delete or create is one chunk; of a store only the first chunk carries operation, path and version |
| `Handler.StoreDelivers` | afsfs/pkg/server/handler.go:394-482 | a client's framed store leaves exactly its bytes at the next version; an empty file is refused |
| `Handler.ReplicationDelivers` | afsfs/pkg/server/handler.go:584-664 | a whole replication stream leaves exactly the primary's bytes and version, a broken one leaves the backup as it was |
| `Handler.BrokenStoreChangesNothing` | afsfs/pkg/server/handler.go:409-420 | a store stream that breaks changes nothing |
| `Handler.AlwaysConsistent` | afsfs/pkg/server/handler.go:394-664 | over every history of requests, role changes and replications, deletes included, versions and files stay in step, with versions at least 1 |
| `Handler.BackupRefusesMutations` | afsfs/pkg/server/handler.go:395-397 | a server that is not primary answers every store, create and delete with the refusal of its kind and stays as it is; an open changes no file |
| `Handler.BackupChangesByReplicasOnly` | afsfs/pkg/server/handler.go:584-664 | over every history of a server that is never primary, its files and versions are what the replicated operations alone make of them |
| `Handler.RecordedIffSuccessful` | afsfs/pkg/server/handler.go:475-479 | a reply with an error leaves the server as it was, and one without is recorded |
| `Handler.NewHandleIsFresh` | afsfs/pkg/server/handler.go:320-332 | an executed open or create enters a handle that was not in the table, with the path and mode of the request |
| `Handler.HandlesAreNeverReused` | afsfs/pkg/server/handler.go:320-332 | no two executed calls of a history give out the same handle |
| `Handler.VersionMeans` | afsfs/pkg/server/handler.go:377-389 | the version of a stored file is that of its copy; input files have version 1 and missing files version 0 |
| `Handler.ExactlyOnce` | afsfs/pkg/server/handler.go:305-563 | over every history of requests, retries, role changes and replications, files, versions and handles are those of a server without a reply table that executes each key at most once |
| `Handler.RetryReplaysFirstReply` | afsfs/pkg/server/handler.go:428-434 | after anything in between, a retry changes nothing and gets the first reply |
| `Handler.RecordedIffExecutedHere` | afsfs/pkg/server/handler.go:475-479 | in any history a server answers a request from its table if and only if it executed that key itself, since the table is not replicated |
| `Handler.RetryOnPromotedServer` | afsfs/pkg/server/handler.go:394-563 | on a promoted server that did not execute the request itself, a retried store of what it holds runs again and returns the next version, a retried create is refused, and a retried delete is harmless |
| `Handler.StoreRunsTwiceAcrossFailover` | afsfs/pkg/server/handler.go:467-482 | end to end: a store whose reply is lost with the primary is executed a second time on the promoted backup |
| `Handler.NoPanic` | afsfs/pkg/server/handler.go:491-497 | if each sequence number is used for one kind of operation, no handler panics, in any history |
| `Handler.CountingClientsNeverPanic` | afsfs/pkg/afs/client.go:129-136 | clients that take each number from a counter never make a server panic, however often and in whatever parts their requests arrive |
| `Handler.PanicsIffNumberReused` | afsfs/pkg/server/handler.go:428-434 | in any history a request panics if and only if it is not refused and its client used its sequence number before for an executed operation of another kind |
| `Sync.SyncState` | afsfs/pkg/server/handler.go:669-721 | the sender's loop produces the framing of all files |
| `Sync.SendFile` | afsfs/pkg/server/handler.go:692-717 | only a file's first chunk is named; all carry its version |
| `Sync.ReceiveSync` | afsfs/pkg/server/handler.go:172-251 | the receive loop is the fold of the chunks plus a final installation, whether the stream ended or broke |
| `Sync.SyncDelivers` | afsfs/pkg/server/handler.go:669-721 | for any distinctly named files, sending and receiving to the end gives every missing or older file with bytes the sender's bytes and version and leaves empty files and all other names as they were |
| `Sync.SyncRoundTrip` | afsfs/pkg/server/handler.go:172-251 | the same for any cut of the contents into non-empty pieces |
| `Sync.InstallAllMeans` | afsfs/pkg/server/handler.go:212-219 | name by name, what installing a list of files does |
| `Sync.BrokenStreamInstallsAPrefix` | afsfs/pkg/server/handler.go:238-247 | a stream that breaks inside a file installs the part that arrived under the full version |
| `Sync.ResyncRepairsOnlyWholeFiles` | afsfs/pkg/server/handler.go:212-247 | after a later complete sync the receiver has the sender's bytes of that file if and only if the stream broke at its end |
| `Failover.BehaviourInv` | afsfs/pkg/server/handler.go:394-482 | the invariant of all cluster histories with crashes at every phase and syncs, whole or broken, between mutations |
| `Failover.CrashLeavesOldOrNew` | afsfs/pkg/server/handler.go:457-482 | a primary crashing at any phase of a store leaves on each live backup the whole old or whole new content and version |
| `Failover.AcknowledgedStoreSurvives` | afsfs/pkg/server/replication.go:46-67 | a store acknowledged after reaching every live server is what each of them holds through any crashes and promotions until the next mutation |
| `Failover.VersionsStrictlyIncrease` | afsfs/pkg/server/handler.go:467-473 | of two acknowledged stores of one incarnation the later has the larger version if the earlier was held by every live server, across failovers |
| `Failover.VersionCanRepeat` | afsfs/pkg/server/election.go:87-97 | any live server that lacks an acknowledged version can be promoted and return it, or a smaller one, again |
| `Failover.SafeIffHeldByAll` | afsfs/pkg/server/replication.go:46-67 | after an acknowledgement, the next one is larger in every continuation if and only if every live server held it |
| `Failover.UnreplicatedStoreIsAcknowledged` | afsfs/pkg/server/replication.go:55-66 | a history in which a live backup misses an acknowledged store |
| `Failover.ServesTruncatedIff` | afsfs/pkg/server/handler.go:212-247 | after an acknowledged store and before the next mutation, a primary can come to serve a truncated copy of it if and only if the file is larger than a chunk and some live server lags or already has such a part |
| `Failover.TruncatedStoreIsServed` | afsfs/pkg/server/election.go:48-52 | for every content larger than a chunk, a history in which its acknowledged store is later served truncated |
| `Failover.HandlerStores` | afsfs/pkg/server/handler.go:467-481 | the machine's store steps are what the handler does to one path, and other paths are untouched |
| `Failover.HandlerReplicates` | afsfs/pkg/server/handler.go:584-664 | for every operation as it is sent: a delete removes file and version, a create makes an empty file, a store installs the whole copy if its stream ends and nothing if it breaks; other paths are left alone |
| `Failover.HandlerCreatesAndDeletes` | afsfs/pkg/server/handler.go:486-563 | the primary's creates and deletes of one path, and other paths are left alone |
| `Failover.StoreStepsAreTheHandlers` | afsfs/pkg/server/handler.go:462-475 | the machine's begin, rename and raise give the primary the handler's copy and tell every other server just that |
| `Failover.OtherStepsAreTheHandlers` | afsfs/pkg/server/handler.go:503-558 | the machine's creates and deletes give the primary the handler's copy and tell every other server just that |
| `Failover.TellingIsTheHandlers` | afsfs/pkg/server/handler.go:584-664 | a backup that the machine tells has what its handler makes of the chunks for that operation |
| `Failover.ReceiverCatchesUp` | afsfs/pkg/server/handler.go:172-251 | the machine's sync step is what the sync receiver does to one path |
| `ClientCache.BehaviourInv` | afsfs/pkg/afs/client.go:128-411 | the invariant of all histories of many clients, one RPC per step, with repeated fetches and server restarts that set versions back to 1 |
| `ClientCache.MutationsAreTheHandlers` | afsfs/pkg/server/handler.go:394-563 | the machine's stores, creates and deletes are what the handlers do to one path, with their replies |
| `ClientCache.AnswersAreTheHandlers` | afsfs/pkg/server/handler.go:339-389 | validations and fetches are answered from the handler's copy, and a restart is what the start-up scan makes of it |
| `ClientCache.CleanCopyIsItsVersion` | afsfs/pkg/afs/client.go:128-347 | a clean cached copy whose recorded version is from the current incarnation is what the server held at that version |
| `ClientCache.ValidatedCopyIsCurrent` | afsfs/pkg/afs/client.go:149-168 | an open that skips the fetch opens the server's content and version of that instant, for clean copies recorded in the current incarnation |
| `ClientCache.ConfirmedCopyIsCurrent` | afsfs/pkg/afs/client.go:149-168 | if nobody has deleted the path, the server has not been restarted and no close of this client has failed, every confirmed copy with a positive version is the server's content of that instant |
| `ClientCache.GoesWrongIff` | afsfs/pkg/afs/client.go:149-168 | a resting client's copy can come to be wrongly confirmed, without any further delete or restart, if and only if its recorded version is ahead of the server's or equal to it with other bytes; for a deleted path, if and only if the version is 2 or more, or 1 with a non-empty copy or another client that can still store |
| `ClientCache.FetchRecordsStaleVersion` | afsfs/pkg/afs/client.go:173-224 | a fetch records a positive version of an older incarnation if and only if it finds the file empty after an earlier attempt had received a chunk |
| `ClientCache.OpenCopyWasServed` | afsfs/pkg/afs/client.go:128-233 | whoever has fetched the file or validated a clean copy, and has not written since, has content that the server held at some instant since that open began |
| `ClientCache.RecreationDefeatsValidation` | afsfs/pkg/server/handler.go:486-563 | for any two contents, a history in which a clean old copy is validated against a re-created file |
| `ClientCache.RestartDefeatsValidation` | afsfs/pkg/server/handler.go:286-301 | for any two contents, a history without a delete or failed close in which a server restart lets a clean old copy be validated |
| `ClientCache.BrokenFetchDefeatsValidation` | afsfs/pkg/afs/client.go:173-224 | for any two contents, a history in which a fetch breaks off, the file is re-created, and the empty copy is later validated under the old version |
| `ClientCache.FailedCloseServesUnsavedBytes` | afsfs/pkg/afs/client.go:261-333 | for any contents, a history in which unsaved bytes are validated after a failed close |
| `AfsClient.Client.constructor` | afsfs/pkg/afs/cache.go:36-48 | a client starts with an empty cache and no handles |
| `AfsClient.Client.OpenEntryFor` | afsfs/pkg/afs/cache.go:87-103 | a fresh clean handle |
| `AfsClient.Client.Open` | afsfs/pkg/afs/client.go:128-233 | for every combination of failing and repeated attempts: it succeeds exactly when the file exists and the attempts allow it, and without unsaved writes the opened copy is the server's content, after any calls; other files are untouched |
| `AfsClient.Client.Refresh` | afsfs/pkg/afs/client.go:149-224 | the local copy if its version is confirmed and a fetched one otherwise; the cache stays coherent |
| `AfsClient.Client.FetchUntilDone` | afsfs/pkg/afs/client.go:171-222 | the retry loop of a fetch: the server's content and its version, or 0 for an empty file, if any attempt runs to the end |
| `AfsClient.Client.Write` | afsfs/pkg/afs/client.go:247-258 | the local copy is overwritten at the handle's offset, and the file counts as unsaved |
| `AfsClient.OverwriteAt` | afsfs/pkg/afs/client.go:247-258 | byte by byte: the data where it was written, what was there elsewhere, and zeros in a gap |
| `AfsClient.Client.Read` | afsfs/pkg/afs/client.go:235-245 | the next bytes at the handle's offset, at most as many as asked for |
| `AfsClient.Client.Close` | afsfs/pkg/afs/client.go:261-347 | a written non-empty file is stored exactly once if any attempt reaches the server whole and not at all otherwise; after success its copy will be confirmed at the next open if and only if no input file has its name or this was the first store under it |
| `AfsClient.Client.Flush` | afsfs/pkg/afs/client.go:269-333 | stores the local copy and records the new version of a cached file |
| `AfsClient.Client.CallUntilAnswered` | afsfs/pkg/afs/client.go:421-509 | the retry loop of every call, for every combination of attempts that do not arrive, break off, lose their reply or succeed: the effect of one request if any arrives, and its reply if any is answered |
| `AfsClient.FatesMean` | afsfs/pkg/afs/client.go:421-509 | a call is answered exactly when one of its attempts is, and arrives exactly when one of them does |
| `AfsClient.Client.CreateFile` | afsfs/pkg/afs/client.go:350-382 | created exactly when the file is missing and an attempt arrives; exactly when a reply arrives, a fresh handle is open on the path, with an empty local copy recorded at version 1 |
| `AfsClient.Client.DeleteFile` | afsfs/pkg/afs/client.go:385-411 | gone from the server exactly when an attempt arrives, and from the cache exactly when a reply does |
| `AfsClient.StaysCoherent` | afsfs/pkg/afs/client.go:128-411 | a call that touches one path keeps the whole cache coherent |
| `AfsClient.Receive` | afsfs/pkg/afs/client.go:190-218 | the chunks of a fetch concatenate; without a chunk the version seen by an earlier attempt stays |
| `AfsClient.RetriesAreHarmless` | afsfs/pkg/afs/client.go:490-509 | sending a successful request again changes nothing and gets the same reply; a failed one changed nothing |
| `AfsClient.StoredBytesAreServedIff` | afsfs/pkg/server/handler.go:725-739 | after any history the server serves what was stored if and only if no input file has that name, or one with the same bytes |
| `AfsClient.NextOpenShowsStoredIff` | afsfs/pkg/server/handler.go:377-389 | a client that has stored a file sees those bytes at the next open if and only if no input file has that name, this was the first store under it, or the bytes are the same; otherwise it sees the input file |
| `SnapshotStore.WriteToAfs` | primefinder/pkg/snapshot/snapshot.go:175-192 | delete, create, write, close: it succeeds exactly when the old file is out of the way, the create and the close are answered and there are bytes; then the server holds exactly these bytes; and whatever fails, the calls are the delete, create and store steps of the crash-and-resume machine |
| `SnapshotStore.DeleteAndCreate` | primefinder/pkg/snapshot/snapshot.go:175-182 | the first two calls: the empty file is open exactly when the old one is gone and the create is answered |
| `SnapshotStore.WriteAndClose` | primefinder/pkg/snapshot/snapshot.go:183-190 | the last two calls: the bytes are stored exactly when there are some and an attempt arrives |
| `SnapshotStore.ReadFromAfs` | primefinder/pkg/snapshot/snapshot.go:195-218 | the read loop returns the server's whole content of a file without unsaved writes, and an error for an empty or missing one |
| `Election.LessTotal` | afsfs/pkg/server/election.go:34-37 | ids are totally ordered |
| `Election.LessIff` | afsfs/pkg/server/election.go:34-37 | one id is below another if and only if at the first difference it ends or has the smaller character, whatever the lengths |
| `Election.RunElection` | afsfs/pkg/server/election.go:18-41 | the loop finds the least id among itself and the live peers; it wins exactly when every lower peer is dead |
| `Election.WinnerIndependentOfOrder` | afsfs/pkg/server/election.go:29-41 | the same peers in any order give the same winner |
| `Election.Node.constructor` | afsfs/pkg/server/handler.go:105-110 | a primary starts its sender, a backup its monitor |
| `Election.Node.SetKnownPrimary` | afsfs/pkg/server/election.go:80-85 | the whole new state |
| `Election.Node.PromoteToPrimary` | afsfs/pkg/server/election.go:87-97 | the whole new state, with the sender started only if its flag was clear |
| `Election.Node.StartElection` | afsfs/pkg/server/election.go:18-53 | the least live server is promoted or adopted, and announcements go to exactly the live peers of a winner |
| `Election.Node.MonitorTick` | afsfs/pkg/server/heartbeat.go:48-76 | one monitor iteration: it ends on promotion |
| `Election.BehaviourInv` | afsfs/pkg/server/election.go:18-97 | the invariant of all interleavings of elections, crashes, restarts and announcements |
| `Election.AtMostOnePrimary` | afsfs/pkg/server/election.go:43-52 | at most one live primary in every reachable state |
| `Election.WinnerIsTheSmallestAlive` | afsfs/pkg/server/election.go:29-45 | whoever promotes itself is below every other live server at that instant |
| `Election.PromotedOnceAndSending` | afsfs/pkg/server/heartbeat.go:18-76 | at most one promotion per process, and a live primary always has a running sender |
| `Election.DemotedIffAnnouncementPending` | afsfs/pkg/server/election.go:72-85 | a live primary can lose its role without crashing if and only if an announcement to it is under way |
| `Returning.ReturnsIffLeastMonitors` | afsfs/pkg/server/heartbeat.go:48-76 | in a reachable state without a primary, one can return without a crash or restart if and only if the least live server still monitors |
| `Returning.ReturnsIffSomeoneMonitors` | afsfs/pkg/server/heartbeat.go:48-76 | with crashes but no restart, one can return if and only if some live server still monitors |
| `Returning.LateAnnouncementStrandsTheCluster` | afsfs/pkg/server/election.go:55-78 | a history of three servers in which a late announcement demotes the primary: none returns although another live server monitors, and after that one dies none returns until a restart |

## Left out

Assumptions on which results rest:

- Handlers of one path, and retries of one request, do not overlap. A backup's rename and its version update are one step, and so are the open and the version read of FetchFile.
- Stored names are base names; a name present in both directories is read from the input directory, as the server resolves it.
- Each client has at most one open handle per path, and a path is not deleted or fetched anew under an open handle of the same client; `AfsClient` works against one server that is and stays primary, and that no other client changes between its calls.
- `ClientCache` has one server, which may restart but does not fail over to another one.
- `Failover` and `ClientCache` follow one path, since handlers leave other paths alone; failed servers in `Failover` do not come back, syncs happen between mutations, and a crashed primary's streams are installed before its crash or never.
- Elections start only without a live primary, probes report liveness correctly, restarts happen outside elections, promotion and the end of the monitor are one step, every server lists every other one, and addresses are distinct, so that a server is known by its id.
- Worker addresses are distinct in `Recovery`, so that each file has one result. The snapshot may revert in a failover of the file system; that the output does not, once stored, is assumed.
- Local disk operations succeed. Text is taken as ASCII, so that bytes and characters agree in the scanner's line limit and in trimming.

Not modelled:

- gRPC, dialing, contexts, timeouts, sleeps and elapsed times: a call succeeds, fails, or takes effect and is reported as failed.
- GetPrimary's probing and the client's search for a primary: only their outcome appears.
- HTTP snapshot markers, channel states and worker snapshots: nothing is recovered from them.
- JSON encoding: a snapshot is stored and read whole, or counts as unreadable.
- The early end of a store stream whose reply is already recorded: the client is taken to get that reply.
- Command lines, logging, shell scripts, containers and the test programs.

Weaker than one might expect:

- ClientCache.ValidatedCopyIsCurrent: requires a clean copy recorded in the current incarnation with a positive version, because the histories above show that other copies are validated wrongly; ClientCache.GoesWrongIff gives the exact condition.
- Failover.VersionsStrictlyIncrease: requires the earlier store to have been held by every live server, because versions can repeat otherwise.
- Recovery.CrashLosesAtMostOneFileIff: is about runs that read their snapshot or found none, and whose snapshot the file system does not revert meanwhile; a run that could not read it has nothing to lose before its first save, which Recovery.SuccessfulSavesLoseAtMostOne covers.
- MillerRabin.ExactUnderPremise: rests on a published computation that is stated as its premise and not proved.
- MillerRabin.IsPrime: the split and the body of the witness loop, inline in the source, are methods of their own.
