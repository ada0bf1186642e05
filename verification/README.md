# Verified model of AzCopy's concurrent writer, sync planner, name rewriting and job batching

AzCopy moves data between local disks, Azure Storage, S3 and Google Cloud Storage.  This project models the parts
of it whose correctness depends on more than one function at a time, and proves what they promise for all inputs,
all answers of the outside world and all interleavings.  `dafny verify dfyconfig.toml` checks everything.

## What is modelled

**Reassembling a download under a RAM budget.**  Chunks of a file are scheduled against a shared budget, arrive out
of order, and one worker per file puts them in sequence, hashes and writes them.

- `CacheLimiter.dfy`: the budget, first as a class whose methods take the interference of other goroutines as an
  argument, then as a state machine of atomic adds and undos in any order.
- `ChunkReassembly.dfy`: the reorder buffer on values: the contiguous run, and when chunks make up a file.
- `ChunkedFileWriter.dfy`: the writer's own procedures on its own fields, for every arrival order, every outcome of
  every write and every moment of cancellation.
- `WriterProtocol.dfy`: all goroutines of all files, one atomic operation at a time, and what every step keeps.
- `WriterBudget.dfy`, `WriterFile.dfy`, `WriterProgress.dfy`, `WriterCompletion.dfy`: what follows for the RAM budget,
  for the file after `Flush`, for getting to an end, and that every file can be completed.
- `ChunkStatus.dfy`: the lock-free counters of chunk states.

**Planning a sync.**  Two opposite algorithms index one side and stream the other, each eating up its index.

- `SyncPlan.dfy`: what a run has to do, stated on two snapshots, and what carrying it out leads to.
- `SyncEnumerator.dfy`: the indexer, both comparators, and both algorithms, proved to produce that plan.
- `SyncOutcome.dfy`: what complete runs in either direction do, field by field, and what comes of two in a row.
- `DeletePrompt.dfy`: the confirmation dialogue in front of every deletion.

**Rewriting names and paths.**

- `BucketNames.dfy`, `NameRegistry.dfy`: the hyphen loop against a run-length specification, suffixes, and what
  keeps the registries of both resolvers free of collisions.
- `S3NameResolver.dfy`, `GcpNameResolver.dfy`: the two resolvers.
- `EscapeTables.dfy`, `PathEncoding.dfy`: replacing by table in unspecified order, and `pathEncodeRules`.

**Cutting a job into parts.**

- `JobParts.dfy`: the one right sequence of part orders for a list of transfers.
- `CopyTransferProcessor.dfy`, `ShuffledJobParts.dfy`: the two procedures that send it.

**Shared state under concurrency.**

- `ProxyLookupCache.dfy`: the double-checked cache and its refreshers.
- `AtomicMorph.dfy`: the compare-and-swap loops.

`Basics.dfy` and `Sums.dfy` hold what several modules need.

The outside world is a parameter everywhere: the file, the hash (the hasher records the bytes it is given, and the
digest stands for those bytes), the transfer engine (a log of part orders and an arbitrary answer to each), the
scheduler and the deleter (a log and an arbitrary verdict on each object), the user's answers, a proxy lookup's
result, random numbers, the order in which a Go map is ranged over, and the moments of cancellation.

## What came out of it

Properties that do not hold are stated as they are, each with the exact condition under which they do.

- `Flush` can give RAM back twice.  When the channel is closed while the worker's buffer still holds chunks beyond a
  gap, the worker hands over a digest and then cleans up, while `Flush` removes the reservation it reads in
  between (common/chunkedFileWriter.go:223-225, 257-268, 276-283).  `FlushIsExactIffNoGap` says that every
  continuation is exact if and only if the buffer is empty at that moment; `GapIsReachable` shows a run that gets
  there with a non-empty one.  Without cancellation the caller can tell: it is exact if and only if `EnqueueChunk`
  accepted no chunk beyond one that it did not accept (`FlushIsExactIffNothingBeyondARefused`).
- `Flush` can return success for an incomplete file.  `FlushCanSucceedOnAnIncompleteFile` is a whole run: reading the
  first of two chunks fails, the second arrives, and `Flush` returns success although not a byte was written.
  `SuccessfulFlushIsCompleteIff`: the file is complete if and only if `EnqueueChunk` accepted every chunk and none was
  left beyond a gap; `UncancelledFlushIsCompleteIffAccepted`: without cancellation, if and only if every call of
  `EnqueueChunk` returned without an error, which the caller knows.
- A chunk of length zero at the offset to be saved next keeps the marking walk going for ever
  (common/chunkedFileWriter.go:331-346), while the saving loop would take it out and go on.  `WalkEndsIffNoEmptyChunk`
  gives the exact condition.  The one caller cuts only files that are not empty, into chunks of positive length
  (ste/xfer-remoteToLocal-file.go:204, 515-521), so this can only be met through the interface.
- The limiter adds first and undoes afterwards, so a call that overshoots can make a concurrent call fail that
  would fit: `OvershootCanRefuseACallThatFits`.  It never over-grants: `NeverOverGrants`.
- A clean bucket name that is resolved on demand skips the collision check (cmd/s3NameResolver.go:106-109).  With "a.b"
  given up front, asking for "a-b" later gives both the same name (`LateCleanNameCollides`).  For any sequence of calls
  the results stay different if and only if no clean name comes after it was handed out (`WalkIsSafeIff`); names that
  are rewritten never collide, however late they come.
- `countStateTransition` is documented as idempotent; for the state Nothing it is not, because leaving Nothing is not
  counted while entering it is (common/chunkStatusLogger.go:399-414).  `RepeatingIsHarmlessIff`.  Nothing in the
  repository puts a chunk into Nothing, so this can only be met through the interface.  A counter that is read between
  two updates can be negative: one overlap of two calls for one chunk is enough (`ACounterCanDipBelowZero`), and
  without one it cannot happen (`ApartNoCounterDips`).
- Encoding file names confuses a character with its own code: a blob and the blob whose name is its encoded form are
  downloaded to one file on Windows (`PathAndItsEncodedFormCollide`), and a name survives the round trip through a
  Windows disk or a file share exactly when no segment holds one of the nine codes (`RoundTripIff`).
- Decoding for a side that is not remote, as in a download from a file share to a Linux or macOS disk, cuts a segment
  in two exactly when it holds `%2F` (`SegmentsKeptIff`).  So "a%2Fb" and "a/b" are downloaded to one file
  (`ASeparatorAndItsCodeCollide`).  `RoutesCollideIff` says which two paths are, for every transfer, and
  `RouteKeepsPathsApartIff` which transfers keep all paths apart.
- A listing error that means "not found" counts as a complete listing (traverser/zc_enumerator.go:788-799).
  `AnAcceptedErrorDeletes` is the run: the source has the object, its listing ends at once, the run succeeds and deletes
  the destination's copy.  `DeletionsAreSafeIffNoErrorWasAccepted`: over all sources and destinations no deletion hits
  a path the source has, if and only if the source listing did not end with an accepted error.
- Two source paths that differ only in case, on a destination that ignores case: the second one is always sent, even if
  the destination is up to date (`LaterTwinIsAlwaysSent`).
- The proxy cache compares user information by pointer (common/ProxyLookupCache.go:120-124).  A URL with a user name that
  is parsed twice has two keys, two lookups and two refreshers (`AUrlParsedTwiceIsLookedUpTwice`); URLs that read the
  same share a lookup if and only if they have no user information or share the object that holds it
  (`SameSiteIsLookedUpOnceIff`).
- `scheduleCopyTransfer` looks only at the error message of a part's answer, `addTransfer` only at whether the job
  started (cmd/zc_processor.go:279-285, cmd/copyEnumeratorHelper.go:18-24).  Each `Run` states success by its own criterion.
- The comment at cmd/copyEnumeratorInit.go:625 announces decoding for downloads from a file share; on Windows the
  branch before it applies and encodes.  The model follows the code.

## Model

| member | source | states |
|---|---|---|
| CacheLimiting.CacheLimiter.TryAdd | common/cacheLimiter.go:67-83 | added exactly when the value plus the count is at most the limit, for a relaxed call, or the strict limit, for a strict one; a refused call leaves only what the others did in between |
| CacheLimiting.CacheLimiter.WaitUntilAdd | common/cacheLimiter.go:86-107 | granted in the first round that is not refused, given up in the first cancelled one; only a granted round leaves anything of the call in the value |
| CacheLimiting.CacheLimiter.Remove | common/cacheLimiter.go:109-112 | takes exactly the count off |
| CacheLimiting.StepKeepsBalance | common/cacheLimiter.go:67-83 | every atomic step keeps value = granted bytes + overshoots still to be undone, and grants within the limit |
| CacheLimiting.RunKeepsBalance | common/cacheLimiter.go:67-83 | so does every run |
| CacheLimiting.NeverOverGrants | common/cacheLimiter.go:67-83 | in every reachable state, whatever is removed and by whom, the grants are within the limit; a call is accepted exactly when grants, pending overshoots and its bytes fit the limit, or for a strict call the strict limit; what is accepted strictly would be accepted relaxed, and then the grants are within the strict limit |
| CacheLimiting.NoResidueAtRest | common/cacheLimiter.go:77-82 | with no call half way the value is exactly what was granted |
| CacheLimiting.UninterruptedTryAdd | common/cacheLimiter.go:67-83 | a call alone is one step if it fits and two if it does not, with the effect of the method |
| CacheLimiting.OvershootCanRefuseACallThatFits | common/cacheLimiter.go:77-82 | a reachable state in which a call that fits is refused because of another one's overshoot |
| ChunkReassembly.RunIsMaximal | common/chunkedFileWriter.go:305-327 | what can be saved from an offset starts there, is contiguous, consists of buffered chunks and ends at an offset that is not buffered |
| ChunkReassembly.RunIgnoresEarlierKeys | common/chunkedFileWriter.go:331-347 | with positive lengths, reading ahead without removing sees the same run as removing on the way |
| ChunkReassembly.EmptyChunkStallsTheWalk | common/chunkedFileWriter.go:331-347 | an empty chunk in the run keeps the marking walk inside the buffer for any number of turns |
| ChunkReassembly.WalkEndsAfterTheRun | common/chunkedFileWriter.go:331-347 | without one the walk ends after one turn for each chunk of the run |
| ChunkReassembly.WalkEndsIffNoEmptyChunk | common/chunkedFileWriter.go:331-347 | the marking walk ends if and only if no chunk of the run is empty |
| ChunkReassembly.ReassemblyComplete | common/chunkedFileWriter.go:305-327 | if the saved chunks are contiguous, all others are buffered and none starts where they end, then the saved ones are the whole file in order and nothing is left |
| ChunkReassembly.TilesHaveDistinctOffsets | common/chunkedFileWriter.go:290 | chunks that tile a file never share the offset they are filed under |
| ChunkedFileWriting.SliceSizesPartitionTheChunk | common/chunkedFileWriter.go:359-376 | no write is empty or above 1 MiB, only the last is short, together they are the chunk |
| ChunkedFileWriting.ReservedWithout | common/chunkedFileWriter.go:259-265 | taking one chunk out of the buffer takes exactly its reservation out of the total |
| ChunkedFileWriting.DrainAccounts | common/chunkedFileWriter.go:290-298 | after indexing a chunk and draining, every chunk that arrived is saved or buffered, never both |
| ChunkedFileWriting.DrainStaysInSequence | common/chunkedFileWriter.go:305-327 | after draining, the saved chunks are the start of the file in order, and if the drain was not cut short nothing buffered could be saved |
| ChunkedFileWriting.NothingMissing | common/chunkedFileWriter.go:270-301 | once all tiles have arrived and the last drain ran to its end, the saved chunks are the tiles in order |
| ChunkedFileWriting.DrainOneMore | common/chunkedFileWriter.go:314-325 | one turn of the saving loop: what was taken and what is still ahead together stay the contiguous run |
| ChunkedFileWriting.TakenOut | common/chunkedFileWriter.go:318-325 | taking chunks out of the buffer takes exactly their lengths out of what is reserved |
| ChunkedFileWriting.Outstanding | common/chunkedFileWriter.go:257-268 | what arrived and was not saved is exactly what the buffer still has reserved |
| ChunkedFileWriting.ChunkedFileWriter.WaitToScheduleChunk | common/chunkedFileWriter.go:141-150 | limiter, capacity and count go up together in the first round in which the chunk fits, tested against the limit with at most 20 active chunks and against the strict limit with more; a wait that is given up charges nobody |
| ChunkedFileWriting.ChunkedFileWriter.EnqueueChunk | common/chunkedFileWriter.go:153-203 | a chunk that cannot be read, or for which the select sees the ended worker, gives back what scheduling it took, and one that is queued keeps it |
| ChunkedFileWriting.ChunkedFileWriter.HaveMemoryPressure | common/chunkedFileWriter.go:385-397 | pressure exactly when the bytes do not fit the limit, with at most 20 active chunks, or the strict limit, with more; whatever the others do in between, the attempt leaves nothing of its own behind |
| ChunkedFileWriting.ChunkedFileWriter.WriteSlices | common/chunkedFileWriter.go:359-378 | file and hasher get the chunk's bytes in order, in full on success, and a prefix each if a write fails |
| ChunkedFileWriting.ChunkedFileWriter.WriteSlice | common/chunkedFileWriter.go:370-374 | the hasher sees the whole slice, the file takes what the write takes |
| ChunkedFileWriting.ChunkedFileWriter.SaveOneChunk | common/chunkedFileWriter.go:350-379 | the same, and the reservation is released on success and on failure |
| ChunkedFileWriting.ChunkedFileWriter.SaveNextInSequence | common/chunkedFileWriter.go:314-325 | one turn of the saving loop: the chunk at the offset leaves the buffer, the offset moves past it, its bytes are saved |
| ChunkedFileWriting.ChunkedFileWriter.SequentiallyProcessAvailableChunks | common/chunkedFileWriter.go:305-327 | what is taken is the contiguous run, all of it unless a write fails or the context is done; bytes written and hashed are its bytes; counters fall by what was taken |
| ChunkedFileWriting.ChunkedFileWriter.SetStatusForContiguousAvailableChunks | common/chunkedFileWriter.go:331-347 | marks exactly the contiguous run that the following drain would save, unless the context is done; it ends because lengths are positive |
| ChunkedFileWriting.ChunkedFileWriter.ReleaseUnsaved | common/chunkedFileWriter.go:257-268 | every chunk still buffered gives its reservation back exactly once |
| ChunkedFileWriting.ChunkedFileWriter.ProcessArrival | common/chunkedFileWriter.go:289-299 | one arrival keeps the books: chunks, bytes, offset, and counters that fall by as much as the offset moves |
| ChunkedFileWriting.ChunkedFileWriter.ServiceChannel | common/chunkedFileWriter.go:270-301 | the loop over any arrival order, with each of its three ways out |
| ChunkedFileWriting.ChunkedFileWriter.WorkerRoutine | common/chunkedFileWriter.go:248-301 | however it ends, every received chunk's reservation is released exactly once; if it completes uncut and the arrivals are the tiles in any order, the file is the tiles in order and the hasher saw exactly the file |
| WriterProtocol.StepConserves | common/chunkedFileWriter.go:141-379 | every atomic step of a producer, a worker or Flush changes the limiter by what it changes the writer's contribution, and keeps the writer's own counter exact |
| WriterProtocol.StepKeepsTasksFit | common/chunkedFileWriter.go:141-379 | each chunk is only where its goroutine's position allows |
| WriterProtocol.OtherStepKeepsFlushFit | common/chunkedFileWriter.go:206-237 | steps of producers and Flush keep what Flush and the worker know of each other |
| WriterProtocol.WorkerStepKeepsFlushFit | common/chunkedFileWriter.go:257-283 | so do the worker's steps |
| WriterProtocol.StepKeepsTasksFiled | common/chunkedFileWriter.go:289-326 | a chunk is among the saved exactly when the saving loop took it, and none is forgotten at the offset to be saved |
| WriterProtocol.StepKeepsGapFit | common/chunkedFileWriter.go:276-283 | a successful flush was over a gap exactly when a chunk was left behind |
| WriterProtocol.StepKeepsInv | common/chunkedFileWriter.go:141-379 | every step of a writer keeps all of its invariant |
| WriterProtocol.RunKeepsWorldInv | common/chunkedFileWriter.go:141-397 | so does every run of any number of writers and of the goroutines that probe the limiter for memory pressure |
| WriterBudget.RamIsConserved | common/chunkedFileWriter.go:141-397 | in every reachable state the limiter is the sum over the writers of reserved capacity and half-finished updates, less what their Flush removed, and of the probes under way |
| WriterBudget.RestingWriterOwesItsReservation | common/chunkedFileWriter.go:223-268 | once Flush returned and the worker ended, the writer's contribution is what is left of its counter less what Flush removed, and zero unless it was flushed over a gap |
| WriterBudget.FlushReturnsTheBudget | common/chunkedFileWriter.go:223-268 | after write error, cancellation or complete success a writer's net contribution is zero |
| WriterBudget.BudgetIsWholeAgain | common/chunkedFileWriter.go:223-268 | when all writers are done and none was flushed over a gap, only probes under way are left in the limiter, and it is zero exactly when they hold nothing |
| WriterBudget.GapCanReleaseTwice | common/chunkedFileWriter.go:223-283 | with chunks buffered at the hand-over there is a schedule that returns success and gives back more than was taken |
| WriterBudget.GapIsReachable | common/chunkedFileWriter.go:153-203 | a run from the start that reaches the hand-over with a chunk buffered |
| WriterBudget.FlushIsExactIffNoGap | common/chunkedFileWriter.go:223-283 | from the hand-over on, every continuation gives back exactly what was taken if and only if the buffer is empty |
| WriterBudget.StepHoldsNoMore | common/chunkedFileWriter.go:141-379 | only an accepted add makes a writer hold more of the budget, and then within the limit it was tried against |
| WriterBudget.AdmittedIffItFits | common/chunkedFileWriter.go:141-150 | a chunk is admitted exactly when it fits the limit, or for a strict attempt the strict limit |
| WriterBudget.RamInUseStaysWithinTheLimit | common/chunkedFileWriter.go:141-397 | for every interleaving, what all writers together hold stays within the limit; without a flush over a gap none holds less than nothing, so every single one stays within it |
| WriterFile.FileIsCompleteIffAllTaken | common/chunkedFileWriter.go:305-327 | after a successful flush the file is what was taken, and the whole exactly when everything was taken |
| WriterFile.AllTakenIffAcceptedWithoutGap | common/chunkedFileWriter.go:206-237 | everything was taken if and only if every chunk was accepted and none was left beyond a gap |
| WriterFile.SuccessfulFlushIsCompleteIff | common/chunkedFileWriter.go:206-237 | for every interleaving, cancelled or not: after a successful Flush the digest is over exactly the file, and the file is complete if and only if every chunk was accepted and none was left beyond a gap |
| WriterFile.UncancelledFlushIsCompleteIffAccepted | common/chunkedFileWriter.go:206-237 | without cancellation the file is complete if and only if every call of EnqueueChunk succeeded |
| WriterFile.FlushCanSucceedOnAnIncompleteFile | common/chunkedFileWriter.go:276-283 | a whole run without cancellation in which Flush returns success, nothing was written, and the budget got back more than was taken |
| WriterFile.UncancelledFlushIsOverAGapIff | common/chunkedFileWriter.go:206-237 | without cancellation a successful Flush was over a gap if and only if EnqueueChunk accepted a chunk beyond one that it did not accept |
| WriterFile.FlushIsExactIffNothingBeyondARefused | common/chunkedFileWriter.go:223-283 | without cancellation, from the hand-over on every continuation gives back exactly what was taken if and only if no chunk was accepted beyond one that was not |
| WriterFile.SuccessfulFlushMeansCompleteFile | common/chunkedFileWriter.go:206-237 | for every interleaving and arrival order: a successful Flush, all chunks accepted, tiles, not cut short: the file is the tiles in order, the digest is over exactly the file, the budget is even |
| WriterFile.OnlyCancellationCutsShort | common/chunkedFileWriter.go:305-311 | without cancellation no saving loop is cut short |
| WriterFile.FlushFailsOnlyForAReason | common/chunkedFileWriter.go:206-287 | for every interleaving: without a failed write and without cancellation no worker gives up and no Flush fails |
| WriterFile.AFailedWriteFailsTheFlush | common/chunkedFileWriter.go:206-287 | after a failed write Flush never succeeds, whatever happened before and happens after |
| WriterCompletion.EveryFileCanBeCompleted | common/chunkedFileWriter.go:141-379 | for every file whose chunks fit the limit one by one there is a run in which Flush succeeds, the file is the tiles in order and the budget is even |
| WriterCompletion.CancellationEndsTheFile | common/chunkedFileWriter.go:206-287 | a worker that sees the cancellation ends, and Flush returns a failure |
| WriterCompletion.RefusedAddLeavesNothing | common/cacheLimiter.go:77-82 | an attempt to schedule that goes over its limit is undone without a trace |
| WriterProgress.RunStaysPosted | common/chunkedFileWriter.go:200-287 | in every reachable state the channel holds exactly the queued chunks and the worker the chunk it is busy with |
| WriterProgress.NeverStuck | common/chunkedFileWriter.go:206-379 | once Flush is called, in every reachable state some goroutine of the file can move until all are done |
| WriterProgress.EveryStepCountsDown | common/chunkedFileWriter.go:206-379 | once Flush is called, every step but a cancellation brings the writer closer to its end |
| WriterProgress.TurnsAreBounded | common/chunkedFileWriter.go:206-379 | under any interleaving such a writer takes no more steps than its distance to the end |
| WriterProgress.ReachableRestIsReached | common/chunkedFileWriter.go:206-379 | from every reachable state with Flush called there is a way to the end |
| ChunkStatus.ChunkStatusLogger.CountStateTransition | common/chunkStatusLogger.go:397-415 | the chunk's state and all counters after an uninterrupted call |
| ChunkStatus.ChunkStatusLogger.GetCounts | common/chunkStatusLogger.go:423-451 | one number for each listed state, re-reads rolled into the body; the state that would panic is never asked for |
| ChunkStatus.ReportsCountChunks | common/chunkStatusLogger.go:423-451 | at rest each reported number is the number of chunks in that state, under Body together with the two re-read states |
| ChunkStatus.ReportedOnceAtMost | common/chunkStatusLogger.go:177-255 | no chunk is reported under two states |
| ChunkStatus.ReportedIff | common/chunkStatusLogger.go:177-255 | the states that are reported nowhere, for each direction |
| ChunkStatus.RepeatingIsHarmlessIff | common/chunkStatusLogger.go:399-414 | repeating a chunk's state changes no counter if and only if the state is not Nothing, which only a user of the interface could log |
| ChunkStatus.StepKeepsCount | common/chunkStatusLogger.go:404-414 | each of the three atomic operations keeps every counter right |
| ChunkStatus.CountsAgreeWithChunks | common/chunkStatusLogger.go:397-415 | for every interleaving each counter but that of Nothing is the number of chunks in that state plus the pending updates |
| ChunkStatus.CountsAreExactAtRest | common/chunkStatusLogger.go:397-415 | at rest the counters are exact, not negative, and sum to the chunks that left Nothing |
| ChunkStatus.UninterruptedCall | common/chunkStatusLogger.go:397-415 | the method is the machine's steps in a row |
| ChunkStatus.OwnChunksCover | common/chunkStatusLogger.go:404-414 | if each call under way has a chunk of its own, the chunks in a state cover what is still to be added to its counter |
| ChunkStatus.ApartNoCounterDips | common/chunkStatusLogger.go:397-418 | for every interleaving in which calls for one chunk do not overlap, no counter is ever below zero |
| ChunkStatus.ACounterCanDipBelowZero | common/chunkStatusLogger.go:404-418 | for every state but Nothing, one overlap of two calls for one chunk is enough for its counter to be read as -1 |
| SyncPlan.IndexHoldsTheObjects | cmd/syncComparator.go:85-86 | the index of a listing with unique keys holds exactly the listed objects, each under its key |
| SyncPlan.PlansAgree | cmd/syncComparator.go:92-138 | two complete runs over the same snapshots transfer and delete the same objects, each once |
| SyncPlan.StaleOnFields | cmd/syncComparator.go:96-133 | a matched pair is stale, on the objects' own fields: always in mirror mode, exactly if the hashes differ where a file has one and they are compared, and otherwise exactly if the source's time is the later one, its SMB time where that is preferred and there |
| SyncPlan.MatchedPairIsSentIff | cmd/syncComparator.go:85-224 | the same for what is in the log of a complete run; and the destination object of a pair is not deleted |
| SyncPlan.LandsWellOnFields | traverser/zc_enumerator.go:102-113 | landing well, on the objects' own fields: the same hash, or not older |
| SyncPlan.SyncedIsThePlanCarriedOut | cmd/syncComparator.go:92-138 | the deletions and landings of a complete run, folded over the destination one by one in any order, always end in the same destination |
| SyncPlan.SyncConverges | cmd/syncComparator.go:92-138 | carry out the logs of a complete run in any order, on a destination that ignores case or not, and run again: the paths agree, nothing is deleted, and nothing is sent if and only if the run is not in mirror mode and every object that was sent landed with the same hash or not older |
| SyncPlan.DeletionsAreSafeIffNoErrorWasAccepted | traverser/zc_enumerator.go:787-813 | over all sources, listings and destinations no complete run deletes a path the source has, if and only if the source listing did not end with an accepted error |
| SyncPlan.CompleteListingIsSafe | cmd/syncComparator.go:133-138 | with the source listed to its end no deletion hits a path it has |
| SyncPlan.MissedObjectIsDeleted | traverser/zc_enumerator.go:787-800 | an object missing from the listing because of an accepted error is planned for deletion |
| SyncEnumeration.SyncDestinationComparator.Lookup | cmd/syncComparator.go:85-90 | a destination object is compared with the entry under its path or, where case is ignored and that one is missing, under its folded path |
| SyncEnumeration.SyncDestinationComparator.ProcessIfNecessary | cmd/syncComparator.go:85-141 | one destination object: what is sent, what is cleaned, what leaves the index, and which error comes back |
| SyncEnumeration.SyncDestinationComparator.Compare | cmd/syncComparator.go:96-133 | a matched pair is sent exactly when the destination is stale, for every option |
| SyncEnumeration.SyncSourceComparator.ProcessIfNecessary | cmd/syncComparator.go:169-224 | one source object: sent exactly when it is missing or the destination is stale, and its entry leaves the index |
| SyncEnumeration.StreamOneDestination | cmd/syncComparator.go:85-141 | one step of the upload's stream keeps the logs at exactly the plan for what was streamed |
| SyncEnumeration.StreamOneSource | cmd/syncComparator.go:169-224 | one step of the other stream: sent if missing, stale, or an object with the same key went by |
| SyncEnumeration.UniqueSentByIsThePlan | cmd/syncComparator.go:169-224 | where keys do not repeat, what is sent in order is what the plan says |
| SyncEnumeration.LaterTwinIsAlwaysSent | cmd/syncComparator.go:172-178 | a later source object with the folded path of an earlier one is always sent |
| SyncOutcome.BothWays | cmd/syncComparator.go:85-224 | both algorithms over the same two listings in any orders send and delete the same objects |
| SyncOutcome.SyncSendsTheNewer | cmd/syncComparator.go:85-224 | a complete run in either direction, on the objects' own fields: which pairs are sent by time or hash, every object the destination lacks is sent, and exactly what the source lacks is deleted |
| SyncEnumeration.ObjectIndexer.Store | traverser/syncIndexer.go:47-62 | files the object under its path, folded where the destination ignores case |
| SyncEnumeration.ObjectIndexer.Traverse | traverser/syncIndexer.go:65-74 | hands over every entry once, in any order, until one fails |
| SyncEnumeration.FinalizeUpload | cmd/syncEnumerator.go:360-378 | sending what is left of the source completes the plan; it succeeds exactly when no scheduling fails and the final part is not refused |
| SyncEnumeration.FinalizeDownload | cmd/syncEnumerator.go:385-417 | cleaning what is left of the destination deletes exactly what the source lacks; it succeeds exactly when no deletion fails and the final part is not refused |
| SyncEnumeration.SyncSourceFirst | cmd/syncEnumerator.go:344-380 | index the source, stream the destination, send the rest: exactly the plan if it succeeds, part of it otherwise, and success exactly when no listing, no scheduling and no final part failed |
| SyncEnumeration.SyncDestinationFirst | cmd/syncEnumerator.go:381-420 | index the destination, stream the source, clean the rest, whether source paths collide in case or not: what is sent in order and what is deleted, exactly the plan where they do not, the same condition for success, and nothing is cleaned if a listing or a scheduling failed |
| SyncOutcome.SyncTwice | cmd/syncEnumerator.go:344-420 | two runs, each in either direction, or both over a destination that ignores case, the first one's work carried out in any order in between: the second deletes nothing, and sends nothing if and only if not in mirror mode and everything sent landed well |
| SyncOutcome.SyncTwiceOnFields | cmd/syncEnumerator.go:344-420 | the same on the objects' own fields: by modification times, by SMB times, or by hashes |
| SyncOutcome.CleanerSparesAListedSource | cmd/syncEnumerator.go:344-420 | with the source listed to its end, no run in either direction, successful or not, calls the cleaner for a path the source has, nor, where the destination ignores case, for one that differs from it in case only |
| SyncOutcome.AnAcceptedErrorDeletes | traverser/zc_enumerator.go:787-813 | the run, in either direction, that succeeds and deletes an object the source still has |
| DeletePrompt.ForAllAnswerSettlesTheRest | cmd/syncProcessor.go:78-85 | up to the first for-all answer each answer decides its own object; after it that answer decides; no question is asked after it |
| DeletePrompt.RestIsAllOrNothing | cmd/syncProcessor.go:78-85 | after yes-for-all every later object is deleted, after no-for-all none |
| DeletePrompt.VerdictMeans | cmd/syncProcessor.go:78-160 | an object is condemned exactly if it was answered with yes before any for-all answer, or if the first for-all answer up to its own was yes |
| DeletePrompt.CondemnedAre | cmd/syncProcessor.go:78-126 | the condemned objects are those with that verdict, each once and in order |
| DeletePrompt.InteractiveDeleteProcessor.constructor | cmd/syncProcessor.go:162-174 | a prompting processor starts by asking, the others never ask |
| DeletePrompt.InteractiveDeleteProcessor.PromptForConfirmation | cmd/syncProcessor.go:128-160 | what each answer means, unrecognizable ones included |
| DeletePrompt.InteractiveDeleteProcessor.RemoveImmediately | cmd/syncProcessor.go:78-126 | one object: question, deletion or dry-run report, counter, and a failing deletion counts like any other |
| DeletePrompt.InteractiveDeleteProcessor.RemoveAll | cmd/syncProcessor.go:78-126 | over all objects and answers: questions until the first for-all answer and never after, the deleter called for exactly the condemned objects in order, the counter equal to its calls, no call in a dry run; without prompting no question and all or nothing |
| BucketNames.CollapseHyphenRuns | cmd/s3NameResolver.go:123-152 | the loop computes the run-length encoding, and panics exactly on a trailing hyphen |
| BucketNames.CollapseIsNeat | cmd/s3NameResolver.go:120-153 | the encoding leaves no double hyphen and adds no trailing hyphen |
| BucketNames.CollapseHead | cmd/s3NameResolver.go:120-153 | it keeps the first character and empties nothing |
| BucketNames.CollapseAlphabet | cmd/s3NameResolver.go:120-153 | it brings in hyphens and digits only |
| BucketNames.CollapseLeavesNeatNames | cmd/s3NameResolver.go:120-153 | names without double hyphens are not touched |
| BucketNames.CollapseRunByRun | cmd/s3NameResolver.go:123-152 | every maximal run of hyphens is replaced on its own, and what stands between the runs stays |
| BucketNames.FoundDoubleHyphen | cmd/s3NameResolver.go:104 | where a double hyphen is reported, one stands |
| BucketNames.DoubleHyphenIsFound | cmd/s3NameResolver.go:104 | a double hyphen is reported wherever it stands |
| BucketNames.MarkerReads | cmd/s3NameResolver.go:131-143 | a single hyphen stays, and between the hyphens that replace a longer run stands its length |
| BucketNames.ItoaReadsBack | cmd/s3NameResolver.go:142 | reading a count's text back gives the count, and it has no leading zero |
| BucketNames.ItoaIsInjective | cmd/s3NameResolver.go:187 | different counts are written differently |
| BucketNames.SuffixesDiffer | cmd/s3NameResolver.go:184-203 | different counts give different names |
| BucketNames.SuffixReads | cmd/s3NameResolver.go:184-203 | a suffix is a hyphen and the text of its count |
| BucketNames.SuffixedStaysValid | cmd/s3NameResolver.go:155-163 | a suffix that fits the length limit keeps a neat name valid for Azure |
| NameRegistry.PickIsUnique | cmd/s3NameResolver.go:156-158 | the search has one outcome: the name itself or its least free suffix |
| NameRegistry.PickOutcome | cmd/s3NameResolver.go:155-158 | a name nobody uses is picked itself; otherwise the least count from 2 up that gives an unused name is put behind it |
| NameRegistry.RecordClean | cmd/s3NameResolver.go:90-109 | entering a clean name keeps the registry in order |
| NameRegistry.RecordRewritten | cmd/s3NameResolver.go:155-167 | entering a name nobody uses keeps the registry in order and clear of the original names |
| NameRegistry.RecordedWithoutClashIsInjective | cmd/s3NameResolver.go:66-82 | in such a registry different names have different results |
| NameRegistry.LateCleanNameIsSafeIffNotTaken | cmd/s3NameResolver.go:106-109 | in any registry with different results, a clean name resolved now keeps them different if and only if it was not handed out before |
| NameRegistry.LateRewrittenNameIsSafe | cmd/s3NameResolver.go:155-167 | a rewritten name keeps them different, however late it comes |
| NameRegistry.WalkIsSafeIff | cmd/s3NameResolver.go:85-168 | any sequence of calls in any order: the results differ at the end if and only if no clean name came after it was handed out |
| NameRegistry.WalkIsDetermined | cmd/s3NameResolver.go:85-168 | where the registry starts and which names are asked for in which order determine every state it goes through |
| NameRegistry.ResolvesKeepsRecord | cmd/s3NameResolver.go:85-168 | one call keeps the registry in order and, for a name entered before, clear of the original names |
| NameRegistry.ResolvesKeepsValidity | cmd/s3NameResolver.go:85-168 | one call resolves a name the provider allows to one that Azure allows, and spoils no earlier result |
| NameRegistry.ReadyOneMore | cmd/s3NameResolver.go:73-79 | with all names entered first, one more resolution keeps order, no clash with originals, validity, and what is settled |
| NameRegistry.PickIsValidForAzure | cmd/s3NameResolver.go:155-167 | a neat name, with or without suffix, is valid if it is not too long |
| NameRegistry.TryOneMore | cmd/gcpNameResolver.go:149-156 | each turn of the search tries a name that was not tried before |
| S3NameResolving.ValidNamesRewriteNeatly | cmd/s3NameResolver.go:37-40 | a name that obeys the provider's rules never panics and is rewritten without period, double hyphen or outer hyphen |
| S3NameResolving.RewritesCharacters | cmd/s3NameResolver.go:101-153 | the rewriting character by character, when runs of hyphens are collapsed, and when it panics |
| S3NameResolving.CleanIffRewritingChangesNothing | cmd/s3NameResolver.go:101-153 | the names that are left alone are exactly those that rewriting would not change |
| S3NameResolving.ChoiceIsValidForAzure | cmd/s3NameResolver.go:101-168 | whatever a valid name that needs rewriting resolves to, with or without suffix, is valid for Azure |
| S3NameResolving.ChoiceIsFresh | cmd/s3NameResolver.go:101-168 | a choice is not empty, and it is a name nobody uses unless it is a failure |
| S3NameResolving.ChoiceIsUnique | cmd/s3NameResolver.go:101-168 | there is one choice |
| S3NameResolving.ChoiceOutcome | cmd/s3NameResolver.go:101-206 | the name itself, or with the least free number from 2 to 1000, or a failure if that is longer than 63 characters or no number is free |
| S3NameResolving.S3BucketNameToAzureResourcesResolver.constructor | cmd/s3NameResolver.go:66-82 | for names given up front, in any order: every one gets a result, two that resolve differ, no rewritten name is an original one, and the registry is what resolving them one by one makes of it |
| S3NameResolving.S3BucketNameToAzureResourcesResolver.AddSuffix | cmd/s3NameResolver.go:183-206 | the least free suffix from 2 up, and failure exactly when 2 to 1000 are all taken |
| S3NameResolving.S3BucketNameToAzureResourcesResolver.ResolveNewBucketNameInternal | cmd/s3NameResolver.go:101-168 | clean names are left alone, others are entered under the chosen name or as failed, and exactly the panicking ones panic |
| S3NameResolving.S3BucketNameToAzureResourcesResolver.ResolveName | cmd/s3NameResolver.go:85-99 | a known name's result is returned and changes nothing; a new one is resolved so that the registry stays in order |
| S3NameResolving.S3BucketNameToAzureResourcesResolver.ResolveOnDemand | cmd/s3NameResolver.go:85-168 | any names asked for one by one: the results stay different if and only if no clean name came after it was handed out |
| S3NameResolving.LateCleanNameCollides | cmd/s3NameResolver.go:66-109 | built from "a.b", then asked for "a-b": both get "a-b" |
| GcpNameResolving.ValidNamesRewriteNeatly | cmd/gcpNameResolver.go:71-121 | a name that obeys the provider's rules never panics and is rewritten without period, underscore, double hyphen or outer hyphen |
| GcpNameResolving.RewritesCharacters | cmd/gcpNameResolver.go:71-121 | the rewriting character by character, underscores included, when runs of hyphens are collapsed, and when it panics |
| GcpNameResolving.CleanIffRewritingChangesNothing | cmd/gcpNameResolver.go:71-121 | the names that are left alone are exactly those that rewriting would not change |
| GcpNameResolving.ChoiceIsValidForAzure | cmd/gcpNameResolver.go:71-131 | whatever a valid name that needs rewriting resolves to, with or without suffix, is valid for Azure |
| GcpNameResolving.ChoiceIsFresh | cmd/gcpNameResolver.go:71-131 | a choice is not empty, and it is a name nobody uses unless it is a failure |
| GcpNameResolving.ChoiceIsUnique | cmd/gcpNameResolver.go:71-131 | there is one choice |
| GcpNameResolving.ChoiceOutcome | cmd/gcpNameResolver.go:71-158 | the name itself, or with the least free number from 2 up, or a failure if that is longer than 63 characters |
| GcpNameResolving.GCPBucketNameToAzureResourcesResolver.constructor | cmd/gcpNameResolver.go:43-57 | for names given up front, in any order: every one gets a result, two that resolve differ, no rewritten name is an original one, and the registry is what resolving them one by one makes of it |
| GcpNameResolving.GCPBucketNameToAzureResourcesResolver.AddSuffix | cmd/gcpNameResolver.go:143-158 | the least free suffix from 2 up; the unbounded loop ends because only finitely many names are in use |
| GcpNameResolving.GCPBucketNameToAzureResourcesResolver.ResolveNewBucketNameInternal | cmd/gcpNameResolver.go:71-131 | clean names are left alone, others are entered under the chosen name or as failed, and exactly the panicking ones panic |
| GcpNameResolving.GCPBucketNameToAzureResourcesResolver.ResolveName | cmd/gcpNameResolver.go:59-69 | a known name's result is returned and changes nothing; a new one is resolved so that the registry stays in order |
| GcpNameResolving.GCPBucketNameToAzureResourcesResolver.ResolveOnDemand | cmd/gcpNameResolver.go:59-131 | any names asked for one by one: the results stay different if and only if no clean name came after it was handed out |
| GcpNameResolving.LateCleanNameCollides | cmd/gcpNameResolver.go:43-78 | built from "a.b", then asked for "a-b": both get "a-b" |
| EscapeTables.TablesAreInverse | cmd/copyEnumeratorInit.go:580-602 | the two tables are each other's inverse, and no code holds a character that needs one |
| EscapeTables.CodesAreHex | cmd/copyEnumeratorInit.go:580-602 | the nine characters, each with a percent sign and its own two hex digits as its code |
| EscapeTables.EncodeOneMore | cmd/copyEnumeratorInit.go:619-623 | one more entry of the table, in any order, gets one step closer to replacing all at once |
| EscapeTables.DecodeMakesNoCode | cmd/copyEnumeratorInit.go:636-640 | decoding some codes never makes a code out of what was not one |
| EscapeTables.DecodeOneMore | cmd/copyEnumeratorInit.go:636-640 | the same for decoding |
| EscapeTables.DecodeForgetsEncoding | cmd/copyEnumeratorInit.go:580-602 | decoding an encoded name is decoding the name |
| EscapeTables.EncodeForgetsDecoding | cmd/copyEnumeratorInit.go:580-602 | encoding a decoded name is encoding the name |
| EscapeTables.DecodingUndoesEncodingIff | cmd/copyEnumeratorInit.go:580-602 | decode(encode(p)) = p if and only if p contains none of the nine codes |
| EscapeTables.EncodingUndoesDecodingIff | cmd/copyEnumeratorInit.go:580-602 | encode(decode(q)) = q if and only if q has no character that needs a code |
| EscapeTables.EncodedNamesCollideIff | cmd/copyEnumeratorInit.go:580-602 | two names are encoded alike if and only if they decode alike |
| EscapeTables.EncodeLeavesNothingUnsafe | cmd/copyEnumeratorInit.go:580-590 | an encoded name has no character that needs a code |
| EscapeTables.DecodedCharacters | cmd/copyEnumeratorInit.go:592-602 | a decoded name has a character exactly where it or its code stood |
| EscapeTables.DecodeAround | cmd/copyEnumeratorInit.go:592-602 | decoding looks at each side of a character that needs a code on its own |
| PathEncoding.SplitUndoesJoin | cmd/copyEnumeratorInit.go:612 | splitting at the separator undoes joining segments without one |
| PathEncoding.JoinUndoesSplit | cmd/copyEnumeratorInit.go:648 | joining undoes splitting |
| PathEncoding.PathEscapeIsInjective | cmd/copyEnumeratorInit.go:642-646 | different segments are escaped differently |
| PathEncoding.KeptCharacters | cmd/copyEnumeratorInit.go:642-646 | which bytes are not escaped in a segment |
| PathEncoding.EscapeByteShape | cmd/copyEnumeratorInit.go:642-646 | an escaped byte is a percent sign and its two upper-case hex digits |
| PathEncoding.UnescapeUndoesEscape | cmd/copyEnumeratorInit.go:642-646 | reading an escaped segment back gives the segment |
| PathEncoding.UnescapeJoined | cmd/copyEnumeratorInit.go:642-648 | reading an escaped path back gives the path |
| PathEncoding.EncodeParts | cmd/copyEnumeratorInit.go:619-623 | the nested loops encode every segment, whatever order the table is ranged over in |
| PathEncoding.DecodeParts | cmd/copyEnumeratorInit.go:636-640 | the nested loops decode every segment, whatever order the table is ranged over in |
| PathEncoding.PathEncodeRules | cmd/copyEnumeratorInit.go:604-650 | the whole function equals the rule by side and direction, independent of both map orders |
| PathEncoding.PathByRoute | cmd/copyEnumeratorInit.go:604-650 | for every transfer, option, side and system: what is found at the place once escaping is undone is the path, the path with its segments encoded, or the path decoded, and which |
| PathEncoding.RoutesCollideIff | cmd/copyEnumeratorInit.go:604-650 | for every transfer, option, side and system: which two paths are sent to one place |
| PathEncoding.RouteKeepsPathsApartIff | cmd/copyEnumeratorInit.go:604-650 | exactly which transfers send different paths to different places |
| PathEncoding.StoredNamesAreSafe | cmd/copyEnumeratorInit.go:614-623 | on a Windows disk and a file share no name has one of the nine characters but for the separators, and these are as many as they were |
| PathEncoding.SegmentsKeptIff | cmd/copyEnumeratorInit.go:604-650 | segments are never merged, and their number is kept if and only if the side is remote, or the path is not decoded, or no segment holds the code of the separator |
| PathEncoding.DestinationsCollideIff | cmd/copyEnumeratorInit.go:604-650 | which two paths are sent to one place, for every rule and side: equal ones where no table applies, ones whose whole paths decode alike where a path is decoded for a side that is not remote, and ones whose segments decode alike otherwise |
| PathEncoding.DecodedJoin | cmd/copyEnumeratorInit.go:636-648 | joining decoded segments is decoding the joined path, because no code reaches over a separator |
| PathEncoding.DecodeAlikeWithoutSlashCode | cmd/copyEnumeratorInit.go:630-648 | the two ways of decoding alike differ only for paths with the code of the separator |
| PathEncoding.ASeparatorAndItsCodeCollide | cmd/copyEnumeratorInit.go:630-648 | "a%2Fb" and "a/b" of a file share are downloaded to one file on Linux and macOS, although their segments differ |
| PathEncoding.RoundTripIff | cmd/copyEnumeratorInit.go:604-650 | a blob name returns from a Windows disk, or from a file share, as itself if and only if no segment holds a code |
| PathEncoding.PathAndItsEncodedFormCollide | cmd/copyEnumeratorInit.go:616-623 | a path and its encoded form are written to one place, and are two paths exactly when a segment needs encoding |
| JobParts.AppendTallies | cmd/zc_processor.go:292-306 | appending a transfer keeps size and entity counters equal to those of the list |
| JobParts.TalliedCounts | cmd/zc_processor.go:292-306 | the counters are the total size and the number of transfers of each counted type |
| JobParts.MeasureOfOne | cmd/zc_processor.go:292-306 | what one more transfer adds to the size and to the number of each type |
| JobParts.PartsConserveTheList | cmd/zc_processor.go:279-306 | cut after every n: nothing lost, doubled or moved, only the last part short, and empty only if there is nothing |
| JobParts.OneMore | cmd/zc_processor.go:279-306 | one more transfer opens a new part exactly when the last one is full |
| JobParts.EarlierOrdersStay | cmd/zc_processor.go:279-306 | orders sent before the last part stay right whatever comes later |
| JobParts.OrdersConserveTransfers | cmd/zc_processor.go:279-331 | parts numbered from 0, all but the last full, the last one alone final, lists concatenating to the accepted transfers, counters right and adding up |
| JobParts.AcceptedAreTheChosen | cmd/zc_processor.go:207-213 | the accepted transfers are those of exactly the items that are to be sent, in order |
| JobParts.OrdersOfADryRun | cmd/zc_processor.go:211-276 | a dry run calls for one order, with nothing in it |
| JobParts.BatchedStep | cmd/zc_processor.go:279-306 | sending a full part and appending keeps what is sent and what is buffered right |
| JobParts.FullPartIsRight | cmd/zc_processor.go:279-290 | a part that is sent because it is full is the part the whole list calls for |
| JobParts.MeasureOfPermutation | cmd/copyEnumeratorHelper.go:57-59 | size and entity counters do not depend on the order of the list |
| CopyTransferProcessing.CopyTransferProcessor.SendPartToSte | cmd/zc_processor.go:337-347 | every order is sent as it stands, and part 0 is reported with its answer |
| CopyTransferProcessing.CopyTransferProcessor.ScheduleCopyTransfer | cmd/zc_processor.go:279-309 | a full part is sent before the transfer is appended, and its error message alone stops the enumeration |
| CopyTransferProcessing.CopyTransferProcessor.DispatchFinalPart | cmd/zc_processor.go:314-334 | the rest is sent as the final part; started, nothing scheduled, or refused |
| CopyTransferProcessing.CopyTransferProcessor.Run | cmd/zc_processor.go:207-347 | what is sent is always the beginning of the one right sequence of orders; success exactly when no earlier answer had a message and the final part started, and then the lists are the transfers of exactly the items to be sent, in order; a dry run sends empty lists only; first and final part reported exactly once |
| ShuffledJobParts.ShuffleTransfers | cmd/copyEnumeratorHelper.go:57-59 | for any source of random numbers the list is permuted |
| ShuffledJobParts.AddTransfer | cmd/copyEnumeratorHelper.go:12-52 | the full part is shuffled and sent and must have started the job; the wait begins with part 0 |
| ShuffledJobParts.DispatchFinalPart | cmd/copyEnumeratorHelper.go:63-97 | the rest is shuffled and sent as the final part; in a dry run it does not matter that no job starts |
| ShuffledJobParts.ShuffledOrdersConserveTransfers | cmd/copyEnumeratorHelper.go:12-97 | same part sizes and same transfers per part as in order, counters that belong to what is sent, nothing lost over all parts |
| ShuffledJobParts.Run | cmd/copyEnumeratorHelper.go:12-97 | whatever random numbers each part gets, the parts are those of the other processor up to order inside a part; a run that succeeds sends the transfers of exactly the items to be sent, a dry run empty lists only; the wait for the job begins exactly once if part 0 started, and never otherwise |
| ProxyLookupCache.LookupCache.GetProxy | common/ProxyLookupCache.go:115-151 | a value cached for the URL's scheme, host and user object is returned; a missing one is looked up, stored, and gets its refresher |
| ProxyLookupCache.LookupCache.RefreshOnce | common/ProxyLookupCache.go:171-188 | one round replaces the value of its own key only, and reports a change of proxy |
| ProxyLookupCache.KeysAgreeIff | common/ProxyLookupCache.go:119-124 | two requests share a key exactly if scheme, host and the pointer to the user information agree |
| ProxyLookupCache.StepKeepsExclusion | common/ProxyLookupCache.go:134-135 | the lock admits one caller at a time |
| ProxyLookupCache.CallerStepKeepsKey | common/ProxyLookupCache.go:128-148 | every step of a caller keeps map, lookups and refreshers of a key in agreement |
| ProxyLookupCache.RefresherStepKeepsKey | common/ProxyLookupCache.go:166-189 | so does every step of a refresher |
| ProxyLookupCache.OneLookupAndOneRefresherForEachKey | common/ProxyLookupCache.go:115-190 | with any number of callers: at most one miss lookup and one refresher for each map key (its user compared by address), and whenever the lock is free a key is in the map exactly when it was looked up and exactly when it has a refresher; callers are only given what was found for their key |
| ProxyLookupCache.SameSiteHasOneKeyIff | common/ProxyLookupCache.go:119-124 | URLs that read the same have one key if and only if they have no user information or share the object that holds it |
| ProxyLookupCache.SameSiteIsLookedUpOnceIff | common/ProxyLookupCache.go:115-151 | two calls for such URLs make one lookup and one refresher if and only if the same holds |
| ProxyLookupCache.AUrlParsedTwiceIsLookedUpTwice | common/ProxyLookupCache.go:115-151 | two such URLs, parsed separately, that are looked up twice and get two refreshers |
| ProxyLookupCache.CacheOnlyGrows | common/ProxyLookupCache.go:115-190 | a cached key stays cached |
| ProxyLookupCache.UninterruptedCall | common/ProxyLookupCache.go:115-151 | the method is the machine's steps in a row |
| ProxyLookupCache.UninterruptedRefresh | common/ProxyLookupCache.go:166-189 | a refresher's round replaces the value of its key, and the next caller is given it |
| AtomicMorph.AtomicMorphValue | common/atomicmorph.go:11-22 | whatever others store in between, the loop ends in the first round whose swap finds the loaded value, and there morphs it once |
| AtomicMorph.StepKeepsInv | common/atomicmorph.go:11-79 | every atomic step keeps the value equal to the fold of the commits |
| AtomicMorph.StepKeepsCalls | common/atomicmorph.go:11-79 | every atomic step keeps calls and commits of each goroutine in agreement: a failed swap loses no call and repeats none |
| AtomicMorph.MorphsAreSerializable | common/atomicmorph.go:11-79 | for every interleaving the value is the initial one morphed in commit order, each result was computed from the value it replaced, each call is committed exactly once, with its own morpher and in the order of its goroutine's calls, but for one still under way, and each goroutine gets back its commits' results |
| AtomicMorph.FailureMeansSomebodyElseCommitted | common/atomicmorph.go:15-21 | a swap fails only if another call committed since the load |
| AtomicMorph.UninterruptedCall | common/atomicmorph.go:11-22 | a call alone stores and returns what its morpher makes of the value |

## Left out

- ChunkedFileWriting.ChunkedFileWriter.EnqueueChunk: reading the body, its forced retries and the progress monitor are one outcome, because they are timing.
- ChunkedFileWriting.ChunkedFileWriter.WorkerRoutine: slices rented from and returned to the pool are values, and an MD5 digest stands for the bytes it was computed from.
- CacheLimiting.CacheLimiter.TryAdd: 64-bit wrap-around is not modelled, because all counts are sizes in RAM; the strict limit is any value up to the limit, so the float arithmetic behind it plays no part.
- CacheLimiting.CacheLimiter.WaitUntilAdd: the length of a wait is not modelled; how many rounds there are is an argument.
- WriterFile.SuccessfulFlushIsCompleteIff: the channel has no capacity here, so a producer that waits for room is one that has not sent yet.
- SyncOutcome.BothWays: for case-sensitive destinations, because the upload never sets the flag.
- WriterProtocol.StepConserves: a chunk is enqueued only after its wait succeeded.  The caller ignores the result of the wait, but a wait fails only by cancellation, and a chunk function of a cancelled job enqueues nothing (ste/xfer-remoteToLocal-file.go:543, ste/sender.go:195-197).
- SyncEnumeration.SyncDestinationFirst: lower-casing is a parameter, and destination paths are unique after it, because a destination that ignores case cannot hold two that are not.
- SyncOutcome.SyncTwice: what a transferred object looks like at the destination depends on that object alone.
- SyncEnumeration.SyncSourceFirst: filters and the folder property option are applied before the listings.
- JobParts.OrdersConserveTransfers: transfers of type FileProperties and Other are in the list and in the size but, as in the code, in no counter.
- CopyTransferProcessing.CopyTransferProcessor.Run: the transfer engine is a log with arbitrary answers; jobsAdmin is not part of this model.
- S3NameResolving.S3BucketNameToAzureResourcesResolver.constructor: names are not empty, because resolving the empty name would never end (cmd/s3NameResolver.go:87-93), and a name whose rewriting panics ends the program; valid names do neither. The same holds for GCP.
- S3NameResolving.S3BucketNameToAzureResourcesResolver.ResolveOnDemand: a bucket called like the marker of a failed resolution is left out.  The same holds for GCP.
- S3NameResolving.ValidNamesRewriteNeatly: the rule against names formatted as IP addresses is not needed and not stated.
- PathEncoding.PathEncodeRules: the location AzureAccount, on which `IsRemote` panics, and MakeEscapedRelativePath around it.
- PathEncoding.PathEscapeIsInjective: strings are byte strings, which is what url.PathEscape works on.
- ProxyLookupCache.OneLookupAndOneRefresherForEachKey: the timeout of a lookup is one of its results, and the interval between refreshes is not modelled.
- AtomicMorph.AtomicMorphValue: one target type instead of four integer types, and the panic on nil arguments.
- When a monitor of a slow read probes the limiter or forces a retry, throughput averages, and the performance constraints of the status logger: timing.  The probes themselves are steps, at any moment and of any size.
- NewFolderPropertyOption, container creation, flag handling, lifecycle output and JSON: flat case distinctions or user interface.
- Azure, S3 and GCP clients, credentials, token caches and traversers: calls into services.
