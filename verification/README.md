# Verified models of celestia-node

A Dafny 4.11 project that models the parts of celestia-node whose correctness is hardest to see from
the code, and proves what they are for. `dafny verify dfyconfig.toml` checks all of it.

| file | what it models |
|---|---|
| `Basics.dfy` | bytes, 64-bit bounds and optional values, shared by the other files |
| `DasState.dfy` | data availability sampling on values: jobs, workers, the coordinator's operations, statistics, checkpoints |
| `DasCoordinator.dfy` | the same as mutable objects with loops, each method proved against `DasState` |
| `DasSystem.dfy` | coordinator, workers, checkpoints, crashes and restarts as one transition system |
| `DasDone.dfy` | the catch-up flag and channel, one atomic operation at a time |
| `SquareRetrieval.dfy` | the concurrent retrieval of an extended data square |
| `BlobRetrieval.dfy` | the row-by-row blob parser against a simple parse of the flattened shares |
| `HeaderCodec.dfy`, `HeaderMarshal.dfy` | the Protocol Buffers codec of the extended header: its format, and the loops that print and parse it |
| `PrunerFind.dfy`, `PrunerSystem.dfy`, `PrunerService.dfy` | the search for pruneable headers, the race between prune cycles and header deletion, the service |
| `BlockStore.dfy`, `StoreRace.dfy`, `StripeLocks.dfy` | the block store on a file system with hard links, its puts and removals running at the same time, and its striped locks |
| `ShareStream.dfy` | a square as a stream of bytes and back |
| `HeaderRange.dfy` | header ranges routed to peers and to a consensus node |
| `ProofsCache.dfy`, `ProofsCacheRace.dfy` | the cache of axes and proofs as an object, and its calls racing with each other |

Concurrency is modelled by transition systems: a run is a sequence of states in which each follows from
the one before by an enabled step, and the theorems hold in every state of every run. Objects that the
program updates in place are classes here too, with their loops, and are proved against functions on
values or, for the pruner, against the steps of the transition system. Clocks, the network, the disk and
library code are parameters, steps or nondeterministic choices.

Seven properties turned out not to hold as one would state them. Each has a member that shows a case in
which it fails, and one that says, for all inputs or runs, exactly when it holds:

- A nil return of `waitCatchUp` should mean that catch-up held during the call. It need not, when the call
  is made while the coordinator is inside a handler and the old flag is still set (`StaleFlagInsideHandler`).
  After any run, every call made now keeps the promise if and only if the flag is not stale now
  (`NilIsRightExactly`).
- Deleting a header should prune its data, says the comment at `pruner/service.go:254-262`. But a prune cycle
  adopts a tail above the last pruned height without pruning it, and the deletion hook then takes it for
  pruned (`AdoptedTailIsNeverPruned`). In every run, data is left behind without a recorded failure if and only
  if a cycle adopted its height unpruned or a reset passed it over, and since then no hook under way has pruned it
  and no restart has found its failure on disk (`UnprunedExactly`).
- `findPruneableHeaders` should return the run of headers that are due. It fails instead
  (`NoWindowExample`) if and only if the head itself is due and within the maximum (`FindPruneableHeaders`),
  which a positive window rules out (`PositiveWindowNeverAsksBeyondHead`).
- `ShareReader.Read` should lose no bytes when a share cannot be read. It does in any square whose
  first share is copied and whose second cannot be read (`LostBytesExample`). After a failed read the stream is
  intact if and only if nothing was buffered and the very next share was the unreadable one (`Read`).
- `proofsCache.Shares` should return the original square. It need not when a row is read as a parity half
  (`ParityHalfExample`). It does if and only if all rows are read as data halves, or the last one read as a
  parity half is the third and happens to stand for the first two (`SharesRightExactly`). The repository's own
  accessors read the rows of the original square as data halves (`share/eds/rsmt2d.go:88-98`,
  `store/file/ods.go:263-272`), so this takes another accessor handed to `WithProofsCache`.
- Storing into the proofs cache should only add to what is cached of an axis. A call that raced with another
  can discard what that one computed (`LostUpgradeExample`). It does if and only if since it began the other
  stored its entry, which is still there, and was after more, a half being less than the shares and the shares
  less than the proofs, or has read the other half (`LostUpgradeExactly`).
- A height that is neither stored nor being put should not be found in the block store. It never is in a store as
  `NewStore` makes it (`NeverFoundUnstored`). In one that `WithCache` gave a second cache it can be, since cached
  reads fill that cache outside of the store's locks and removing an empty block clears it only once
  (`FoundUnstoredExample`). It is found if and only if a cached read opened its link after a call had begun to clear
  the second cache of it and before that call removed the link, and nothing has taken the file out since
  (`FoundUnstoredExactly`).

## Model

| member | source | states |
|---|---|---|
| DasSystem.StepKeepsInv | das/coordinator.go:60-99 | every step of the coordinator, a worker, the statistics, the checkpoint store or the process keeps the invariant of the sampling system |
| DasSystem.NoHeightLost | das/state.go:78-209 | in every state of every run, each height not below a tail used so far is sampled, at or above `next`, failed, or in the unprocessed or failed part of a job in progress |
| DasSystem.CheckpointsLoseNothing | das/checkpoint.go:23-43 | the stored checkpoint and every snapshot that may yet be stored, also after trimming to any tail and head, lead back to every unsampled height, over any number of restarts |
| DasSystem.ConcurrencyBounded | das/coordinator.go:145-153 | never more than twice the highest concurrency limit used so far of jobs in progress, also after resuming a checkpoint |
| DasSystem.SampledChainHeadSound | das/state.go:226-280 | all heights up to the reported chain head are sampled, although workers go on while it is computed and `inRetry` is not consulted |
| DasSystem.CatchUpDoneExact | das/state.go:282-295 | the flag holds exactly when nothing is in progress, nothing failed and `next` is past the network head, and then every known height is sampled |
| DasSystem.RetryMarksOwned | das/state.go:110-131 | a height is marked as being retried only while a retry job for it is in progress |
| DasSystem.OnlyHandlersChangeCondition | das/coordinator.go:69-99 | no step outside a handler makes catch-up done or undone, so that the check at the end of each handler is enough |
| DasSystem.WaitingCoordinator | das/coordinator.go:69-99 | while the coordinator waits and is not caught up, a worker can go on exactly if one was not cancelled; with nothing in progress every known height has been handed out and only failed heights are left |
| DasSystem.SamplingGoesOn | das/coordinator.go:69-99 | as long as no worker was cancelled since the start, a worker can go on or only failed heights wait for their next attempt |
| DasSystem.FailedHeightsRetried | das/coordinator.go:69-99 | in every run, whenever the coordinator goes to wait, a height that had failed and whose backoff is over has been retried or settled by a job that covers it since, unless the concurrency limit is reached |
| DasSystem.WorkIsTakenUpAgain | das/coordinator.go:69-99 | left with failed heights only, the coordinator has a job in progress when it next goes to wait, whatever woke it, if the backoff of one of them is over |
| DasSystem.SnapshotOk | das/coordinator.go:123-143 | a checkpoint made from statistics gathered worker by worker, while workers run, reaches every unsampled height |
| DasSystem.LoadOk | das/daser.go:97-153 | trimming a stored checkpoint to tail and head keeps what it reaches at or above the tail |
| DasSystem.LoadReachesExactly | das/daser.go:97-153 | a trimmed checkpoint leads back to exactly the heights it led back to and that are at or above the tail, and knows the current head |
| DasSystem.StartOk | das/coordinator.go:60-68 | resuming from a checkpoint gives a coordinator state that forgets no height |
| DasSystem.DeliveredOk | das/state.go:78-131 | handling a finished job's result forgets no height, with retries and catch-up jobs overlapping |
| DasSystem.ResultSettlesJob | das/state.go:91-131 | after a recent or catch-up job its heights are failed exactly if it failed them, after a retry also if they had failed meanwhile; other heights do not change; a repeated failure counts one attempt more |
| DasSystem.BackoffSchedule | das/backoff.go:31-47 | after the k-th failure in a row the k-th interval, later the last one; exceeded exactly from then on |
| DasSystem.LaunchedOk | das/state.go:155-223 | starting a job moves its heights from waiting or failed to in progress and forgets none |
| DasDone.ChannelFollowsFlag | das/state.go:282-295 | between handlers the flag is exact and the current channel is closed exactly when it is set |
| DasDone.NeverClosedTwice | das/state.go:282-295 | no channel is closed twice |
| DasDone.NilIsRightExactly | das/state.go:298-308 | after any run, every nil return of a call made now means that catch-up held at some instant of it, if and only if the flag is not stale now |
| DasDone.NilMeansCaughtUpDuringCall | das/state.go:298-308 | the instant at which catch-up held, for a call made while the flag is not stale |
| DasDone.StaleCallReturnsNil | das/state.go:298-308 | any call made while the flag is stale can return nil although catch-up does not hold at any instant of it |
| DasDone.StaleFlagInsideHandler | das/state.go:298-308 | a run in which the flag is stale, and such a call |
| DasCoordinator.SamplingWorker.SetResult | das/worker.go:213-221 | a failure is counted and the height becomes the current one |
| DasCoordinator.SamplingWorker.Run | das/worker.go:83-118 | a result is sent exactly if no height was cancelled and the coordinator takes it before the context ends; the failed heights are exactly those gone through that failed for another reason |
| DasCoordinator.ExponentialBackoff | das/backoff.go:51-59 | the k-th interval is the base times the k-th power of the multiplier |
| DasCoordinator.CoordinatorState.ResumeFromCheckpoint | das/state.go:65-76 | the state after taking over a checkpoint |
| DasCoordinator.CoordinatorState.CheckDone | das/state.go:282-295 | the flag gets the exact condition; the channel is replaced or closed with it |
| DasCoordinator.CoordinatorState.HandleRecentOrCatchupResult | das/state.go:91-108 | the failed heights after a recent or catch-up job |
| DasCoordinator.CoordinatorState.HandleRetryResult | das/state.go:110-131 | the failed and retried heights after a retry job |
| DasCoordinator.CoordinatorState.HandleResult | das/state.go:78-89 | the whole state after a result |
| DasCoordinator.CoordinatorState.UpdateHead | das/state.go:146-152 | the state after a new network head |
| DasCoordinator.CoordinatorState.StartRecentJob | das/state.go:155-168 | a recent job is started, and `next` moves only if it was that height |
| DasCoordinator.CoordinatorState.OnNewHead | das/coordinator.go:79-87 | a head that is not new changes nothing; a new one is sampled unless twice the limit is reached |
| DasCoordinator.CoordinatorState.ResumeWorkers | das/coordinator.go:63-66 | one job for each worker of the checkpoint |
| DasCoordinator.CoordinatorState.CatchupJob | das/state.go:182-191 | the next range, with 64-bit wrap-around, if there is one |
| DasCoordinator.CoordinatorState.RetryJob | das/state.go:194-209 | some height whose backoff is over, if there is one |
| DasCoordinator.CoordinatorState.StartNextJob | das/state.go:171-179 | a retry before a catch-up; nothing only if there is neither |
| DasCoordinator.CoordinatorState.UnsafeStats | das/state.go:226-280 | the statistics over the workers in some order, with the number of them and whether the sampler runs |
| DasCoordinator.MakeCheckpoint | das/checkpoint.go:23-43 | the checkpoint of the statistics, with the workers worth keeping |
| DasCoordinator.TrimCheckpoint | das/daser.go:97-153 | the stored checkpoint trimmed to tail and head, or a fresh one |
| SquareRetrieval.NewQuadrants | share/eds/retriever_quadrant.go:52-88 | four quadrants of each source with their half of its roots, in any order |
| SquareRetrieval.RootOfCell | share/eds/retriever_quadrant.go:91-102 | the share that a quadrant puts into a cell is fetched from the root of that cell's own row or column |
| SquareRetrieval.QuadrantsCoverSquare | share/eds/retriever_quadrant.go:91-102 | every cell belongs to a quadrant of each source |
| SquareRetrieval.QuadrantsDisjoint | share/eds/retriever_quadrant.go:91-102 | and to only one, at one place |
| SquareRetrieval.StepKeepsInv | share/eds/retriever.go:268-331 | every step of a delivering goroutine or of the retrieval loop keeps the session's invariant |
| SquareRetrieval.NoLostWakeup | share/eds/retriever.go:268-331 | with a quarter of the cells set, one of them unseen by Repair and no goroutine writing, a signal is pending or Repair is about to run |
| SquareRetrieval.NeverStuckRepairable | share/eds/retriever.go:78-103 | the loop never sleeps over a square that it could repair |
| SquareRetrieval.CellWrittenOnce | share/eds/retriever.go:290-315 | a cell is set at most once, not while Repair runs and not after reconstruction |
| SquareRetrieval.RepairIsExclusive | share/eds/retriever.go:178-198 | Repair runs with no goroutine writing and at least a quarter of the cells set |
| BlobRetrieval.Parser.SkipPadding | blob/parser.go:99-117 | the leading padding is skipped and counted |
| BlobRetrieval.Parser.Set | blob/parser.go:26-46 | index and length of the next blob, or failure if there is only padding |
| BlobRetrieval.Parser.AddShares | blob/parser.go:51-70 | shares are collected up to the blob's length and the others given back |
| BlobRetrieval.Retrieve | blob/service.go:520-640 | the first blob of the simple parse of the flattened shares that is accepted, with the proofs of exactly the rows it spans; not found and malformed blobs likewise |
| BlobRetrieval.GetBlobs | blob/service.go:644-673 | exactly the blobs of the simple parse, in order, each with the position of its first share in the square |
| BlobRetrieval.LayoutCutAnywhere | blob/service.go:555-629 | however a layout of blobs and padding is cut into rows, the simple parse finds its blobs |
| BlobRetrieval.FlattenAt | blob/service.go:570-581 | the index of a share is its absolute row times the width plus its column |
| HeaderCodec.SovIsEncodedLength | header/pb/extended_header.pb.go:238-240 | the width computed from the bit length is the number of bytes the encoder writes |
| HeaderCodec.ReadEncoded | header/pb/extended_header.pb.go:201-211 | decoding an encoded 64-bit value gives it back, with its width, whatever follows |
| HeaderCodec.ReadVarintPrefix | header/pb/extended_header.pb.go:252-266 | decoding stays within the bytes and does not depend on those behind the varint |
| HeaderCodec.ReadVarintBound | header/pb/extended_header.pb.go:252-266 | a decoded value fits 64 bits |
| HeaderCodec.SizeExact | header/pb/extended_header.pb.go:213-236 | the computed size is the length of the encoding |
| HeaderCodec.RoundTrip | header/pb/extended_header.pb.go:246-439 | unmarshalling what was marshalled gives the message back, for every choice of present sub-messages of any length |
| HeaderCodec.SkipExact | header/pb/extended_header.pb.go:441-518 | skipping a well-formed field, with groups nested to any depth, returns its exact length |
| HeaderCodec.ParseUnknownField | header/pb/extended_header.pb.go:419-431 | a turn of the loop passes an unknown field without touching the message |
| HeaderCodec.UnknownFieldIgnored | header/pb/extended_header.pb.go:246-518 | inserting an unknown field between two fields changes nothing |
| HeaderMarshal.DecodeVarint | header/pb/extended_header.pb.go:252-266 | the varint loop computes the decoding function, overflow and end of input included |
| HeaderMarshal.SkipUnknown | header/pb/extended_header.pb.go:441-518 | the skip loop computes the skipping function on every byte string |
| HeaderMarshal.UnmarshalKnown | header/pb/extended_header.pb.go:275-310 | a known field: its length checked under 64-bit wrap-around, its bytes merged |
| HeaderMarshal.UnmarshalField | header/pb/extended_header.pb.go:249-433 | one turn of the loop |
| HeaderMarshal.Unmarshal | header/pb/extended_header.pb.go:246-439 | the loop terminates within bounds on every byte string and computes the parsing function |
| HeaderMarshal.PutVarint | header/pb/extended_header.pb.go:201-211 | the varint ends where it should and nothing else is written |
| HeaderMarshal.PutField | header/pb/extended_header.pb.go:150-162 | a field is printed right in front of those already printed |
| HeaderMarshal.MarshalToSizedBuffer | header/pb/extended_header.pb.go:145-199 | the buffer ends with the encoding and is untouched before it |
| HeaderMarshal.Marshal | header/pb/extended_header.pb.go:130-138 | the result is the encoding, without a gap |
| PrunerFind.EstimateCutoff | pruner/find.go:100-123 | an estimate between the last pruned height and the head, at most the maximum away, equal to the former exactly if there is nothing to find |
| PrunerFind.FindPruneableHeaders | pruner/find.go:17-98 | the longest run of headers after the last pruned one that are not after the cutoff, genesis included, up to the maximum; an error exactly if the head itself is not after the cutoff and within the maximum |
| PrunerFind.NoWindowExample | pruner/find.go:67-84 | a header that is due, and the search with an empty window that fails instead of returning it |
| PrunerFind.LongestRunUnique | pruner/find.go:86-97 | that run is unique |
| PrunerFind.PositiveWindowNeverAsksBeyondHead | pruner/find.go:67-84 | with a positive window no header behind the head is asked for |
| PrunerFind.HeadIsNotBeforeCutoff | pruner/find.go:28-44 | with a window that is not negative there is something to find as soon as one block time fits |
| PrunerSystem.StepKeepsInv | pruner/service.go:152-305 | every step of a prune cycle, the deletion hook, the header store or the process keeps the invariant |
| PrunerSystem.NothingPassedOver | pruner/service.go:152-305 | in every state of every run, a height above the first baseline and not above the last pruned height is pruned, recorded as failed, dropped when its header went away, or was adopted as the tail |
| PrunerSystem.DeletedHeightsSettled | pruner/service.go:263-305 | a height whose header is gone is pruned, dropped or was adopted |
| PrunerSystem.DeletedHeightsPruned | pruner/service.go:254-262 | it is pruned or dropped if it was never adopted |
| PrunerSystem.AdoptedWasTail | pruner/checkpoint.go:109-129 | only tails are adopted, by a cycle that begins below them or by a reset |
| PrunerSystem.AdoptedTailIsNeverPruned | pruner/checkpoint.go:120 | from every start, a run that deletes two headers and leaves the data of the second |
| PrunerSystem.ForgottenForGood | pruner/service.go:279-282 | a height that a cycle adopted unpruned, or a reset passed over, stays unpruned for good, over restarts too, unless a hook under way prunes it or a restart brings its failure back from disk |
| PrunerSystem.UnprunedExactly | pruner/service.go:254-305 | in every run, the data of a deleted header is neither pruned nor given up nor recorded as failed if and only if a step so far forgot it in that way, and since then no hook under way has pruned it and no restart has brought its failure back |
| PrunerSystem.LastPrunedNeverDecreases | pruner/checkpoint.go:96-107 | no step but a reset or a restart lowers the last pruned height |
| PrunerService.Service.ResetCheckpoint | pruner/checkpoint.go:82-92 | the reset step |
| PrunerService.Service.LastPruned | pruner/checkpoint.go:109-129 | the step that begins a cycle, and the header to go on from; none exactly if the last pruned height is above the tail and not in the store |
| PrunerService.Service.RetryFailed | pruner/service.go:232-252 | the failed heights whose header is there and whose data goes are taken out; if nothing fails, all of those with a header |
| PrunerService.FindNext | pruner/service.go:183-193 | the headers to prune next; with a positive window, fewer than the maximum only if they end where nothing more is due |
| PrunerService.Service.UpdateCheckpoint | pruner/checkpoint.go:96-107 | the step that records a batch |
| PrunerService.Service.PruneBatch | pruner/service.go:195-212 | each height of the batch pruned or noted as failed; the last one pruned is where to go on |
| PrunerService.Service.PruneRound | pruner/service.go:183-229 | a turn of the loop goes up or ends the cycle |
| PrunerService.Service.Prune | pruner/service.go:152-230 | a cycle ends although headers keep arriving, never lowers the last pruned height, and, unless that is above the head, leaves nothing to find if nothing fails, also when it adopts the tail |
| PrunerService.Service.HookBegin | pruner/service.go:263-283 | the hook's first locked part |
| PrunerService.Service.HookEnd | pruner/service.go:296-304 | the hook's second locked part |
| BlockStore.LinksResolve | store/store.go:369-400 | every link of a height leads to all of that height's data |
| BlockStore.OthersReadTheSame | store/store.go:484-504 | what touches one height changes what is read of no other, with the same data or not |
| BlockStore.Store.LinkHeight | store/store.go:306-317 | a new link of the right kind, or the one that exists, or failure without a change |
| BlockStore.Store.RemoveODS | store/store.go:484-504 | the cache entry, the link and the file are gone on success; nothing else changes either way |
| BlockStore.Store.RemoveQ4 | store/store.go:522-538 | no link changes |
| BlockStore.Store.RemoveODSQ4 | store/store.go:474-482 | the same for both files |
| BlockStore.Store.CreateODSQ4 | store/store.go:183-199 | both files complete on success; an existing one is not written; failure only on a fault |
| BlockStore.Store.ValidateAndRecover | store/store.go:218-239 | afterwards the files are complete, or a fault made recovery fail and no link is new |
| BlockStore.Store.CreateFile | store/store.go:175-216 | readable by height and complete, or failed without a new link and, if undone, without a trace; no failure without a fault |
| BlockStore.Store.Put | store/store.go:120-173 | the same for a whole put, the empty block included |
| BlockStore.Store.PopulateEmptyFile | store/store.go:322-337 | a store opened on whatever an earlier one left is valid again |
| BlockStore.Store.GetByHeight | store/store.go:369-377 | the height's own data whenever the cache or a link has it |
| BlockStore.Store.HasByHeight | store/store.go:434-442 | true exactly then |
| BlockStore.Store.Run | store/store.go:120-538 | after any calls with any failures and evictions, a linked height that none of them removes still gives all of its data, unless it was put again and that failed; its fourth quadrant stays unless a call concerned the same data |
| StoreRace.StepKeepsInv | store/store.go:120-538 | every step of a put, a removal, a cached read or a cache, under any stripes, keeps the disk valid, the calls apart and every entry of the store's own cache accounted for |
| StoreRace.ReadsAreWhole | store/store.go:369-400 | in every state of every run, reading a height through its link gives all of its own data |
| StoreRace.FileIsThereToLink | store/store.go:306-317 | the file that a put is about to link is there and complete, with the fourth quadrant if it is to store that, whatever calls for other heights with the same data do |
| StoreRace.AcknowledgedStays | store/store.go:120-173 | a height whose put returned without error stays stored until the next call for it gets the locks |
| StoreRace.AcknowledgedQ4Stays | store/store.go:120-216 | its fourth quadrant, if it was put, stays stored until the next call for the same data, of whatever height, gets the locks |
| StoreRace.RemovedIsGone | store/store.go:453-538 | after a removal without error the height is not stored, and in the own cache only if a put waits to store it again; unless the block is empty, the files of its data are gone and the second cache has nothing of it; after one of the fourth quadrant only, its file is gone |
| StoreRace.CachedFromGap | store/store_cache.go:51-66 | what the second cache has of a height that is not stored was opened by a cached read after a call had begun to clear that cache of it and before that call removed the link |
| StoreRace.FoundUnstoredExactly | store/store_cache.go:51-66 | in every run, a height that is neither stored nor being put is found in a cache if and only if a cached read opened it in that gap and nothing has taken it out since, and is served if and only if besides no call has begun to |
| StoreRace.NeverFoundUnstored | store/store.go:434-442 | in every run without cached reads, it is never found |
| StoreRace.FoundUnstoredExample | store/store.go:484-497 | the removal of an empty block, and a cached read after which its height is still served |
| StripeLocks.RequestsAscend | store/striplock.go:29-43 | every call takes at most one hash stripe and then at most one height stripe |
| StripeLocks.WritersAreAlone | store/striplock.go:45-55 | whoever holds a stripe to write is its only holder |
| StripeLocks.NoDeadlock | store/striplock.go:41-55 | for any number of calls and any collisions of stripes, some unfinished call can go on |
| ShareStream.ShareReader.Fill | share/eds/share_reader.go:44-81 | the buffer is filled from the inner buffer and further shares, and the rest of a share kept |
| ShareStream.ShareReader.Read | share/eds/share_reader.go:36-82 | delivered bytes plus buffer are the first `current` shares; EOF exactly when all are delivered; after a failure the stream is intact exactly if the buffer was empty and the next share the unreadable one |
| ShareStream.LostBytesExample | share/eds/share_reader.go:44-81 | in any square with a readable first share and an unreadable second one, a read that copies the first, fails at the second and loses both |
| ShareStream.ShareReader.ReadInPieces | share/eds/share_reader.go:36-82 | for any sizes of reads, together the beginning of the square's bytes, or all of them at EOF |
| ShareStream.ReadShares | share/eds/read.go:45-74 | row by row from a share reader or another stream: what parsing share by share gives, or nothing exactly if a share that the needed bytes come from cannot be read |
| ShareStream.FillRow | share/eds/read.go:77-94 | the shares of a row in their places |
| ShareStream.CutBetweenShares | share/eds/read.go:57-67 | a stream cut between two shares gives the shares before the cut and padding |
| ShareStream.CutInsideShare | share/eds/read.go:57-60 | a stream cut inside a share is refused |
| ShareStream.SquareRoundTrip | share/eds/read.go:42-74 | parsing the bytes that a share reader hands out gives the square back |
| ShareStream.ReadSquare | share/eds/read.go:42-74 | the row loop run on a share reader gives the square back |
| HeaderRange.FetchRange | core/exchange.go:114-154 | the headers before the first failed height, whatever the order of the fetches; an error only if there are none |
| HeaderRange.PrefixIsRun | core/exchange.go:140-151 | these are consecutive from the first height on, and the next one failed |
| HeaderRange.GetCoreRange | core/exchange.go:92-112 | that prefix, each header verified against the one before; a panic exactly if the range is empty, where the amount wraps around, or longer than a slice can be; otherwise an error exactly if the first header is missing or one does not verify |
| HeaderRange.GetSplitRange | core/routing_exchange.go:121-146 | the peers' headers followed, without a gap, by the consensus node's, verified from the last of the former |
| HeaderRange.GetRangeByHeight | core/routing_exchange.go:81-146 | for every cutoff, one run of heights behind `from` and below `to`, or an error for a reason of the sources asked; the amount does not wrap around |
| ProofsCache.AxesFitBudget | share/eds/proofs_cache.go:36-39 | the cached axes fit the budget unless only one is cached, and one more would not fit |
| ProofsCache.Cache.Size | share/eds/proofs_cache.go:85-97 | the width of the square, asked for until it is known and then kept |
| ProofsCache.Cache.AxisHalf | share/eds/proofs_cache.go:215-234 | the cached half of the axis or the one the accessor returns; entries that stay lose nothing, also when the size is not known |
| ProofsCache.Cache.AxisShares | share/eds/proofs_cache.go:311-336 | the shares of the axis, unless it is neither cached nor readable |
| ProofsCache.Cache.AxisWithProofs | share/eds/proofs_cache.go:154-213 | the tree of the axis's own shares; upgrading an entry discards nothing |
| ProofsCache.Cache.Sample | share/eds/proofs_cache.go:128-152 | the share at the coordinates with a proof against its row or column |
| ProofsCache.Cache.RowNamespaceData | share/eds/proofs_cache.go:236-264 | the same data as from the row itself, also when the cache may not be filled |
| ProofsCache.Cache.StoreAxis | share/eds/proofs_cache.go:338-349 | the entry is cached, within the capacity |
| ProofsCache.Cache.Shares | share/eds/proofs_cache.go:266-291 | what the loop collects from the halves it reads |
| ProofsCache.DataHalvesGiveSquare | share/eds/proofs_cache.go:266-291 | the original square, if every row is read as a data half |
| ProofsCache.ParityHalfLosesRows | share/eds/proofs_cache.go:280-286 | not the original square, if the last row read as a parity half is not the third |
| ProofsCache.SharesRightExactly | share/eds/proofs_cache.go:266-291 | the original square if and only if all rows were read as data halves, or the last one read as a parity half is the third and equals the first two |
| ProofsCache.ParityHalfExample | share/eds/proofs_cache.go:280-286 | a square of one share that comes back as three |
| ProofsCacheRace.RacesKeepAnswersRight | share/eds/proofs_cache.go:311-362 | however calls interleave, what is cached of an axis and what a call knows of it is that axis's own data |
| ProofsCacheRace.LostUpgradeExactly | share/eds/proofs_cache.go:338-349 | in every run, storing discards something if and only if since the call began another one stored its entry of the axis, which is still there, and was after more or has read another half |
| ProofsCacheRace.LostUpgradeByRank | share/eds/proofs_cache.go:338-349 | if the axis is always read as the same half, exactly if that other call was after more; a call after the proofs never discards anything |
| ProofsCacheRace.LostUpgradeExample | share/eds/proofs_cache.go:215-234 | a run in which a bare half replaces the shares that another call computed |

## Left out

- DasDone.NilMeansCaughtUpDuringCall: does not cover calls made while the flag is stale, for which it is false.
- DasCoordinator.CoordinatorState.UnsafeStats: does not model the text of a worker's last error.
- DasCoordinator.SamplingWorker.Run: does not model the header fetch, the sampling timeout and the broadcast of sampled headers.
- SquareRetrieval.RepairIsExclusive: Repair and the release of the write lock are one step; its outcome is a function of the written cells.
- BlobRetrieval.Retrieve: does not distinguish the error for an incomplete last blob from not found, which wraps the same error.
- HeaderCodec.UnknownFieldIgnored: when the input is refused, which error is reported may differ, since positions near 2^63 overflow.
- HeaderCodec.RoundTrip: sub-messages are values whose own codec is assumed to round-trip, and marshalling them does not fail.
- HeaderMarshal.Unmarshal: does not say what a message contains after an error.
- PrunerSystem.ForgottenForGood: does not cover the genesis block, which a cycle finds again.
- PrunerService.Service.Prune: no header is deleted during the cycle; `PrunerSystem` has the interleaving with the deletion hook.
- PrunerFind.FindPruneableHeaders: heights and durations are unbounded.
- BlockStore.Store.Put: does not promise that the file can be read by hash, which removing another height with the same data undoes.
- BlockStore.Store.Run: calls follow one another; `StoreRace` has them running at the same time.
- StoreRace.FoundUnstoredExactly: there is at most one second cache, added before the calls begin; in this repository only tests add one.
- BlockStore.Store.SizeIsValid: a file of the right size is taken to be complete.
- ShareStream.ShareReader.Read: does not model a failing write to the in-memory buffer.
- HeaderRange.GetCoreRange: the longest slice that the runtime makes is a parameter; `from` is a header, so its height is at most what the consensus format's signed 64-bit number holds.
- HeaderRange.GetRangeByHeight: peers are assumed to answer with consecutive headers below the given height, and the consensus node with the height asked for.
- In `das/`, time is read once per handler, and each call that may block is a separate step.
- In the pruner, heights begin with one, headers are deleted in ascending order, the tail does not move back, and header times increase strictly; write batches and read transactions are not modelled.
- In the codec, the or of disjoint bit ranges is written as a sum.
- Merkle trees, erasure coding, blob construction, commitments and header verification are library functions and appear as parameters.
- gRPC, libp2p, RPC, configuration, metrics, logging, state access, fraud proofs, key storage and the light node's availability checks: not modelled.
- `core/listener.go`, `blob/commitment_proof.go`, `share/shwap`, `nodebuilder`: mostly network calls, library proofs or wiring.
