# A verified model of the packet ring, its pools and its packet codecs

The system captures packets into a ring in shared memory. Several producers claim meta blocks by
compare-and-swap; a chain of modules consumes them, tail → module 1 → … → module k−1 → module 0; module 0
frees the blocks and thereby limits the producers. Beneath the ring are pools of fixed-size objects; around
it are the header decoder that fills in the metas and the text forms of addresses.

`dafny verify dfyconfig.toml` checks everything.

## The ring

- `RingSteps` is the ring as the code runs it: positions modulo N, slots reused lap after lap, one step for
  each access to shared memory (read tail, read limit, read `size`, compare-and-swap, each store of a
  field, `size` last). Any number of producers and modules take steps in any order, so reads may be stale.
- `RingLog` is its specification: an unbounded log of claims and absolute counters, in which no slot is
  ever reused. `RingLogInvariant` proves its invariant.
- `RingRefinement` proves that every run of the first is a run of the second. `RingTheorems`,
  `RingProducerRuns`, `RingCalls` and `RingLiveness` draw the consequences, in terms of the ring alone.
- `RingLimits` shows where the hypotheses below are needed. `RingRuns` has the runs single calls make, and
  `RingWords` the move on 32-bit words.
- `RingClasses` and `PipelineTask` are the objects of the program. Every call is a run of the step system
  from any state of the whole system that agrees with the object. `RingSizing` has the arithmetic by which
  a ring is sized, and `StopTest` compares the two tests for the stop signal.

Hypotheses of the ring theorems:

1. N ≥ 3. `RingLimits.AcceptsIff` shows that a smaller ring never accepts anything.
2. The number of modules is fixed once the ring has started.
3. A module moves forward, and only past blocks it was handed. `RingWords.NegativeMoveIff` shows what a
   negative count does.
4. Module 0 frees each block it was handed once.
5. Every claim is safe: at a producer's successful compare-and-swap, the two checks it made before would still
   pass. They do whenever fewer than N other claims succeeded since it read the tail
   (`RingTheorems.UnlappedPasses`), and `RingLimits.ClaimSafeIff` says that this is exactly what a claim needs.
   `RingLimits.LappedClaimsLoseBlocks` is a run that violates it and breaks the ring.
6. A capture finalises one data block before it takes metas for the next. The assertion at
   packet_ring_class.cpp:326 rests on that.
7. A producer stores metas only before it publishes their block. Modules write only to metas of blocks they
   have, and leave `ts` and `pktLen` alone, as `BasicProcess` does.
8. Memory is sequentially consistent.

## The pools

`FixBufferPool` is the intrusive free list and the carving of one memory into a pool for each capture.
`ObjectPool3` is the circular scan, run by one thread, with the strict circular pool it derives from.
`FreeQueue` is the queue that one getter and one releaser share without a lock. Its theorems ask that no block
is ever empty: `BlockSizes.Stops`, which a maximum of at most 2^31 grants, and without which the pool's
assertions do fail (`FreeQueue.AssertionsHoldIff`). `BlockSizes` has the arithmetic of the doubling.

## The codecs

`Text` splits strings and reads and writes hexadecimal and MAC addresses. `Ipv6Text` prints IPv6 addresses
and reads them by section 2.2 of RFC 4291. `Decode` walks packet headers with the widths of the source;
`DecodeLaws` and `DecodeFrames` have the laws. A packet's memory is a function that is defined everywhere,
because the decoder reads types, labels and tunnel headers without asking whether they were captured.

## Where the code does not do what it seems to

- `StartWork` asserts divisibility by `2 ^ 10`, which is 8 and not 1024 (`RingSizing.StartWorkAssertIff`).
- A fixed-size pool set up with count 0 hands out a block it does not have
  (`FixBufferPool.SetUpConservesIff`).
- Pools overlap when the 32-bit product of index and pool size wraps (`FixBufferPool.PoolsDisjointIff`).
- The collector resets `ringPos` after a stop while its module stays where it is in the ring, so its assertion
  on positions fails at the first block of a second start unless N divides the number of blocks handed over
  before; and its 32 bits break it after 2^32 blocks unless N divides 2^32 (`PipelineTask.PositionAssertIff`).
- The collector's stop test asks for less than `IsStopSignal` does, so an empty packet at time 0 that a capture
  publishes alone in a block stops it (`StopTest.StopTestIff`, `StopTest.WrongStop`).
- An object pool whose maximum block size is above 2^31 may double its block size to 0, exactly as
  `BlockSizes.NeverEmptyIff` says, and then fails its assertion (`FreeQueue.EmptyBlockFails`).
- The decoder may walk over tags or labels for ever, because its 16-bit offset comes round again
  (`DecodeLaws.TagsEndIff`, `DecodeLaws.LabelsEndIff`).
- `AtoX` takes a foreign character for −1 (`Text.AtoXExactIff`).
- The decoder leaves layer 5 as the previous use of the meta left it when a packet does not set it
  (`DecodeLaws.PayloadBoundIff`), and the 8-bit layer 4 offset may change how much payload is cut off
  (`DecodeLaws.ClampMovedIff`).
- The decoder's test for the last label looks at a bit of another byte than the label format's, and its
  tunnel port is compared in the other byte order than the packet's. Both are modelled as they are.

## Model

| member | source | states |
|---|---|---|
| `RingTheorems.ChainOrder` | code/sln/PacketRing/src/packet_ring.cpp:708-732 | On every reachable state of the split-step ring, for any number of producers and modules, the absolute counters obey claims ≥ p(i) ≥ p(j) ≥ p(0) ≥ claims − (N−2) for 1 ≤ i ≤ j |
| `RingTheorems.StartReachable` | code/sln/PacketRing/src/packet_ring.cpp:80-98 | A started ring is reachable |
| `RingTheorems.ReachableGoesOn` | code/sln/PacketRing/src/packet_ring.cpp:699-841 | Every step of any producer or module leads from a reachable ring to a reachable one, except a claim at whose compare-and-swap one of the two checks would no longer pass |
| `RingTheorems.Positions` | code/sln/PacketRing/src/packet_ring.cpp:334-341 | The shared tail and each `blkPtr` are those counters modulo N |
| `RingTheorems.ClaimTakesFreeSlot` | code/sln/PacketRing/src/packet_ring.cpp:708-732 | A safe successful compare-and-swap takes the slot at the tail while fewer than N−2 blocks are outstanding, and that slot reads as freed |
| `RingTheorems.UnlappedPasses` | code/sln/PacketRing/src/packet_ring.cpp:708-732 | However stale a producer's reads, both checks would still pass at its successful compare-and-swap if fewer than N other claims succeeded since it read the tail |
| `RingTheorems.ClaimApart` | code/sln/PacketRing/src/packet_ring.cpp:721-732 | The next slot to be claimed holds no block that any module has not moved past |
| `RingTheorems.HeldNotTail` | code/sln/PacketRing/src/packet_ring_class.cpp:306-318 | Nor is it a block that a producer holds, so publishing a full block never disturbs the claim of the next |
| `RingTheorems.DeliveryExact` | code/sln/PacketRing/src/packet_ring.cpp:830-838 | The j-th block a module is handed is the j-th block claimed, with exactly the fields its producer published |
| `RingTheorems.InOrder` | code/sln/PacketRing/src/packet_ring_class.cpp:66-80 | Every module is handed positions 0, 1, 2, … mod N in turn, each ready, whatever order the producers publish in |
| `RingTheorems.NextReadyIff` | code/sln/PacketRing/src/packet_ring_class.cpp:66-80 | Between calls a block is there for a module exactly when the next one in turn was let through by the module ahead and is published, and then it is that one |
| `RingTheorems.PrefixOfPredecessor` | code/sln/PacketRing/src/packet_ring.cpp:326-332 | What a module was handed is a prefix of what its predecessor in the chain has moved past |
| `RingTheorems.StableUntilMoved` | code/sln/PacketRing/src/packet_ring.cpp:334-341 | A handed block reads the same from then until the module moves past it; for module 0, which may move first and free later, until it frees it |
| `RingTheorems.MetasInHands` | code/sln/PacketRing/src/packet_ring.cpp:347-365 | Each meta of a block in the hands of a module has the time and length its producer stored, and the body the producer stored or a module wrote last |
| `RingTheorems.MetaStep` | code/sln/PacketRay/src/pipeline_task.cpp:33-47 | No step of anyone changes a meta of such a block, except that a module which has the block may write its body; time and length never change |
| `RingTheorems.WriteMissesProducers` | code/sln/PacketRay/src/pipeline_task.cpp:33-47 | A module's write lies in the pool and never hits a meta that a producer holds |
| `RingTheorems.AssertionsHold` | code/sln/PacketRing/src/packet_ring.cpp:734-740 | On every run the assertions about a claimed block hold: here those on its position and offset, and in packet_ring_class.cpp those of lines 316, 317, 326, 362 and 376. Not among them: packet_ring.cpp:494 and pipeline_task.cpp:112, which have rows of their own because they can fail, and packet_ring_class.cpp:373, which is the caller's |
| `RingTheorems.EmptyBlockClean` | code/sln/PacketRing/src/packet_ring_class.cpp:315-317 | A block that `GetEmptyMetaBlk` returns has size 0, no data block, is not final, and carries its own position and offset |
| `RingTheorems.MoveNeverRefused` | code/sln/PacketRing/src/packet_ring.cpp:334-344 | A module that moves only past blocks it was handed never gets the error return |
| `RingTheorems.MoveAcceptedIff` | code/sln/PacketRing/src/packet_ring.cpp:334-344 | For any count, the move is accepted exactly when the absolute cursor plus the count does not pass the absolute limit |
| `RingTheorems.EmptyIff` | code/sln/PacketRing/src/packet_ring.cpp:459-467 | `IsRingEmpty` holds exactly when module 0 has moved past everything claimed |
| `RingTheorems.MetaExclusive` | code/sln/PacketRing/src/packet_ring_class.cpp:306-328 | Every meta index handed out lies in the pool, and no two producers hold the same one |
| `RingTheorems.MetaNotReused` | code/sln/PacketRing/src/packet_ring_class.cpp:306-328 | No index is handed out again while it belongs to a published block, handed over or not, that some module has not moved past or module 0 has not freed |
| `RingTheorems.HeldBlockInvisible` | code/sln/PacketRing/src/packet_ring_class.cpp:344-357 | Until it is published, a held block is in no module's list and reads as not ready |
| `RingTheorems.UsedWithinCapacity` | code/sln/PacketRing/src/packet_ring_class.cpp:301-328 | Between calls 1 ≤ used ≤ max(1, capacity) |
| `RingTheorems.SignalsRecognised` | code/sln/PacketRing/src/packet_ring_class.cpp:153-175 | Until it is freed, a block is taken for a stop (timeout) signal exactly when it was published final, single, without data block, with length 0 and time zero (not zero) |
| `RingTheorems.SentSignalRecognised` | code/sln/PacketRing/src/packet_ring_class.cpp:359-383 | A sent signal is recognised by everyone who is handed it, as the right one of the two |
| `RingTheorems.StopIsLast` | code/sln/PacketRing/src/packet_ring_class.cpp:359-369 | If the stop signal is the last claim, whoever is handed it has been handed every other block before, as published |
| `RingRefinement.Simulates` | code/sln/PacketRing/src/packet_ring.cpp:699-743 | Every step of the modular, slot-reusing ring is the same step of a specification on an unbounded log, and keeps the two linked |
| `RingRefinement.RunRefines` | code/sln/PacketRing/src/packet_ring.cpp:699-841 | Every run of the ring whose claims are safe, lapped or not, is a run of the log |
| `RingRefinement.ScanDistanceExact` | code/sln/PacketRing/src/packet_ring.cpp:821-825 | The distance computed on ring positions is the difference of the absolute counters, when they are less than a lap apart |
| `RingRefinement.MoveExact` | code/sln/PacketRing/src/packet_ring.cpp:334-344 | The wrapped comparison of `Move2NextMetaBlk` decides the comparison of the absolute counters |
| `RingRefinement.LimitCheck` | code/sln/PacketRing/src/packet_ring.cpp:711-714 | The check against `SAFE_DISTANCE` passes exactly when fewer than N−2 blocks are outstanding |
| `RingRefinement.PreviousLapFreed` | code/sln/PacketRing/src/packet_ring.cpp:721-727 | A slot in the window that reads size 0 was freed in the lap before, by the order of the three stores |
| `RingLogInvariant.KeepInv` | code/sln/PacketRing/src/packet_ring.cpp:699-841 | Every step of the log keeps its invariant: cursors in chain order, entries, writers, width N−2 |
| `RingProducerRuns.FinalClosesRun` | code/sln/PacketRing/src/packet_ring_class.cpp:301-357 | Producer run law: the blocks published from one `FinalMetaBlk` to the next hold one meta per `GetMeta4PktBlk` call, in order; each size is at least 1, they add up to the number of calls, and exactly the last is final |
| `RingProducerRuns.OneDataBlock` | code/sln/PacketRing/src/packet_ring_class.cpp:320-325 | If the calls were all for one data block, so is every block published for them |
| `RingCalls.FinalClosesCalls` | code/sln/PacketRing/src/packet_ring_class.cpp:301-357 | In any run of the ring, with any steps of others in between, those blocks hold exactly the metas the producer took since the final block before |
| `RingCalls.CallsClosed` | code/sln/PacketRing/src/packet_ring_class.cpp:306-337 | The law for sequences of calls: after any number of `GetMeta4PktBlk` calls and one `FinalMetaBlk`, the blocks published hold one meta for each call, in order, under the data block it was called with |
| `RingCalls.CallReachable` | code/sln/PacketRing/src/packet_ring_class.cpp:306-328 | A call that nobody disturbs leaves a reachable ring reachable |
| `RingProducerRuns.PublishedStable` | code/sln/PacketRing/src/packet_ring_class.cpp:344-357 | Once published, an entry changes only in how far it is freed, and in a body when a module that has the block writes it |
| `RingLiveness.NeverWedged` | code/sln/PacketRing/src/packet_ring.cpp:699-719 | With everything claimed published and everything moved past freed, an idle producer can claim at once or some module can get on |
| `RingLiveness.StepDrains` | code/sln/PacketRing/src/packet_ring.cpp:315-345 | Once producers stop, no step of a module adds work, the stores that free a block and the writes to metas included, and every effective one removes some |
| `RingLiveness.ScheduleBounded` | code/sln/PacketRing/src/packet_ring.cpp:803-841 | Every schedule of steps of the modules, with module 0 freeing meanwhile, makes at most `Measure` effective ones |
| `RingLiveness.ScheduleDrains` | code/sln/PacketRing/src/packet_ring.cpp:803-841 | Every such schedule, once no effective step is left, has taken every module past every block and the ring to empty |
| `RingLiveness.DrainedWhenStuck` | code/sln/PacketRing/src/packet_ring.cpp:459-467 | When no module can get on, every module has moved past every block and the ring reports itself empty |
| `RingLimits.LappedClaimsLoseBlocks` | code/sln/PacketRing/src/packet_ring.cpp:731-732 | Without the hypothesis on laps the guarantees fail: a concrete run after which N blocks are outstanding and the ring reports itself empty |
| `RingLimits.ClaimSafeIff` | code/sln/PacketRing/src/packet_ring.cpp:711-732 | A claim, lapped or not, keeps the distance and takes the slot of a freed block exactly when both checks would still pass at the compare-and-swap |
| `RingLimits.AcceptsIff` | code/sln/PacketRing/src/packet_ring.cpp:708-719 | A started ring ever accepts a block exactly when it has at least three meta blocks |
| `RingWords.WordMoveAgrees` | code/sln/PacketRing/src/packet_ring.cpp:334-344 | On 32-bit words the move computes the same for every non-negative count |
| `RingWords.NegativeMoveIff` | code/sln/PacketRing/src/packet_ring.cpp:337-341 | A negative count is accepted exactly when it does not reach below position 0, and then moves the cursor back |
| `RingGeometry.MetaInPool` | code/sln/PacketRing/src/packet_ring.cpp:347-365 | Every meta a producer may take from a block lies in the pool and in the block's own range |
| `RingGeometry.MetaDisjoint` | code/sln/PacketRing/src/packet_ring.cpp:738-740 | Two blocks never share a meta |
| `RingClasses.SharedRing.constructor` | code/sln/PacketRing/src/packet_ring.cpp:80-98 | A fresh ring is zeroed |
| `RingClasses.SharedRing.LimPtr` | code/sln/PacketRing/src/packet_ring.cpp:815-819 | The limit of a module is the tail for the first of the chain, else the cursor ahead of it |
| `RingClasses.SharedRing.GetNextMetaBlks` | code/sln/PacketRing/src/packet_ring.cpp:803-841 | Picks exactly the ready blocks from the pick position on, up to the limit or the first block that is not ready; the call is one read of the limit and a run of probes |
| `RingClasses.SharedRing.Move2NextMetaBlk` | code/sln/PacketRing/src/packet_ring.cpp:315-345 | For any signed count, the cursor moves by what the wrapped comparison on 32-bit words allows or −3 is returned and nothing changes; for blocks that were handed over the call is the move step |
| `RingClasses.SharedRing.IsRingEmpty` | code/sln/PacketRing/src/packet_ring.cpp:459-467 | Returns the step system's emptiness test |
| `RingClasses.SharedRing.GetEmptyMetaBlk` | code/sln/PacketRing/src/packet_ring.cpp:699-743 | Undisturbed, the call is a run of the claim's steps; it succeeds exactly when the limit check passes and the slot reads size 0, and changes the tail and that slot only |
| `RingClasses.SharedRing.FreeFullMetaBlk` | code/sln/PacketRing/src/packet_ring_class.cpp:257-264 | The call is the three stores in order, and changes one slot only |
| `RingClasses.PacketRing.GetNextFullMetaBlk` | code/sln/PacketRing/src/packet_ring_class.cpp:66-80 | Hands over a block exactly when one is there: the first of its list or, with an empty list, the one at the pick position if that is not the limit and is ready; NULL otherwise. The call is a run of the module's own steps |
| `RingClasses.PacketRing.GetPktMetaInBlk` | code/sln/PacketRing/src/packet_ring.cpp:347-365 | The meta's index, or NULL beyond the size (beyond the capacity for an empty block) |
| `RingClasses.PacketRing.IsStopSignal` | code/sln/PacketRing/src/packet_ring_class.cpp:153-163 | Decides the step system's stop signal |
| `RingClasses.PacketRing.IsTimeoutSignal` | code/sln/PacketRing/src/packet_ring_class.cpp:165-175 | Decides the step system's timeout signal |
| `RingClasses.ProducerRing.GetMeta4PktBlk` | code/sln/PacketRing/src/packet_ring_class.cpp:306-328 | With room in the held block one more meta of it is taken and no meta block changes; otherwise the old block gets its size and nothing else, and the block at the tail is claimed, placed and given to the data block. The steps of the call are stated one by one, and the other captures stay as they are |
| `RingClasses.ProducerRing.FinalMetaBlk` | code/sln/PacketRing/src/packet_ring_class.cpp:330-337 | Marks the held block final, then publishes it with the number of metas used; nothing without a block, and nothing of other captures |
| `RingClasses.ProducerRing.DoneMetaBlk` | code/sln/PacketRing/src/packet_ring_class.cpp:344-357 | Publishes the held block with the number of metas used; nothing for no block or none used |
| `RingClasses.ProducerRing.IsMetaBlkFull` | code/sln/PacketRing/src/packet_ring_class.cpp:301-304 | Full means that the next meta would lie outside the block's own range or be the last of the pool |
| `RingClasses.ProducerRing.SendSignal` | code/sln/PacketRing/src/packet_ring_class.cpp:359-383 | The call is a claim and the three stores of a signal; afterwards the block is a stop signal exactly for time 0 and a timeout signal exactly otherwise |
| `PipelineTask.CollectTask.Collect` | code/sln/PacketRay/src/pipeline_task.cpp:107-138 | One pass, after any number of restarts, hands on a token exactly when a block is there, of the next block, with the index of each of its metas, all in the pool; it reports what the assertion on positions evaluates to, and the stop flag is set exactly by a single packet with length and time 0 |
| `PipelineTask.ReachableDelivers` | code/sln/PacketRay/src/pipeline_task.cpp:107-138 | What `Collect` asks of the ring holds in every reachable state, and after the pass the state is reachable again |
| `PipelineTask.CollectTask.Restart` | code/sln/PacketRay/src/pipeline_task.cpp:146-147 | After a stop the counter starts again at 0 while the module stays where it is in the ring |
| `PipelineTask.CollectTask.Return` | code/sln/PacketRay/src/pipeline_task.cpp:155-167 | Returning a token moves the module past one block, or returns −3 and changes nothing |
| `PipelineTask.ReturnAccepted` | code/sln/PacketRay/src/pipeline_task.cpp:155-167 | In a reachable state of a ring that `SizeRing` sized, returning a token in flight is never refused |
| `PipelineTask.BasicProcess` | code/sln/PacketRay/src/pipeline_task.cpp:33-47 | Decoding the packets of a token, each by `ProcessPacketBasic`, is a run of writes to the bodies of exactly its metas; times and lengths stay |
| `PipelineTask.DecodedInPlace` | code/sln/PacketRay/src/pipeline_task.cpp:33-47 | Although only the body of a meta is written, the meta then holds everything the decoder found |
| `StopTest.StopTestIff` | code/sln/PacketRay/src/pipeline_task.cpp:132-136 | On a block in a module's hands the collector's stop test agrees with `IsStopSignal` exactly unless the block is a single packet with length and time 0 that belongs to a data block or does not close one |
| `StopTest.WrongStop` | code/sln/PacketRay/src/pipeline_task.cpp:132-136 | Where it does not: a reachable ring in which module 0 has a block of data block 7 with one empty packet at time 0 |
| `PipelineTask.PositionAssertIff` | code/sln/PacketRay/src/pipeline_task.cpp:104-147 | The assertion on the 32-bit `ringPos` holds for every number of blocks after a start exactly when N divides both 2^32 and the number of blocks handed over before that start |
| `PipelineTask.PositionAssertFails` | code/sln/PacketRay/src/pipeline_task.cpp:104-147 | Where it fails: at the first block after a start at another position than 0, else when the counter wraps |
| `PipelineTask.HandedInPool` | code/sln/PacketRay/src/pipeline_task.cpp:118-131 | Every packet of a collected block has its meta in the pool |
| `RingSizing.Log2` | code/sln/LiangZhu/src/common/math_.cpp:20-30 | The exponent k with 2^k ≤ value < 2^(k+1); 0 for 0 |
| `RingSizing.SizeRing` | code/sln/PacketRing/src/packet_ring.cpp:84-95 | For v < 2^30 average packets the number of metas M is a power of two, with v < M ≤ 2v from v = 1 on and M = 2 for v = 0; it is divisible by 8 exactly from v = 4 on; and the sizing is the one the ring relies on |
| `RingSizing.ShiftFits` | code/sln/PacketRing/src/packet_ring.cpp:88 | The signed shift `2 << n` is 2^(n+1) for n < 30 and less than it from 30 on |
| `RingSizing.ThreeBlocksIff` | code/sln/PacketRing/src/packet_ring.cpp:95 | The ring has the three blocks it needs exactly when M − 1 ≥ twice the block capacity |
| `RingSizing.MaskIsMod` | code/sln/PacketRing/src/packet_ring.cpp:490-494 | Masking with `g_metaCount` = M − 1 is the remainder modulo M |
| `RingSizing.CapacitiesAddUp` | code/sln/PacketRing/src/packet_ring.cpp:753-762 | The capacities of all blocks add up to exactly M − 1 |
| `RingSizing.StartWorkAssertIff` | code/sln/PacketRing/src/packet_ring.cpp:494 | For every sizing `SizeRing` makes, its assertion, whose `2 ^ 10` is an exclusive or, holds exactly from four average packets on |
| `RingSizing.DistanceExact` | code/sln/LiangZhu/src/common/math_.cpp:32-36 | `Distance` is the one number of steps below a lap from one position to the other |
| `FixBufferPool.RunConserves` | code/inc/common/fixsize_buffer.h:111-150 | Over every run of requests and releases of held blocks, each block is free or held, once, and a request after it returns NULL exactly when all blocks are held, else a block that nobody held |
| `FixBufferPool.StepConserves` | code/inc/common/fixsize_buffer.h:134-143 | One request or release keeps that; a request adds exactly the block it returns to those held, a release takes exactly its block away |
| `FixBufferPool.FixBufferPool.constructor` | code/inc/common/fixsize_buffer.h:65-77 | `init` threads all blocks in order through their own memory |
| `FixBufferPool.FixBufferPool.TryGetBlock` | code/inc/common/fixsize_buffer.h:134-143 | Returns NULL exactly when all blocks are held, and changes nothing then; otherwise unlinks the first block and returns it; the list stays acyclic and duplicate-free |
| `FixBufferPool.FixBufferPool.Release` | code/inc/common/fixsize_buffer.h:111-132 | Links the block in front, whatever its user left in it |
| `FixBufferPool.FixBufferPool.UserWrite` | code/inc/common/fixsize_buffer.h:145-149 | Data written to a held block leaves the list alone, although it overlays the link |
| `FixBufferPool.SetUpConservesIff` | code/inc/common/fixsize_buffer.h:152-166 | The set-up conserves exactly for count > 0; with 0 it hands out a block it does not have |
| `FixBufferPool.PreparePktBlkPool` | code/sln/PacketRing/src/packet_ring_class.cpp:219-244 | The start address and the block count of every capture's pool |
| `FixBufferPool.PoolsDisjointIff` | code/sln/PacketRing/src/packet_ring_class.cpp:234-243 | The pools' blocks never overlap exactly when the last 32-bit start does not wrap |
| `ObjectPool3.ObjectPool.GetBlock` | code/inc/common/object_buffer.hxx:115-138 | With an object free, the scan ends within n probes at the first free one in circular order, and leaves the cursor just past it |
| `ObjectPool3.ObjectPool.GetInOrder` | code/inc/common/object_buffer.hxx:38-58 | The object at the cursor, and the cursor moves on by one |
| `ObjectPool3.ObjectPool.Release` | code/inc/common/object_buffer.hxx:60-67 | Frees exactly the object |
| `ObjectPool3.ChosenUnique` | code/inc/common/object_buffer.hxx:118-129 | The first free object in circular order is determined by its description |
| `ObjectPool3.InOrderWhileFree` | code/inc/common/object_buffer.hxx:115-138 | While the objects ahead are free, request m returns the object m places on, as the strict pool does |
| `FreeQueue.NeverIssuesOutstanding` | code/inc/common/object_buffer.hxx:176-195 | On every interleaving of one getter and one releaser, field by field, no outstanding object is issued |
| `FreeQueue.ChainIntact` | code/inc/common/object_buffer.hxx:214-228 | The chain from the first to the last released object is intact in every reachable state |
| `FreeQueue.EveryObjectAccountedFor` | code/inc/common/object_buffer.hxx:176-258 | Each object is outstanding, queued, being released, or unissued in the current block, and only one of these |
| `FreeQueue.HeldBackAtMostOne` | code/inc/common/object_buffer.hxx:178-184 | The getter turns to fresh objects only with at most one released object held back |
| `FreeQueue.AssertionsHold` | code/inc/common/object_buffer.hxx:193-219 | The assertions of the pool hold on every interleaving of a pool whose block size never wraps to 0 |
| `FreeQueue.AssertionsHoldIff` | code/inc/common/object_buffer.hxx:193-242 | For a fresh pool of any sizes, they hold on every interleaving exactly when one of the first 32 doublings of the block size reaches the maximum |
| `FreeQueue.EmptyBlockFails` | code/inc/common/object_buffer.hxx:189-242 | Otherwise some run asks a block without objects for an object, where the assertion fails |
| `FreeQueue.NeverStuck` | code/inc/common/object_buffer.hxx:176-228 | Neither thread follows a null pointer or gets stuck inside a call |
| `FreeQueue.KeepInv` | code/inc/common/object_buffer.hxx:176-258 | Every single field access keeps the invariant behind these |
| `FreeQueue.ObjectPool2.constructor` | code/inc/common/object_buffer.hxx:154-158 | A fresh pool, of any sizes; it is an initial state of the theorems exactly when no block it can come to is empty |
| `FreeQueue.ObjectPool2.GetObject` | code/inc/common/object_buffer.hxx:176-195 | Undisturbed, the call is a run; it takes the first of two or more queued objects, else a fresh one |
| `BlockSizes.NeverShrinksIff` | code/inc/common/object_buffer.hxx:237-242 | No block is shorter than the one before exactly when the maximum is at most 2^31 or the last doubling that 32 bits hold reaches it |
| `BlockSizes.NeverEmptyIff` | code/inc/common/object_buffer.hxx:237-242 | For every starting size and maximum, no block is ever empty exactly when one of the first 32 doublings, in 32 bits, reaches the maximum |
| `FreeQueue.BlocksDouble` | code/inc/common/object_buffer.hxx:237-258 | On every run each block has the length that doubling gives, is not empty, and under the condition of `NeverShrinksIff` is not shorter than the one before |
| `FreeQueue.ObjectPool2.ReleaseObjectList` | code/inc/common/object_buffer.hxx:214-228 | Undisturbed, the call is a run and queues the chain; with a chain of one it is `releaseObject` (197-211) |
| `Text.StrSplit` | code/sln/LiangZhu/src/common/string_.cpp:11-27 | Appends exactly the longest delimiter-free stretches, in order |
| `Text.StrSplitC` | code/sln/LiangZhu/src/common/string_.cpp:5-9 | NULL gives −1 and changes nothing |
| `Text.SplitInvertsWeave` | code/sln/LiangZhu/src/common/string_.cpp:11-27 | Splitting inverts joining non-empty delimiter-free tokens with any non-empty delimiter runs |
| `Text.SplitIsWeave` | code/sln/LiangZhu/src/common/string_.cpp:11-27 | Every string is such a join of the tokens it splits into |
| `Text.Bin2Str` | code/sln/LiangZhu/src/common/string_.cpp:98-111 | Writes the two digits of every byte and a terminator, and nothing else |
| `Text.AtoX` | code/sln/LiangZhu/src/common/string_.cpp:153-165 | The accumulated value in a byte; 0 for NULL and more than two characters |
| `Text.DigitIs` | code/sln/LiangZhu/src/common/string_.cpp:98-111 | The digits are '0' to '9' and then the letters of the case asked for |
| `Text.HexRoundTrip` | code/sln/LiangZhu/src/common/string_.cpp:98-165 | Reading back the digits of a byte gives the byte, in either case |
| `Text.AtoXExactIff` | code/sln/LiangZhu/src/common/string_.cpp:153-165 | The result is the number the characters denote exactly when all are digits, or a foreign character follows a non-zero digit and counts as −1 |
| `Text.GetMacAddr` | code/sln/ChangQian/src/network/net_util.cpp:159-174 | Six tokens give the big-endian number of their values; anything else all ones |
| `Text.MacRoundTrip` | code/sln/ChangQian/src/network/net_util.cpp:159-174 | Six bytes written as pairs in any case and joined by ':' or '-' are read back as their 48-bit number |
| `Ipv6Text.Addr2Str` | code/sln/ChangQian/src/network/net_util.cpp:103-157 | The loop over the 64-character buffer, which always suffices, leaves out the first run of zero groups for "::", the last group never, and prints every other group; a mapped address is printed with four decimal bytes |
| `Ipv6Text.PrintedIs` | code/sln/ChangQian/src/network/net_util.cpp:115-154 | What the loop prints in closed form: the groups before the first zero group, "::", and the groups from the next one that is not zero or is the last |
| `Ipv6Text.HexShortest` | code/sln/ChangQian/src/network/net_util.cpp:149 | Groups are printed in upper case without leading zeros |
| `Ipv6Text.DecShortest` | code/sln/ChangQian/src/network/net_util.cpp:108-112 | So are the decimal bytes of the mapped branch |
| `Ipv6Text.RoundTrip` | code/sln/ChangQian/src/network/net_util.cpp:103-157 | For every address, a reader of RFC 4291 section 2.2 recovers the eight groups from the printed text, in both branches |
| `Ipv6Text.GroupsRoundTrip` | code/sln/ChangQian/src/network/net_util.cpp:115-154 | Likewise for the loop alone; "::" occurs at most once |
| `Ipv6Text.MappedRoundTrip` | code/sln/ChangQian/src/network/net_util.cpp:108-112 | The IPv4-mapped branch reads back as the mapped address |
| `Ipv6Text.PrintedInjective` | code/sln/ChangQian/src/network/net_util.cpp:103-157 | Different addresses print differently |
| `Decode.ProcessPacketBasic` | code/sln/ChangQian/src/network/decode_basic.cpp:8-127 | Returns the code and leaves the meta that the specification gives; NULL arguments give −1 |
| `Decode.SkipLink` | code/sln/ChangQian/src/network/decode_basic.cpp:16-46 | The walk over tags, labels and PPPoE, with its 16-bit offset |
| `Decode.SkipLabels` | code/sln/ChangQian/src/network/decode_basic.cpp:30-33 | The walk over labels stops at the first whose deciding bit is clear |
| `Decode.EnterTunnel` | code/sln/ChangQian/src/network/decode_basic.cpp:60-86 | The header that is decoded is the outer one, the inner one of a tunnel, or none |
| `Decode.PacketMeta.DecodeIp4` | code/sln/ChangQian/src/network/decode_basic.cpp:53-100 | The IPv4 branch |
| `Decode.PacketMeta.DecodeIp6` | code/sln/ChangQian/src/network/decode_basic.cpp:102-123 | The IPv6 branch |
| `Decode.PacketMeta.ProcessPacketL4` | code/sln/ChangQian/src/network/decode_basic.cpp:129-184 | Clamps the length by the 8-bit layer 4 offset and sets the fields of the TCP, UDP or other branch, no others |
| `DecodeLaws.TagsEndIff` | code/sln/ChangQian/src/network/decode_basic.cpp:20-26 | The walk over tags ends exactly when one of the first 16385 types it can come to is not a tag |
| `DecodeLaws.LabelsEndIff` | code/sln/ChangQian/src/network/decode_basic.cpp:30-33 | The walk over labels ends exactly when one of the 16384 positions it can come to has the bit clear |
| `DecodeLaws.PayloadBoundIff` | code/sln/ChangQian/src/network/decode_basic.cpp:134-174 | For every content, `layer5Offset + layer5payloadLen ≤ pktLen` holds afterwards exactly when this packet set layer 5 or the meta held such values before |
| `DecodeLaws.LengthKept` | code/sln/ChangQian/src/network/decode_basic.cpp:8-184 | Decoding never touches `pktLen`, as the ring's signals rely on |
| `DecodeLaws.ClampMovedIff` | code/sln/ChangQian/src/network/decode_basic.cpp:134-144 | Inserting bytes leaves the clamped length alone exactly when the 8-bit offset does not wrap or nothing was cut off |
| `DecodeLaws.VlanTransparent` | code/sln/ChangQian/src/network/decode_basic.cpp:20-46 | Any stack of tags leaves the code, addresses, ports, flags and payload length alone and moves every offset that is set by 4 per tag, in 8 bits |
| `DecodeLaws.LinkOfTagged` | code/sln/ChangQian/src/network/decode_basic.cpp:20-46 | Tags are walked over and the walk goes on as before |
| `DecodeFrames.PacketDecoded` | code/sln/ChangQian/src/network/decode_basic.cpp:8-184 | A packet is decoded to exactly its own fields, whatever the meta held: behind any number of tags, with nothing, PPPoE or a label stack behind them, in IPv4 or IPv6, TCP with each of its flags, UDP or neither, a fragment or whole, captured whole or in part |
| `DecodeFrames.TunnelDecoded` | code/sln/ChangQian/src/network/decode_basic.cpp:60-86 | A packet in a GTP tunnel, with any of the optional GTP fields, is decoded to exactly the fields of the inner packet |
| `DecodeFrames.RefusedIff` | code/sln/ChangQian/src/network/decode_basic.cpp:56-109 | −1 is returned exactly for a header of the wrong version and for a tunnel without a whole IPv4 header in it; then, and when there is nothing to decode, addresses and ports are 0 and the rest is as it was |
| `DecodeFrames.FrameRoundTrip` | code/sln/ChangQian/src/network/decode_basic.cpp:88-184 | In particular a complete TCP segment or UDP packet, with or without Don't Fragment, leaves its addresses, ports, flags, sequence number, three offsets and payload length, as long as the offsets stay below 256 |

## Left out

- Shared-memory creation, address mapping, logging, DPDK and the platform layers: calls into other code. Slots and metas are indices.
- Joining late, leaving and restarting of modules, `FindModule`, and registering extensions to a meta: the modules are fixed, and `StartWork` asserts that no extension exists.
- The `type` field of a meta block and the column index: copied, never looked at by the ring.
- The packet-level cursor (`GetNextMetaSpace`, `GetNextPacket`): its check and its ticket are not atomic; only its masking is covered, by `RingSizing.MaskIsMod`.
- `GetNextMetaBlk`, `GetOneMetaBlk` and the queries on module positions: weaker forms of what is modelled.
- RingClasses.ProducerRing.GetMeta4PktBlk: the wait for an empty block is the caller's, as are the waits in the other calls; the step system has every retry, and `RingLiveness.NeverWedged` says when a wait ends.
- RingClasses.SharedRing.GetEmptyMetaBlk: the contract is for a call that no other thread interrupts; interrupted calls are runs of `RingSteps`.
- RingClasses.SharedRing.Move2NextMetaBlk: one step in `RingSteps`, since it reads one shared position and stores its own.
- PipelineTask.BasicProcess: where the decoder's fields lie in a meta is a parameter, of which `DecodedInPlace` asks that reading gives back what was stored.
- RingSizing.SizeRing: from 2^30 average packets on the signed shift overflows, which C++ leaves undefined.
- ObjectPool3.ObjectPool.GetBlock: one thread; the gap between the compare-and-swap and the store of `used` is not modelled, and neither are the waits for a free object.
- FixBufferPool.FixBufferPool.TryGetBlock: one thread, as the source holds a lock; the waiting `getBlock` and the debug counters are not modelled.
- PipelineTask.CollectTask.Collect: one pass of the waiting loop; the token pool and the scheduling of the pipeline's stages are not modelled, and `GetPacketData` is a call into other code.
- Decode.ProcessPacketBasic: the walks over tags and labels must end, since the source has no bound on them; `DecodeLaws.TagsEndIff` and `DecodeLaws.LabelsEndIff` say when they do.
- DecodeFrames.PacketDecoded: the network header has to begin within 16 bits, for the same reason as below; a packet that leads into a tunnel is the subject of `TunnelDecoded`.
- DecodeLaws.VlanTransparent: the offsets of the IP headers have to stay within 16 bits; beyond that the walk starts again at the front of the packet.
- `StrSplit_s`, `StrTrim`, `Str2Argv`, `HashString`, `ChangeUnit`, `XtoI`, the IPv4 `Addr2Str` and the address predicates: they would only add easy members.
- `CThreadPool`, sockets, NTP, IGMP, file I/O, databases, Lua, code conversion and process calls: no protocol or law of their own.
