# Verified model of the server's message path

This project models the way a message takes through the server and proves what that way
keeps: bytes from a socket, the block buffer they are collected in, the frames cut from
it, the ring queue that hands them to worker threads, and the way back out through the
send queue, the RPC header encoder and the send buffer. The Python client's packing is a
second, independent codec for the same header.

| file | what it holds |
|---|---|
| `Bytes.dfy` | bytes, integer encodings, `memcpy` |
| `Ring.dfy`, `RingSteps.dfy`, `RingRuns.dfy` | the ring queue at byte level, the records its bytes stand for, and whole runs against a plain FIFO |
| `RingFailures.dfy` | named short runs in which the queue loses or repeats a record |
| `RingReads.dfy` | the unlocked reads of `head_` inside one reservation, and of `tail_` inside one look |
| `RingProtocol.dfy` | one producer (reserve, fill, finish) and many workers (lock, look, copy, pop) interleaved |
| `RingInterleaving.dfy` | the same with the reservation taken apart: each test is a step, and workers take turns in between |
| `LateRead.dfy` | a block pointer used after the pop: exactly which pushes leave it alone |
| `LoopQueue.dfy`, `Worker.dfy` | the queue object and a worker's turn, method by method |
| `BlockPool.dfy`, `BlockChain.dfy`, `BlockBuffer.dfy`, `BufferWorld.dfy` | the size-class pool, the linked chain of blocks, the buffer object, and many buffers on one pool |
| `Overlay.dfy` | what `Copy` and `Move` leave at their destination |
| `SendPath.dfy` | partial sends, interrupts, full sockets and failures |
| `Framing.dfy`, `NetMessage.dfy` | length-prefixed frames from chunks, and the network thread |
| `RpcCodec.dfy`, `RpcHead.dfy` | the header codec in C++ and in Python, and the header object |
| `FrameFate.dfy` | frames too long for the worker, empty frames, frames over two blocks, each at a named input |
| `ServerRun.dfy` | runs of arrivals drained by the receive loop, other connections' records, and workers |
| `ServerStep.dfy` | the receive loop driving that interleaved ring, step by step |
| `EndToEnd.dfy` | calls on one side, decoded calls in the workers' hands on the other |
| `LogRoll.dfy` | the scan, the sort and the renames of the log |

Code that updates objects in place is a class whose methods change the same fields in the
same order; each method is proved equal to a function on the abstract state (`View()`,
`Contents()`), and the properties are proved of that state. The abstraction of the ring is
not a ghost list kept beside the bytes: `Represents(ring, records)` reads the header chain
out of the bytes, and `QueueIsDetermined` shows that no ring stands for two different
sequences of records.

## Where the code needs a condition

Each of these is a property the code does not have on all inputs. The model keeps the code
as it is and states exactly when the property holds.

- **Wrapping at the start of the ring.** `BufferForPush` goes back to offset 0 without
  looking at `head_`. Reserving is right if and only if the call does not wrap while
  `head_` is 0 (`ReserveRightIff`, `PushRightIff`); otherwise every queued record is
  forgotten (`PushForgets`; on a queue of 40 bytes, `SecondPushForgetsFirst`), or the region
  ends behind the buffer (`RegionPastTheEnd`).
- **A refused push after wrapping.** `FrontBlock` is right if and only if it does not jump
  to a start where nothing is committed (`FrontRightIff`); otherwise it returns a stale
  record (`StaleBlock`; on a queue of 100 bytes, `RefusedPushRepeatsRecord`). In the
  interleaved model these two guards are exactly the invariant's (`GuardsAreExact`).
- **The two error returns of `FrontBlock` marked "unlikely"** cannot happen
  (`UnlikelyErrorsUnreachable`).
- **A block pointer used after the lock is released.** The worker passes the ring pointer
  on and reads descriptor, remote address, type, length of the data and the data through
  it; these begin five bytes behind the pointer (`ShowsIff`). For a popped block that the
  producer has not entered, the next push leaves all of them alone, whatever the message,
  if and only if it is refused or its region of `22 + n` bytes lies before or behind them;
  the one exception is an empty message whose last header bytes, which are zero, fall on
  zero bytes of the descriptor (`LateReadIff`, and `LateDeliveryIff` for the state right
  after a delivery). A wrap is not needed for that, and the discard marker alone does no
  harm there. The sufficient direction holds over any run (`LateReadOverRun`); in the run
  `LateReadRun` worker 7 is handed descriptor 1 and then reads descriptor 2. Delivery is
  therefore the copy made under the lock.
- **The reservation reads `head_` without the lock, four times.** With every test a step of
  its own, `RingInterleaving.GuardsAreExact` says of each step when it is safe, and
  `CarefulRuns` that no test needs a guard if the reservation begins where an atomic one is
  safe and no worker goes back to the start before it is through. Without a jump the four
  reads are one atomic reservation (`ReadingsAgree`). With a jump in the middle, to the start
  or on from there, the outcome is right if and only if the message fits behind the tail, or
  the jump comes after the third read, or it comes before the second and the head has left
  the start and the marker fits (`JumpRightIff`). A queue of 100 bytes loses everything that
  is queued (`JumpToStartForgets`), or hands out a region behind its end
  (`JumpDuringReservation`).
- **A look reads `tail_` three times.** It finds the oldest record unless the producer goes
  back to the start between the last two reads (`LookReadingsIff`); then it finds nothing.
- **The worker's length check counts the 22-byte header**, the network thread's does not.
  A frame that was taken stops the worker if and only if `n + 22` exceeds the limit
  (`FrameMeetsWorker`); with the default limit of 81920, a frame of 81899 bytes does
  (`LongFrameStopsWorker`).
- **`Copy` and `Move` never advance the destination.** The bytes delivered are right for
  every destination if and only if they all lie in the head block (`CopiedRightIff`; after
  three calls on a real buffer, `CopyCoversHead`). Counts and what is consumed are always
  right. What the receive loop then queues is the overlay of the blocks
  (`WrittenQueuesOverlay`), which is the frame, whatever lay there before, if and only if the
  frame lies in the head block (`FrameRightIff`); two arrivals of 4096 and 904 bytes reach that, with the default
  sizes (`FrameAcrossBlocks`).
- **The search in `replaceBlock` never advances.** It does not return if and only if the
  chain has three blocks or more (`StuckIffLongChain`; `NeverReturns`).
- **`FlushSendBuffer` does not give up on a full socket.** The `break` leaves the inner loop
  only, so the function returns 0 only with an empty buffer (`FlushSendBuffer`), and the
  early insert of `sendTcpData` is never reached (`SendTcpData`).
- **The header holds 244 bytes of name.** `Decode` cuts a longer name without an error:
  round trips hold if and only if the name fits (`RoundTripIff`, `EncodeDecoded`,
  `NamesThatDoNotReturn`).
- **The Python UDP client** reads a message back if and only if it has a name and at most
  2048 bytes (`UdpRoundTripIff`).
- **A frame that declares length 0** ends in a failing assert if and only if there is room
  for a bare header, behind the tail or, after wrapping, before the head (`AbortedIff`; four zero bytes, `ZeroLengthAborts`); the parser of
  `Framing` stops there with `Abort`.
- **Log rotation** keeps every file if and only if no archive that the scan did not find
  lies behind one that it found, or at number 1 when there is a current log
  (`NothingLostIff`; `MissedArchiveIsLost`).
- **`Decode` reads behind the message** if and only if it has fewer than 12 bytes or its name
  length wraps 32 bits (`OverreadIff`; `MessagesThatOverread`).

The theorems about whole streams (`Framing`, `ServerRuns`, `ServerSteps`, `EndToEnd`) are about the
**intended** byte FIFO, in which the destination of `Copy` and `Move` is advanced: this is a
repair, not the code. The code as written is `RecvTcpMsg`, on any chain of blocks, and it
coincides with the intended step while the bytes it reads lie in the head block
(`WrittenIsTaken`); `RecvMsg` and `OnReadable` compose that.

## Model

| member | source | states |
|---|---|---|
| RingModel.HeaderReadsBack | framework/LoopQueue.h:13-23 | a packed 22-byte header written anywhere in the buffer reads back field by field: length, discard flag, descriptor, remote address, type, payload |
| RingModel.FirstReadsBack | framework/LoopQueue.cc:100-133 | where the bytes of a queue lie, the header at their start describes exactly the first record and the rest are the bytes of the other records |
| RingModel.SegmentDetermined | framework/LoopQueue.cc:62-133 | a stretch of header chain that ends at the cursor or at a wrap mark can be read as one sequence of records only |
| RingModel.QueueIsDetermined | framework/LoopQueue.cc:62-138 | the bytes and the two cursors determine the queued records, in both wrap modes |
| RingSteps.RegionWrite | framework/LoopQueue.cc:84-92 | no write between `tail_` and the end of a reserved region changes a queued record or the pending wrap mark |
| RingSteps.WrapKeeps | framework/LoopQueue.cc:66-77 | going back to the start, by marker or by skipping the gap, keeps every queued record and leaves a mark at the old tail |
| RingSteps.ReserveKeeps | framework/LoopQueue.cc:62-93 | granted or refused, a reservation keeps the queue; a granted one lies inside the buffer, clear of queued records, and starts with the caller's header |
| RingSteps.ReserveCursors | framework/LoopQueue.cc:66-92 | where the tail and the payload end up, case by case on the cursors and the 22 bytes of a header: behind the tail, at the start, or refused, and then without a wrap nothing has changed |
| RingSteps.CommitAppends | framework/LoopQueue.cc:95-98 | finishing a push appends exactly the record whose bytes were written, at the back |
| RingSteps.FrontFinds | framework/LoopQueue.cc:100-133 | a safe look returns the oldest record, moves `head_` only from a used-up end to the start, and returns false if and only if nothing is queued |
| RingSteps.PopRemoves | framework/LoopQueue.cc:135-138 | popping the length stored in the block removes exactly the oldest record |
| RingSteps.HeadBytes | framework/LoopQueue.cc:112-130 | the block handed out is the oldest record byte for byte |
| RingSteps.ReserveRightIff | framework/LoopQueue.cc:62-93 | a reservation loses nothing and stays inside the buffer if and only if it does not wrap while `head_` is 0 |
| RingSteps.FrontRightIff | framework/LoopQueue.cc:100-138 | FrontBlock and PopBlock behave as a FIFO if and only if they do not jump to a start where nothing is committed |
| RingSteps.StaleBlock | framework/LoopQueue.cc:108-130 | in the failing case nothing is queued and a block at offset 0 is returned all the same |
| RingSteps.UnlikelyErrorsUnreachable | framework/LoopQueue.cc:118-128 | neither "unlikely" error return is taken on any ring that stands for a queue |
| RingRuns.PushRefinesFifo | framework/LoopQueue.cc:46-98 | an accepted push appends the message, a refused one keeps the queue, and a refusal without wrapping changes no byte and no cursor |
| RingRuns.PushRightIff | framework/LoopQueue.cc:46-98 | a push that stays inside the buffer is right if and only if it does not wrap while `head_` is 0 |
| RingRuns.PushForgets | framework/LoopQueue.cc:66-97 | in the failing case the push is accepted and the queue is the new record alone |
| RingRuns.TakeRefinesFifo | framework/LoopQueue.cc:100-138 | a look, a copy and a pop take the oldest record out of the queue, or report that there is none |
| RingRuns.SafeWrapNeverHollow | framework/LoopQueue.cc:66-82 | when every wrapping push fits before `head_`, no wrapping push is refused and the start is never left empty below a positive `head_` |
| RingRuns.AlwaysDefined | framework/LoopQueue.cc:46-138 | on every queue a take is possible, and a push that fits behind the tail or, wrapping, before the head |
| RingRuns.RefusedIff | framework/LoopQueue.cc:66-82 | a push is refused if and only if the record does not fit before `head_`, where the tail is or after wrapping |
| RingRuns.RunRefinesFifo | framework/LoopQueue.cc:46-138 | over every run of pushes and takes that keeps that condition, through any number of wraps, all outcomes are those of a FIFO; a push is refused if and only if the tail is behind the head with no more than `22 + n` bytes between them, and never on an empty queue |
| RingFailures.SecondPushForgetsFirst | framework/LoopQueue.cc:71-77 | two one-byte messages into a queue of 40 bytes: both accepted, only the second can be taken |
| RingFailures.RegionPastTheEnd | framework/LoopQueue.cc:71-92 | one byte queued in 40, then a message of 30: granted at offset 22, so that it ends at 52 |
| RingFailures.RefusedPushRepeatsRecord | framework/LoopQueue.cc:71-116 | in a queue of 100 bytes a refused push makes a later take return a record that was already taken |
| RingProtocol.StepInBounds | framework/LoopQueue.cc:62-138 | in every state that keeps the invariant, every step of the producer or a worker touches bytes of the buffer only |
| RingProtocol.StepInv | framework/LoopQueue.cc:62-138 | with the reservation as one step: every guarded step, in any interleaving, keeps committed == delivered ++ queued |
| RingProtocol.PutWrites | framework/NetMessage.cc:310-315 | copying one byte of the payload changes the byte at its offset behind the 22-byte header, and nothing else |
| RingProtocol.GuardsAreExact | framework/LoopQueue.cc:66-133 | with the reservation as one step: a step keeps the invariant if and only if it is guarded, by the two conditions above |
| RingProtocol.DeliveredInCommitOrder | framework/NetMessage.cc:310-321 | in every state of every run each committed record has gone to one worker, in commit order, or is still in the ring |
| RingProtocol.NothingFoundMeansAllDelivered | framework/Worker.cc:48-52 | a worker finds nothing if and only if every committed record has been delivered; a reserved, unfinished one is never found |
| RingProtocol.NoInterference | framework/Worker.cc:54-59 | while a worker holds a block no producer step changes it or `head_`, and no worker step writes to the buffer |
| RingProtocol.NextDelivery | framework/Worker.cc:54-57 | the block a worker holds is the oldest committed record not yet delivered |
| RingProtocol.LateReadSeesNewHeader | framework/Worker.cc:56-63 | one case of a late read: before the new message is even filled in, a wrapping reservation has put its own header under a pointer to offset 0 |
| LateReads.ShowsIff | framework/Worker.cc:67-81 | what is read through a block pointer is the record if and only if the bytes from the fifth on are that record's |
| LateReads.LateReadIff | framework/Worker.cc:56-63 | for a popped block that the producer has not entered: every message of `n` bytes leaves what is read through the pointer alone if and only if the reservation is refused, or its region lies before or behind those bytes, or it is empty and only writes zeros over zeros |
| LateReads.LateDeliveryIff | framework/Worker.cc:54-63 | the same for the first push after a worker's pop, in every reachable state of the interleaved system |
| LateReads.StepSpares | framework/Worker.cc:59-63 | no step of the producer or of any worker changes what is read through a kept pointer, as long as reservations and markers lie beside it |
| LateReads.LateReadOverRun | framework/Worker.cc:56-63 | over any number of steps after the pop, the pointer shows the delivered record while every reservation lies beside it |
| LateReads.LateReadRun | framework/Worker.cc:56-63 | a run of five steps on a queue of 64 bytes: the worker was handed descriptor 1 and reads descriptor 2 |
| RingInterleaving.StepInv | framework/LoopQueue.cc:62-138 | with every test of the reservation a step of its own and workers taking turns in between: every guarded step stays inside the buffer and keeps committed == delivered ++ queued |
| RingInterleaving.TestsAreReserve | framework/LoopQueue.cc:62-93 | with no worker in between, the four tests leave exactly the ring of the atomic reservation, and grant exactly when it does |
| RingInterleaving.GrantedIff | framework/LoopQueue.cc:79-92 | with workers in between, the last test grants the region if and only if the tail was not behind the head at the third test, or 22 bytes and the message end before the head now; a refusal changes nothing |
| RingInterleaving.GuardsAreExact | framework/LoopQueue.cc:66-133 | each test, write, look and pop is safe and keeps that if and only if it is guarded, by the cursors as they are at that step |
| RingInterleaving.DeliveredInCommitOrder | framework/NetMessage.cc:310-321 | in every state of every such run each committed record has gone to one worker, in commit order, or is still in the ring |
| RingInterleaving.CarefulIsGuarded | framework/LoopQueue.cc:66-82 | a reservation that begins where the atomic one is safe needs no further guard, as long as no worker goes back to the start before it is through |
| RingInterleaving.CarefulRuns | framework/LoopQueue.cc:66-82 | the same over whole runs, whatever turns the workers take |
| RingReads.ReadingsAgree | framework/LoopQueue.cc:66-82 | when the consumers only move on between the four unlocked reads of `head_`, the reservation is the atomic one at the last read |
| RingReads.JumpRightIff | framework/LoopQueue.cc:66-92 | when a consumer goes back to the start, and perhaps on, between two of the reads: the outcome keeps the queue, stays inside the buffer and touches free bytes only, if and only if the message fits behind the tail, or the jump is after the third read, or before the second with the head off the start and room for the marker |
| RingReads.JumpToStartForgets | framework/LoopQueue.cc:66-92 | a queue of 100 bytes, a reservation of 20, the head going from 90 to 0: granted at the oldest record, and the queue reads as empty, although the reservation would be refused before the jump |
| RingReads.LookReadingsIff | framework/LoopQueue.cc:104-122 | with the producer moving on between the three unlocked reads of `tail_`, a look finds the oldest record if and only if the producer does not wrap between the last two |
| RingReads.JumpDuringReservation | framework/LoopQueue.cc:66-92 | a queue of 100 bytes, a reservation of 40: granted past the end, although refused before and after the jump |
| LoopQueues.LoopQueue.constructor | framework/LoopQueue.cc:10-16 | a queue without a buffer, both cursors at -1 |
| LoopQueues.LoopQueue.Init | framework/LoopQueue.cc:30-44 | fails without effect for a size that is not positive; otherwise the ring stands for the empty queue |
| LoopQueues.LoopQueue.BufferForPush | framework/LoopQueue.cc:62-93 | cursors, bytes and returned address are those of the byte-level reservation, on every branch |
| LoopQueues.LoopQueue.PushFinish | framework/LoopQueue.cc:95-98 | the byte-level commit |
| LoopQueues.LoopQueue.Push | framework/LoopQueue.cc:46-60 | the whole push, with a message or with whatever bytes lay in the reserved region |
| LoopQueues.LoopQueue.FrontBlock | framework/LoopQueue.cc:100-133 | the byte-level look, including the moves of `head_` when no block is returned |
| LoopQueues.LoopQueue.PopBlock | framework/LoopQueue.cc:135-138 | the byte-level pop |
| Workers.Worker.TakeBlock | framework/Worker.cc:46-59 | copies the oldest record byte for byte and removes it; idle if and only if none is queued; the assert fails if and only if header and payload exceed the limit, and then the queue is unchanged |
| Workers.OldestBytes | framework/Worker.cc:54-57 | the address FrontBlock returns holds the packed bytes of the oldest record |
| BlockPools.SizeClassLeast | framework/BlockBuffer.cc:335-340 | a request is rounded up to the least of 512, 1024, 2048, ... that holds it |
| BlockPools.BufferBlockMgr.RoundUp | framework/BlockBuffer.cc:337-340 | the doubling loop ends at that class |
| BlockPools.BufferBlockMgr.Alloc | framework/BlockBuffer.cc:335-355 | a clean block of the least class, the oldest free one of that class if any, owned by nobody else |
| BlockPools.BufferBlockMgr.Recycle | framework/BlockBuffer.cc:357-366 | the block is clean again and at the end of the free list of its own size; no list holds a block twice |
| BlockPools.FirstBackFirstOut | framework/BlockBuffer.cc:342-364 | of two blocks of one size, the one that was given back first is handed out first |
| BlockPools.BufferBlockMgr.AllocNew | framework/BlockBuffer.cc:378-392 | a fresh clean block with its own bytes |
| BlockChains.ReturnedToItsClass | framework/BlockBuffer.cc:143-166 | every block a buffer lets go of is in the free list of its size |
| Overlays.CopiedRightIff | framework/BlockBuffer.cc:86-170 | the bytes put at the destination are the bytes counted, whatever was there before, if and only if they all lie in the head block |
| Overlays.OverlayAppend | framework/BlockBuffer.cc:94-112 | blocks behind others are copied over what those have left, from the same place on |
| BlockBuffers.BlockBuffer.constructor | framework/BlockBuffer.cc:25-30 | an empty buffer without blocks |
| BlockBuffers.BlockBuffer.Insert | framework/BlockBuffer.cc:43-84 | the data are appended to the byte FIFO; at most one block is added behind the others, of the least class for what did not fit; the chain invariant is kept |
| BlockBuffers.BlockBuffer.Copy | framework/BlockBuffer.cc:86-115 | counts min(len, total), changes nothing in the buffer, and leaves at the destination each block copied over the one before |
| BlockBuffers.BlockBuffer.Move | framework/BlockBuffer.cc:117-170 | removes exactly min(len, total) bytes from the front, part by part; used-up blocks go to the free lists in order; a drained buffer keeps its last block, clean, if it has at most 1024 bytes, and otherwise none; destination as for Copy |
| BlockBuffers.BlockBuffer.MoveFromHead | framework/BlockBuffer.cc:126-151 | one turn of the loop: read from the head, drop it when it is used up and has a successor |
| BlockBuffers.BlockBuffer.Trim | framework/BlockBuffer.cc:154-166 | an emptied small tail is reset and an emptied large one is given back, with no byte lost |
| BlockBuffers.BlockBuffer.GetTotalLen | framework/BlockBuffer.cc:172-189 | the early-stopping walk over the chain finds the number of unread bytes, so its assert holds |
| BlockBuffers.BlockBuffer.GetBufferToWrite | framework/BlockBuffer.cc:201-214 | contents unchanged and `needlen` contiguous free bytes in the tail; one block becomes two if and only if it has no room and holds 4096 bytes or more; it fails to return if and only if the tail must be replaced and is neither the head nor its successor |
| BlockBuffers.BlockBuffer.FinishBufferWrite | framework/BlockBuffer.cc:216-224 | exactly the bytes written behind the write position are appended |
| BlockBuffers.BlockBuffer.GetBufferToRead | framework/BlockBuffer.cc:226-237 | a contiguous prefix of the contents, non-empty when there are contents; null if and only if there is no block |
| BlockBuffers.BlockBuffer.Expand | framework/BlockBuffer.cc:255-285 | keeps the byte sequence and makes room: up to 2048 bytes are moved together in place, with no block taken; fewer than 4096 are copied into a block of the least class, and the old one is free; otherwise a block of the least class is added |
| BlockBuffers.BlockBuffer.CompactTail | framework/BlockBuffer.cc:267-272 | moving the unread bytes to the start of the tail keeps the byte sequence |
| BlockBuffers.BlockBuffer.EnlargeTail | framework/BlockBuffer.cc:274-278 | a larger tail holds the same unread bytes, has the room asked for, and the old one is free |
| BlockBuffers.BlockBuffer.SealTail | framework/BlockBuffer.cc:280 | a sealed tail keeps its bytes and counts as full |
| BlockBuffers.BlockBuffer.ReplaceTail | framework/BlockBuffer.cc:287-314 | the new block takes the place and the bytes of the tail; the search does not end if and only if the tail is neither the head nor its successor |
| BlockBuffers.BlockBuffer.OtherKept | framework/BlockBuffer.cc:117-170 | after any operation on one buffer, every other buffer of the pool is valid, unchanged, and shares no block with it |
| BlockBuffers.BlockBuffer.NoneLost | framework/BlockBuffer.cc:255-314 | after any operation, every block handed out is in the chain of some buffer |
| BufferWorlds.InsertInto | framework/BlockBuffer.cc:43-84 | with any number of buffers on one pool, every block the pool knew before is still in exactly one free list or chain, and the other buffers' contents do not change |
| BufferWorlds.MoveFrom | framework/BlockBuffer.cc:117-170 | the same for Move, with no block added |
| BufferWorlds.WriteSpace | framework/BlockBuffer.cc:201-214 | the same for GetBufferToWrite, and the address returned belongs to the tail of that buffer and to no other block |
| BufferWorlds.FinishWrite | framework/BlockBuffer.cc:216-224 | the same for writing there and FinishBufferWrite, with the pool untouched |
| BufferWorlds.StuckIffLongChain | framework/BlockBuffer.cc:302-311 | when the tail has to be replaced, the search does not end if and only if the chain has three blocks or more |
| BufferWorlds.StuckIff | framework/BlockBuffer.cc:263-311 | the call does not return if and only if the chain has three blocks or more, the tail holds fewer than 4096 bytes, and not (at most 2048 and room once moved together) |
| BufferWorlds.RoomBehindReading | framework/BlockBuffer.cc:267-278 | from a full block of 4096 bytes, with 2048 left to read the block is kept, with 2049 it is replaced |
| BufferWorlds.NeverReturns | framework/BlockBuffer.cc:302-311 | three inserts of 512 bytes and a request for 600: the call does not return |
| BufferWorlds.CopyCoversHead | framework/BlockBuffer.cc:86-115 | insert 512 bytes and one, move 511, copy two: two bytes are counted and the place of the first holds the second |
| SendPath.SendStreamConserved | framework/IOEventEv.cc:358-425 | over every run of writes and write-ready callbacks and every schedule of socket answers: sent ++ pending is what was written, in order; a prefix of it after a failure; pending bytes keep the write watcher armed; a connection closes only on a broken connection or when no answer is left |
| SendPath.FlushConserves | framework/IOEventEv.cc:358-384 | one flush keeps that, however far it gets |
| SendPath.WriteConserves | framework/IOEventEv.cc:386-425 | one write keeps that, and re-establishes the armed watcher |
| SendPath.StillAtHead | framework/IOEventEv.cc:362-379 | the cached address plus the bytes sent is still where the unread bytes start, after every Move |
| SendPath.BufferEventEv.SendHead | framework/IOEventEv.cc:363-380 | the inner loop sends and removes the same bytes; it fails if and only if the last answer is a broken connection, and stops early only at a full socket |
| SendPath.BufferEventEv.FlushSendBuffer | framework/IOEventEv.cc:358-384 | its assert holds, a prefix of the pending bytes goes out, it returns 0 only with nothing pending, and fails if and only if the last answer is a broken connection |
| SendPath.BufferEventEv.SendDirect | framework/IOEventEv.cc:402-418 | what has gone out is the first `sendbytes` bytes of the data; less than all without an error if and only if the last answer is a full socket; it fails if and only if that is a broken connection |
| SendPath.BufferEventEv.SendNew | framework/IOEventEv.cc:402-422 | with nothing pending, a prefix of the data goes out and exactly the rest is kept, with the watcher armed, if and only if the last answer is a full socket |
| SendPath.BufferEventEv.SendTcpData | framework/IOEventEv.cc:386-425 | pending bytes first, then the data; the rest is kept with the watcher armed, and the watcher is stopped when nothing is left; it fails if and only if the last answer is a broken connection |
| Framing.ParseAppend | framework/NetMessage.cc:281-325 | bytes that arrive later continue the parse of what was left over |
| Framing.FeedIsParse | framework/NetMessage.cc:244-258 | about the reference parser: parsing chunk by chunk gives the frames and the remainder of the one-shot parse |
| Framing.ParseRestIsStuck | framework/NetMessage.cc:297-324 | the parse stops only at an incomplete, over-long or empty frame, and loses no byte |
| Framing.ChunksDoNotMatter | framework/IOEventEv.cc:285-310 | about the reference parser: two splits of one stream give the same frames and the same remainder |
| Framing.CutsArePrefix | framework/NetMessage.cc:244-258 | frames cut one by one are the first frames of the one-shot parse |
| Framing.ParseCuts | framework/NetMessage.cc:244-258 | cutting frame by frame without a refusal gets exactly the frames and the remainder of the one-shot parse |
| Framing.NothingLostUnderBackpressure | framework/NetMessage.cc:297-324 | over any mix of accepted and refused frames: received bytes are the delivered frames followed by the buffered bytes, and those parse to the missing frames (intended byte FIFO) |
| NetMessages.TakeOneRefines | framework/NetMessage.cc:281-325 | one call moves exactly one complete frame from the buffered bytes to the back of the queue, or changes neither |
| NetMessages.RepliesIff | framework/NetMessage.cc:287-324 | which value is returned, on the buffered bytes and the length they declare: 0 for an incomplete frame, -1 for fewer than four bytes, an over-long frame or a full queue, the length for a frame taken |
| NetMessages.TakeAllRefines | framework/NetMessage.cc:244-258 | the loop appends exactly the frames it cuts off, in order, keeps the rest, and ends only where no frame can be cut or the queue has no room for the next one |
| NetMessages.TakeAllIsParse | framework/NetMessage.cc:244-258 | unless the queue had no room for a frame, the loop takes exactly the frames of the one-shot parser and leaves its remainder; otherwise the frames still to come are those of the bytes left |
| NetMessages.RoomMeansParse | framework/NetMessage.cc:244-258 | a condition beforehand: with room behind `tail_` for all that is buffered no push wraps or is refused, and the loop is the parser |
| NetMessages.SafeWithRoom | framework/NetMessage.cc:310-316 | no push of the loop wraps at the start once `head_` has moved on, or while there is room behind `tail_` for all that is buffered |
| NetMessages.RecvTcpMsg | framework/NetMessage.cc:281-325 | the code as written, on any chain of blocks: the length and the payload are what the overlapping copies leave, the count and the bytes consumed are right |
| NetMessages.WrittenIsTaken | framework/NetMessage.cc:287-316 | while the bytes it reads lie in the head block, that is the intended step, whatever lay in the copied-to bytes before |
| NetMessages.WrittenQueuesOverlay | framework/NetMessage.cc:310-316 | otherwise the queue gets a record of the right length whose payload is each block copied over the one before |
| NetMessages.FrameRightIff | framework/NetMessage.cc:310-316 | with the length bytes in the head block, the queued payload is the frame, whatever lay in the reserved region, if and only if the frame lies in the head block |
| NetMessages.RecvMsg | framework/NetMessage.cc:244-258 | the loop as written ends and equals the drain, on any chain in which every frame it takes lies in what is then the head block |
| NetMessages.RecvTcpData | framework/IOEventEv.cc:285-317 | exactly the received bytes are appended; which way it ends is decided by the socket's answers; a buffer of at most one block always lets it return, and stays one block if and only if no attempted size closes the tail |
| NetMessages.ReportedIs | framework/IOEventEv.cc:287-316 | by the first outcome that is not an interruption: the peer is gone if and only if ioctl failed or recv returned 0; the callback is made with the received bytes, or without any after another error; and for which sizes room was asked |
| NetMessages.OnReadable | framework/IOEventEv.cc:285-310 | the read callback as written, from one block that stays one: the queue gets exactly the frames cut, all of the one-shot parser's unless the queue has no room for the next one, and the rest stays buffered |
| NetMessages.OnSendMsgEvent | framework/NetMessage.cc:268-279 | every server or client message in the send queue is sent once, in order, and the queue is empty afterwards |
| NetMessages.OutgoingAt | framework/NetMessage.cc:273-278 | every record of type 5 or 6, and no other, is sent, at the place that the number of messages before it gives, with its descriptor, remote address and payload |
| FrameFates.FrameMeetsWorker | framework/Worker.cc:54-57 | a frame taken by the network thread, once the worker gets to it, stops the worker if and only if frame and 22 bytes of header exceed the common limit; otherwise the worker holds its packed record |
| FrameFates.LongFrameStopsWorker | framework/NetMessage.cc:292-296 | with the default limit and queue: a frame of 81899 bytes is taken and stops the worker |
| FrameFates.AbortedIff | framework/NetMessage.cc:310-315 | the assert on an empty read fails if and only if four bytes are buffered, they declare length 0, and a bare header fits before the head, where the tail is or after wrapping |
| FrameFates.ZeroLengthAborts | framework/NetMessage.cc:310-315 | four zero bytes on an empty queue of 40 bytes do that |
| FrameFates.FrameAcrossBlocks | framework/NetMessage.cc:310-316 | arrivals of 4096 and 904 bytes make up one frame of 5000: the code takes it, and the queued payload begins with the second arrival |
| FrameFates.FrameInOneBlock | framework/NetMessage.cc:310-316 | arrivals of 3000 and 2000 bytes make up one frame of 5000: the queued payload is the frame |
| ServerRuns.DeliveredIsParsed | framework/NetMessage.cc:244-258 | over every run of arrivals drained by the receive loop, pushes of other connections and workers' takes within their limit: a connection's delivered records are the first frames of the one-shot parse, and all of them with exactly its remainder buffered once the server has caught up |
| ServerRuns.DeliveryIndependent | framework/NetMessage.cc:244-258 | two such runs that received the same bytes and caught up delivered the same, whatever the chunks, the refusals on the way, the queue sizes and the other connections |
| ServerRuns.OneFrameArrives | framework/NetMessage.cc:244-258 | such runs exist: a frame that fits the queue and the worker arrives and is handed over |
| ServerSteps.HandedOverIsParsed | framework/NetMessage.cc:281-325 | the same with every test, copied byte, commit, look and pop a step of its own, in any interleaving; nothing longer than the worker's limit is handed over |
| ServerSteps.FrameGetsThrough | framework/NetMessage.cc:281-325 | from any state with an empty queue, a frame with room, short enough for the worker, gets through by the steps of the receive loop and one worker |
| RpcCodec.PackFields | sample/client_py/client.py:41-44 | the packed bytes hold total length, return code, name length, name and data, at the offsets both sides read |
| RpcCodec.AcceptedIff | framework/IRpc.cc:26-52 | a message is accepted if and only if its length field is true and its header does not run past it; then code, name (at most 244 bytes), payload place and length are these |
| RpcCodec.DecodePack | framework/IRpc.cc:26-52 | decoding a packed message gives return code and payload back, and the first 244 bytes of the name |
| RpcCodec.RoundTripIff | framework/IRpc.cc:26-72 | the triple comes back whole if and only if the name has at most 244 bytes |
| RpcCodec.EncodeDecoded | framework/IRpc.cc:26-72 | packing an accepted message again gives the same bytes if and only if its declared name length is at most 244 |
| RpcCodec.OverreadIff | framework/IRpc.cc:26-43 | which messages fall outside the decoder's assumptions: fewer than 12 bytes, or a declared name length that wraps 32 bits |
| RpcCodec.MessagesThatOverread | framework/IRpc.cc:26-43 | a message of four bytes, and one of twelve that declares a name of 2^32-1 bytes |
| RpcCodec.UdpRoundTripIff | sample/client_py/client.py:113-131 | the client reads a packed message back if and only if it has a name and at most 2048 bytes |
| RpcCodec.UdpRecvIs | sample/client_py/client.py:119-131 | what the client makes of any datagram of at most 2048 bytes, field by field, and when it raises an exception |
| RpcCodec.NamesThatDoNotReturn | framework/IRpc.cc:32-42 | a name of 245 bytes comes back as 244; an unnamed message raises an exception in the client |
| RpcHeads.RpcHead.Encode | framework/IRpc.cc:54-72 | the header ends where the payload begins; header and payload together are the packed message; nothing else changes; a name over 244 bytes is refused and the buffer kept |
| RpcHeads.RpcHead.Decode | framework/IRpc.cc:26-52 | fields and return code are those of the decoder function; a rejected message has changed `Len` and `Ret` only |
| RpcHeads.IRpc.GetDataBuff | framework/IRpc.cc:117-125 | room at offset 256 if and only if the payload fits behind the header space |
| RpcHeads.IRpc.SendRespond | framework/IRpc.cc:90-102 | what goes to SendMsg is the packed message, or nothing for a name that is too long |
| EndToEnd.PackIsOneFrame | framework/NetMessage.cc:292-299 | the header's length field is the frame length: a packed call is cut off whole, whatever follows |
| EndToEnd.EncodableIff | framework/IRpc.cc:26-72 | a call is cut as one frame and decoded whole if and only if its name has at most 244 bytes and the message is within the limit |
| EndToEnd.ParseWire | framework/NetMessage.cc:244-258 | a stream of packed calls parses to exactly those calls with nothing left |
| EndToEnd.CallsParseIntact | framework/IRpc.cc:26-72 | for every list of encodable calls and every split, the reference parser's frames decode to exactly that list |
| EndToEnd.CallsArriveIntact | framework/IRpc.cc:26-72 | in every state of every run of the receiving side, workers have been handed records that decode to the first calls, each once and in order, all short enough for the worker; all calls when the stream has arrived and the server has caught up |
| EndToEnd.CallsHandedOver | framework/IRpc.cc:26-72 | the same over every step-by-step interleaving of receive loop and workers |
| EndToEnd.LongCallStops | framework/Worker.cc:54-57 | no call from the first one on that the network thread takes but the worker cannot is ever handed over |
| EndToEnd.CopyReadsBack | framework/Worker.cc:54-57 | the bytes a worker copies under the lock read back as the record |
| EndToEnd.DeliveredAreFirstCalls | framework/NetMessage.cc:297-324 | under backpressure the calls delivered so far are the first ones, and the buffered bytes parse to the others |
| EndToEnd.SentCallsParseInOrder | framework/IOEventEv.cc:358-425 | at any moment of any run of the sender, open or failed, what parses from the sent bytes are the first calls |
| EndToEnd.SentCallsReachWorkers | framework/IOEventEv.cc:358-425 | sender and receiving side together: at any moment of any run of the sender and any interleaving on the receiving side, workers have been handed the first calls, and all of them when all has arrived and nothing is queued or waiting |
| LogRoll.Log.FileRoll | common/Log.cc:149-179 | an unreadable directory leaves the files alone; otherwise the scanned numbers, whatever their order and repetitions, lead to the closed form, and the current log is archive 1 |
| LogRoll.RollOne | common/Log.cc:169-174 | one rename of a number no higher than any before, a duplicate or a missing one included, is one step of the closed form |
| LogRoll.NothingOverwritten | common/Log.cc:152-179 | when every live archive was found, archive i becomes i+1, number 1 is free, and no archive is overwritten |
| LogRoll.UnfoundArchive | common/Log.cc:168-174 | an archive that was not found keeps its number, and is overwritten exactly when its predecessor exists and was found |
| LogRoll.NothingLostIff | common/Log.cc:152-179 | every file survives the whole rotation if and only if no unfound archive lies behind a found one or at number 1 below a current log; the current log always survives |
| LogRoll.ListedMeansKept | common/Log.cc:152-179 | when the directory lists every archive, each one, from number 1 on, moves up by one and none is lost |
| LogRoll.MissedArchiveIsLost | common/Log.cc:152-179 | archive 1 not found, archive 2 found, and a current log: archive 1 is gone and archive 2 is not |

## Left out

- RingProtocol.StepInv: a reservation is one atomic step; taken apart it is `RingInterleaving.StepInv`. In both a push finishes with the length it reserved, as its callers do.
- RingProtocol.GuardsAreExact: exact for an atomic reservation; taken apart it is `RingInterleaving.GuardsAreExact`.
- RingInterleaving.StepInv: each test, each copied byte and each look is one step; the reads of `tail_` inside a look are `RingReads.LookReadingsIff`, and the order in which a processor makes writes visible is not modelled.
- RingProtocol.LateReadSeesNewHeader: one sufficient case; the exact condition is `LateReads.LateReadIff`.
- LoopQueues.LoopQueue.Init: accepts any positive size as the code does, but the queue operations are modelled for buffers of 22 bytes up to the range of `int`; header fields are stored little-endian, and message lengths are not negative.
- LoopQueues.LoopQueue.Push: is modelled for messages that stay inside the buffer, because a longer one on a wrapping push at `head_` 0 writes past the end.
- Workers.Worker.TakeBlock: one turn, without the timed wait (looking again after it is another turn) and without the handling of the message.
- BlockBuffers.BlockBuffer.GetBufferToWrite: a null address stands for a call that does not return; the block allocated for it stays handed out.
- Framing.FeedIsParse: is about the parser alone; `TakeAllIsParse` ties the receive loop to it.
- Framing.ChunksDoNotMatter: is about the parser alone; over the receive loop it is `ServerRuns.DeliveryIndependent`.
- ServerRuns.DeliveredIsParsed: is about the intended byte FIFO, with the destination of Copy and Move advanced, and a drain is one event; step by step it is `ServerSteps.HandedOverIsParsed`.
- ServerRuns.DeliveryIndependent: the same.
- ServerSteps.HandedOverIsParsed: is about the intended byte FIFO; the bytes of a frame are copied in any order, and the read buffer is shortened when the push finishes.
- Framing.NothingLostUnderBackpressure: is about the intended byte FIFO, for the same reason.
- NetMessages.RecvMsg: requires that every frame it takes lies in the head block; one that does not is queued as the overlay (`WrittenQueuesOverlay`).
- NetMessages.OnReadable: requires a buffer of at most one block that stays one, and pushes that do not wrap while `head_` is 0; a second block is right as long as no frame spans the two (`RecvMsg`).
- SendPath.BufferEventEv.FlushSendBuffer: the socket answers from an arbitrary finite script; when it ends the observation ends (`Blocked`), which stands for a call that still spins.
- RpcHeads.RpcHead.Decode: requires a message the decoder can read without leaving it; `OverreadIff` says which those are.
- LogRoll.Log.FileRoll: takes the numbers as parsed from the names, and assumes that a rename fails only when its source does not exist.
- EndToEnd.CallsParseIntact: is about the parser alone; over the receiving side it is `CallsArriveIntact`.
- EndToEnd.SentCallsParseInOrder: is about the parser alone; over the receiving side it is `SentCallsReachWorkers`.
- UDP sending and receiving, sockets, accept and connect, libev watchers other than the armed flag of the write watcher, `Enable` and `Disable`.
- Closing a connection from inside a callback: a fatal error ends the run of that connection.
- Mutex and condition internals, the single-thread server mode, signals and daemonizing.
- `SendRequest`, service and request registration, `SvrConnector`, timers, `IniConfig` and log formatting: they would add only easy members.
- `GetLeftLen`, `PrintStatus`, destructors and malloc failure; sizes are unbounded naturals, so `int` overflow of counters is not modelled.
- Short reads of the Python TCP client's `recv`.
