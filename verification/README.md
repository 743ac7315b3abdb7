# VPP: shared-memory fifos, packet buffers, dispatch, and address text

A Dafny model of the parts of VPP that keep the most state, with proofs of what they keep.
`dafny verify dfyconfig.toml` checks all of it.

- **The byte fifo** (`svm_fifo.c`, `svm_fifo.h`): a ring in shared memory that also takes bytes ahead of
  its tail, kept as segments in a doubly linked list in a pool. `FifoSpec` says what each function computes,
  branch by branch and with its 32-bit arithmetic; the class in `SvmFifo` does it in place and is proved to
  compute just that. `FifoAddExact`, `FifoCollectExact`, `FifoStream` and `FifoSession` say exactly when
  those results are the right ones; `FifoConcurrent` interleaves one producer and one consumer, `FifoCalls`
  says what each call does then, and `FifoSolo` that its steps add up to it.
- **Packet buffers** (`buffer.c`, `buffer_funcs.h`): one free list, chains of buffers, tails shared under
  reference counts, and a cached chain length. `BufferSpec` says what each function computes; the `Buffer*`
  modules prove each call keeps the ownership invariant, with the exact condition where it does not always;
  `BufferRuns` shows that any run looks, packet by packet, as if nothing were shared; `BufferRefill` and
  `BufferCounts` say how many buffers and packets come back; the class in `BufferPool` works in place.
- **Speculative enqueue** (`buffer_node.h`): `Dispatch`.
- **The recursive spin lock** (`ssvm.h`): `SsvmLock`, `SsvmTag`.
- **IPv6 text** (`api_format.c`, `json_format.c`, `plugin_api.c`): `Ip6Spec`, `Ip6Exact`, `Ip6Runs`, `Ip6Text`.
  The two printers are the same code, and so are the two parsers.
- **Classifier masks** (`api_format.c`): `ClassifyMask`.
- **The page allocator** (`svm.c`): `SvmPages`, `SvmClients`, `SvmRegion`.

## Where the code does not do what it says

The model follows the code. Where a result is not what comments or callers expect, a theorem gives the exact
condition under which it is, and a lemma a call for which it is not:

- Adding a segment (`AddExact`): a repeat of part of an earlier segment while a later one exists
  (`RepeatOverlaps`), a range that fills the gap before a segment (`GapFrontLost`), a range that ends inside a
  later segment (`CutLaterTooLong`), a segment that ends a whole ring past the tail (`FullLapMisplaced`).
- An enqueue at an offset whose 32-bit end wraps is not refused (`RefusedExact`, `FarAheadTaken`).
- In-order data that runs past the start of a stored segment (`EnqueueExact`): bytes not counted
  (`OverrunNotCounted`), or a stale segment (`OverrunStale`).
- Peeking at an offset (`PeekExact`, `PeekTooFar`).
- Allocation when memory runs out in the middle of a refill (`AllocExact`, `AllocRunsShort`).
- Cloning when only the source's first buffer is unshared (`CloneExact`, `CloneLosesCount`); attaching to a
  shared head (`AttachExact`, `AttachChangesOther`); appending to a shared buffer (`PutExact`,
  `PutChangesOther`; `ChainExact`, `ChainChangesOther`; `AppendExact`, `AppendChangesOther`).
- Printing an IPv6 address with three runs of zeros or more (`RoundTrip`, `RoundTripByRuns`, `ThreeRunsLost`).
- Creating a region when the last page of the range found is taken or past the end (`CreateExact`,
  `LastPageTaken`, `PastEnd`).
- Nesting the recursive lock more than 2^32 deep: two processes can then both have it (`LimitExact`).

## Model

| member | source | states |
|---|---|---|
| FifoAddExact.AddExact | vpp/src/svm/svm_fifo.c:102-246 | adding an out-of-order range keeps the list sorted by distance from the tail, disjoint and merged, with the bytes covered being the old ones and exactly the new range, if and only if a condition on the call, readable beforehand, holds |
| FifoAddExact.NewestHolds | vpp/src/svm/svm_fifo.c:245 | the segment recorded as newest contains the whole new range |
| FifoCollectExact.CollectExact | vpp/src/svm/svm_fifo.c:252-295 | after an in-order enqueue, collecting moves the tail over exactly the new bytes and the stored bytes that follow them without a gap, reports just those, and leaves the rest stored, if and only if the data does not end inside a stored segment or swallow all of them |
| FifoStream.EnqueueExact | vpp/src/svm/svm_fifo.c:301-356 | an in-order enqueue makes exactly the bytes up to the first missing one readable and counts them, under that condition and no other |
| FifoStream.AheadExact | vpp/src/svm/svm_fifo.c:371-418 | an enqueue at an offset adds exactly its bytes to those arrived and makes none readable, if and only if the segment condition holds |
| FifoStream.RefusedExact | vpp/src/svm/svm_fifo.c:371-390 | a range that does not fit is refused if and only if the 32-bit sum of offset and length does not fit either; below 2^32 it always is, and nothing changes |
| FifoStream.EnqueueHolds | vpp/src/svm/svm_fifo.c:301-356 | a fifo whose arrived bytes are those of one stream still is one after the next slice is enqueued |
| FifoStream.AheadHolds | vpp/src/svm/svm_fifo.c:371-418 | the same after a slice enqueued at an offset |
| FifoStream.DequeueHolds | vpp/src/svm/svm_fifo.c:432-481 | a dequeue hands out the stream's next bytes, as many as are asked for and there, and the fifo still holds the stream |
| FifoSession.StepFaithful | vpp/src/svm/svm_fifo.c:301-541 | each allowed call, of either end, keeps the fifo and all bytes handed out true to one stream |
| FifoSession.StepComplete | vpp/src/svm/svm_fifo.c:301-541 | each allowed call keeps exactly the bytes accepted so far handed out or in the fifo: none is lost and none appears |
| FifoSession.Reassembly | vpp/src/svm/svm_fifo.c:252-418 | over any run of allowed calls from an empty fifo, every byte handed out is the stream's for its place, the readable bytes are the next contiguous slice, every byte accepted has been handed out or is in the fifo, and the slice ends at the first byte not accepted yet: nothing contiguous is withheld |
| FifoSession.FillGap | vpp/src/svm/svm_fifo.c:252-295 | data that fills the gap before the first stored segment exposes that whole segment, counts its bytes and removes it |
| FifoSession.RepeatOverlaps | vpp/src/svm/svm_fifo.c:130-155 | repeating three bytes of an earlier segment leaves two segments that overlap |
| FifoSession.GapFrontLost | vpp/src/svm/svm_fifo.c:188-200 | a range from the gap into a segment has its first bytes in no segment |
| FifoSession.CutLaterTooLong | vpp/src/svm/svm_fifo.c:225-230 | a range that ends inside a later segment makes one that is too long |
| FifoSession.FullLapMisplaced | vpp/src/svm/svm_fifo.h:143-147 | a segment that ends a whole ring past the tail has end offset 0 and misleads the next call |
| FifoSession.FarAheadTaken | vpp/src/svm/svm_fifo.c:382-388 | two bytes at offset 2^32 - 1 are not refused by an empty ring of 100 bytes |
| FifoSession.OverrunNotCounted | vpp/src/svm/svm_fifo.c:260-278 | data that ends inside a stored segment moves the tail over bytes it does not count |
| FifoSession.OverrunStale | vpp/src/svm/svm_fifo.c:265-283 | data that covers every stored segment leaves the last one on the list |
| FifoSession.PeekExact | vpp/src/svm/svm_fifo.c:490-524 | peek at any 32-bit offset reads the bytes there if and only if the offset is 0, nothing is asked for, or the range is all there and does not wrap |
| FifoSession.PeekTooFar | vpp/src/svm/svm_fifo.c:498-512 | with four bytes unread, peeking at four bytes from offset 2 returns two that are not there |
| FifoSession.PeekCounts | vpp/src/svm/svm_fifo.c:490-524 | peek returns -2 when nothing is unread, and otherwise as many bytes as are unread or asked for, whichever is less, which is what it copies |
| FifoSession.DequeueCounts | vpp/src/svm/svm_fifo.c:432-564 | a dequeue returns -2 and changes nothing when nothing is unread, and otherwise takes, and returns, what is unread or asked for, whichever is less |
| FifoSession.EnqueueCounts | vpp/src/svm/svm_fifo.c:301-356 | an in-order enqueue returns -2 and changes nothing when the ring is full, and otherwise by how much cursize grows: what fits, exactly when no segment is stored, and more only with one |
| FifoSession.AheadCounts | vpp/src/svm/svm_fifo.c:371-418 | an enqueue at an offset returns 0 when its range fits, changes nothing when it returns -1, and moves neither head, tail nor cursize |
| FifoConcurrent.NextKeeps | vpp/src/svm/svm_fifo.c:301-481 | each step of producer or consumer, in any order, keeps what both rely on |
| FifoConcurrent.Safety | vpp/src/svm/svm_fifo.c:301-481 | in every interleaving the bytes handed out are the stream's first, with the unread ones as many as finished enqueues have counted; cursize never exceeds the ring, no write in flight meets an unread byte and no read in flight leaves the unread ones |
| FifoConcurrent.ProducerFree | vpp/src/svm/svm_fifo.c:301-418 | under the invariant, the differences, ring slots and array indices of the producer's next step are in bounds |
| FifoConcurrent.ConsumerFree | vpp/src/svm/svm_fifo.c:432-481 | under the invariant, the differences, ring slots and array indices of the consumer's next step are in bounds |
| FifoCalls.DequeueTakes | vpp/src/svm/svm_fifo.c:432-481 | a dequeue that has finished, whatever the producer did between its steps, hands out nothing if cursize was 0 at its test, and otherwise exactly the next bytes of the stream, cursize at its read of them or those asked for if fewer |
| FifoCalls.EnqueueAdds | vpp/src/svm/svm_fifo.c:301-356 | an in-order enqueue that has finished, whatever the consumer did between its steps, counts nothing if the ring was full at its test, and otherwise what fits by its read of cursize together with exactly the stored bytes that follow without a gap, none if no segment was stored |
| FifoCalls.AheadStores | vpp/src/svm/svm_fifo.c:371-418 | an enqueue at an offset that has finished, whatever the consumer did between its steps, counts nothing; it stores nothing if the range did not fit at its read of cursize, and otherwise exactly its range is added to what is stored |
| FifoSolo.EnqueueAlone | vpp/src/svm/svm_fifo.c:301-356 | the single steps of an in-order enqueue, with none of the consumer's between them, leave ring, tail, list, cursize and count as the call as a whole computes them |
| FifoSolo.AheadAlone | vpp/src/svm/svm_fifo.c:371-418 | the same for an enqueue at an offset |
| FifoSolo.DequeueAlone | vpp/src/svm/svm_fifo.c:432-481 | the same for a dequeue, its bytes included |
| FifoSolo.ProducerEnds | vpp/src/svm/svm_fifo.c:301-418 | each step of a producer's call lowers a bound on the steps it has left, whatever the consumer does: the call ends by itself |
| FifoSolo.ConsumerEnds | vpp/src/svm/svm_fifo.c:432-481 | the same for a dequeue |
| OooList.Deleted | vpp/src/svm/svm_fifo.c:73-97 | unlinking an element leaves a doubly linked list of the others, in their order |
| OooList.AddedBefore | vpp/src/svm/svm_fifo.c:130-155 | linking a new element before another leaves a doubly linked list with the segment in that place |
| OooList.AddedAfter | vpp/src/svm/svm_fifo.c:157-183 | the same after another |
| SvmFifoMemory.SvmFifo.constructor | vpp/src/svm/svm_fifo.c:19-56 | a new fifo is empty, with no segment |
| SvmFifoMemory.SvmFifo.OooSegmentDel | vpp/src/svm/svm_fifo.c:73-97 | in place, removes exactly one segment and gives its pool element back |
| SvmFifoMemory.SvmFifo.OooSegmentAdd | vpp/src/svm/svm_fifo.c:102-246 | in place, turns the linked list into the segments the addition computes, still well linked in the pool |
| SvmFifoMemory.SvmFifo.OooSegmentTryCollect | vpp/src/svm/svm_fifo.c:252-295 | in place, computes the collection on the linked list, the tail and the count |
| SvmFifoMemory.SvmFifo.EnqueueInternal | vpp/src/svm/svm_fifo.c:301-356 | in place, computes the in-order enqueue on ring, counters and list, and its result |
| SvmFifoMemory.SvmFifo.EnqueueWithOffset | vpp/src/svm/svm_fifo.c:371-418 | in place, computes the enqueue at any positive offset: the segment and the bytes, -1 with nothing changed, or a copy longer than the ring |
| SvmFifoMemory.SvmFifo.DequeueInternal | vpp/src/svm/svm_fifo.c:432-481 | in place, computes the dequeue and the bytes it copies out |
| SvmFifoMemory.SvmFifo.Peek | vpp/src/svm/svm_fifo.c:490-524 | computes the peek, with the wrapped 32-bit sums of its indices, and changes nothing |
| SvmFifoMemory.SvmFifo.DequeueDrop | vpp/src/svm/svm_fifo.c:526-564 | in place, drops what a dequeue would hand out |
| BufferFree.ChainUnique | vpp/src/vlib/buffer_funcs.h:131-148 | a chain is determined by its first buffer |
| BufferFree.ChainNoRepeats | vpp/src/vlib/buffer_funcs.h:131-148 | a chain whose links end is acyclic |
| BufferFree.FreeKeeps | vpp/src/vlib/buffer.c:648-730 | freeing a packet keeps every other packet, every count right, and puts the buffers nobody else uses on the free list once each |
| BufferCounts.FreedInOrder | vpp/src/vlib/buffer.c:695-717 | the buffers of a packet that nobody else uses go on the end of the free list, in the packet's order |
| BufferAlloc.FillKeeps | vpp/src/vlib/buffer.c:506-574 | refilling keeps the invariant and every buffer, adds what it reports to the free list and to n_alloc, and ends |
| BufferRefill.RefillExact | vpp/src/vlib/buffer.c:506-574 | a refill adds the larger of the minimum for each refill and the least multiple of 16 that is enough, or what physmem's good answers make up if that is less; the new buffers go on the end of the free list in the order of the answers, and n_alloc grows by their number |
| BufferRefill.RefillOfOne | vpp/src/vlib/buffer.c:517-525 | one buffer wanted, none free, with a minimum of 256 and enough to come: 256 are added |
| BufferRefill.RefillZeroes | vpp/src/vlib/buffer.c:556-567 | a new buffer has zeroed memory, no data and no flag set; those there before do not change |
| BufferAlloc.AllocKeeps | vpp/src/vlib/buffer.c:576-609 | allocation hands out none or exactly the number asked for, distinct, unused and as the template leaves them, and keeps the invariant with each a live packet |
| BufferAlloc.AllocExact | vpp/src/vlib/buffer.c:539-597 | the ASSERT of allocation fails if and only if the free list is too short and physmem, by the answers it is going to give, supplies at least one good chunk but stops before the chunks make up what is missing |
| BufferAlloc.AllocSingle | vpp/src/vlib/buffer.c:539-609 | one buffer asked for is handed out unless the free list is empty and physmem's next answer is no good; the ASSERT never fails then |
| BufferAlloc.AllocRunsShort | vpp/src/vlib/buffer.c:539-597 | 40 buffers asked for with memory for one chunk of 16: the ASSERT fails |
| BufferCounts.AllocFree | vpp/src/vlib/buffer.c:576-609 | with enough buffers free, the number asked for comes from the end of the free list, and physmem is not asked |
| BufferCounts.AllocRefilled | vpp/src/vlib/buffer.c:576-609 | with too few free, the buffers physmem supplies go on the list first; the number asked for then comes from its end, or none if it supplied nothing |
| BufferCounts.AllocEmpty | vpp/src/vlib/buffer.c:589-592 | a call comes back empty-handed if and only if too few buffers are free and physmem's next answer is no good |
| BufferCounts.AllocClean | vpp/src/vlib/buffer.c:576-609 | every buffer handed out starts at the front of its data area, empty, with no flag set and no added reference |
| BufferCopy.CopiedBytes | vpp/src/vlib/buffer_funcs.h:474-528 | the copy has the source's bytes, with the same boundaries between its buffers |
| BufferCopy.CopyKeeps | vpp/src/vlib/buffer_funcs.h:474-528 | the copy is a packet of its own, of fresh buffers; every other packet and count stays right |
| BufferCounts.CopyAgrees | vpp/src/vlib/buffer_funcs.h:499-526 | buffer by buffer the copy has the source's offsets, lengths and flags, and the same cached length |
| BufferCounts.CopyMadeExact | vpp/src/vlib/buffer_funcs.h:474-497 | one copy comes back if and only if its buffers are free or physmem's next answer is good, unless the ASSERT of allocation fails |
| BufferCounts.CopiesCounted | vpp/src/vlib/buffer_funcs.h:555-564 | all copies asked for are made if the free list holds their buffers; if fewer are, the next one found too few free and physmem's answer bad |
| BufferCounts.CopiesUntilDry | vpp/src/vlib/buffer_funcs.h:555-564 | with so many full chunks to come and then nothing, exactly as many copies are made as free buffers and those chunks are enough for |
| BufferClone.CloneBytes | vpp/src/vlib/buffer_funcs.h:566-597 | each clone over a shared tail has the original's bytes |
| BufferClone.CloneExact | vpp/src/vlib/buffer_funcs.h:566-597 | cloning over a shared tail keeps the ownership invariant, with the clones in place of the source, if and only if no buffer of the source's chain is shared |
| BufferCounts.CloneCopiesCounted | vpp/src/vlib/buffer_funcs.h:553-565 | a packet with no more than 128 bytes behind its header is copied: the source comes back first, with all the clones asked for if the free list holds the buffers of the others, and with fewer only if some copy found too few free and physmem's answer bad |
| BufferCounts.CloneSharesCounted | vpp/src/vlib/buffer_funcs.h:567-600 | any other packet is shared: all clones come back if there are buffers for their heads, free or in physmem's next answer, and the source alone otherwise; each is one buffer with exactly the header's bytes in front of the source's chain, and the source begins behind them |
| BufferAttach.AttachBytes | vpp/src/vlib/buffer_funcs.h:609-632 | the head's packet has its own bytes followed by the tail's |
| BufferAttach.AttachExact | vpp/src/vlib/buffer_funcs.h:609-632 | attaching keeps the ownership invariant if and only if the head is unshared and no count of the tail is at its 8-bit limit |
| BufferCounts.AttachCaches | vpp/src/vlib/buffer_funcs.h:617-623 | the head takes the tail's word on the cached length, and counts the tail's bytes |
| BufferExamples.CloneLosesCount | vpp/src/vlib/buffer_funcs.h:592-597 | cloning a packet whose tail another packet uses loses that packet's count |
| BufferExamples.AttachChangesOther | vpp/src/vlib/buffer_funcs.h:617-623 | attaching behind a buffer another packet ends in breaks that packet |
| BufferExamples.PutChangesOther | vpp/src/vlib/buffer_funcs.h:674-690 | a byte put behind a buffer that another packet ends in is put behind that packet too |
| BufferExamples.ChainChangesOther | vpp/src/vlib/buffer_funcs.h:645-657 | a buffer chained behind one that another packet ends in is chained behind that packet too |
| BufferExamples.AppendChangesOther | vpp/src/vlib/buffer.c:912-945 | appending to a packet whose last buffer another packet ends in changes that packet |
| BufferAppend.LengthExact | vpp/src/vlib/buffer_funcs.h:99-109 | whatever the flags, the chain length reported is the number of bytes in the packet |
| BufferAppend.MeasuredKeeps | vpp/src/vlib/buffer.c:49-64 | the slow path leaves every packet's bytes and the invariant, and a cached length that is right |
| BufferAppend.PutExact | vpp/src/vlib/buffer_funcs.h:674-690 | appending within the last buffer adds exactly those bytes to that packet and none to others, if and only if the last buffer is unshared |
| BufferCounts.RoomExact | vpp/src/vlib/buffer_funcs.h:674-690 | the 16-bit room of a buffer is the number of bytes from the end of its data to the end of its memory |
| BufferAppend.InitKeeps | vpp/src/vlib/buffer_funcs.h:635-642 | initialising an unshared single buffer gives an empty packet whose cached length is marked valid and leaves the others |
| BufferExtend.ChainExact | vpp/src/vlib/buffer_funcs.h:645-657 | chaining a new buffer keeps all packets' bytes and the invariant if and only if the packet's last buffer is unshared |
| BufferExtend.AppendKeeps | vpp/src/vlib/buffer.c:912-945 | appending any data ends; the packet has its old bytes and then exactly the first `copied` new ones, every buffer full but the last, `last` is the chain's end, no other buffer changed, and bytes are left over only if the free list could not be filled |
| BufferAppendExact.AppendExact | vpp/src/vlib/buffer.c:912-945 | appending with allocation gives the packet its old bytes and the copied ones, leaves every other packet's bytes and keeps the invariant, if and only if the packet's last buffer is unshared, or there is nothing to append, or there is no room, no free buffer and no good answer of physmem to come |
| BufferRuns.CloneRefines | vpp/src/vlib/buffer_funcs.h:542-600 | the whole of clone, by copying or by sharing: between one and the number of packets asked for, all with the source's bytes, in place of the source |
| BufferRuns.StepRefines | vpp/src/vlib/buffer_funcs.h:474-690 | every allowed call changes the packets' bytes as it would if each packet had its own copy, and keeps the ownership invariant |
| BufferRuns.RunsFromStart | vpp/src/vlib/buffer.c:506-945 | over any run of allowed calls from an empty free list, packets with shared tails are indistinguishable from private copies, counts and free list are right, and every length reported is right |
| BufferRuns.Conserved | vpp/src/vlib/buffer.c:506-730 | n_alloc is the number of free buffers and of buffers in packets, no buffer is both, and the debug table says which |
| BufferRuns.FreeAllKeeps | vpp/src/vlib/buffer.c:648-730 | freeing several packets, in any order, keeps the invariant with just those gone |
| BufferRuns.ClonesFreed | vpp/src/vlib/buffer.c:695-717 | freeing all clones, in any order, returns each head and each source buffer to the free list exactly once |
| BufferPoolMemory.BufferPool.FreeOne | vpp/src/vlib/buffer.c:695-717 | in place, the walk along a chain computes the freeing of the packet |
| BufferPoolMemory.BufferPool.Free | vpp/src/vlib/buffer.c:648-730 | in place, frees the packets given, one after another |
| BufferPoolMemory.BufferPool.FillFreeList | vpp/src/vlib/buffer.c:506-574 | in place, computes the refill, chunk by chunk |
| BufferPoolMemory.BufferPool.AllocFromFreeList | vpp/src/vlib/buffer.c:576-609 | in place, computes the allocation, or reports the failing ASSERT |
| BufferPoolMemory.BufferPool.CopyPacket | vpp/src/vlib/buffer_funcs.h:474-528 | in place, computes the copy of a packet |
| BufferPoolMemory.BufferPool.ClonePacket | vpp/src/vlib/buffer_funcs.h:542-600 | in place, computes the clones by either path and the buffers returned |
| BufferPoolMemory.BufferPool.AttachClone | vpp/src/vlib/buffer_funcs.h:609-632 | in place, computes the attaching, counts up along the tail |
| BufferPoolMemory.BufferPool.AppendData | vpp/src/vlib/buffer_funcs.h:674-690 | in place, puts as many bytes as fit and says how many |
| BufferPoolMemory.BufferPool.AppendDataWithAlloc | vpp/src/vlib/buffer.c:912-945 | in place, computes the append and ends |
| BufferPoolMemory.BufferPool.LengthInChain | vpp/src/vlib/buffer_funcs.h:99-109 | computes the length by the fast or the slow path |
| BufferPoolMemory.BufferPool.Contents | vpp/src/vlib/buffer_funcs.h:130-148 | copies out exactly the packet's bytes |
| Dispatch.PlacesRight | vpp/src/vlib/buffer_node.h:230-327 | the places of the buffers for a next node are exactly those whose choice it is, in input order |
| Dispatch.AddressedPlaces | vpp/src/vlib/buffer_node.h:230-327 | what plain dispatch sends a next node is the buffers at its places |
| Dispatch.AllSent | vpp/src/vlib/buffer_node.h:230-327 | plain dispatch loses no buffer and sends none twice |
| Dispatch.NextFrames.GetNextFrame | vpp/src/vlib/main.c:360-420 | an opened frame has a free slot, and no next node's packets change |
| Dispatch.NextFrames.PutNextFrame | vpp/src/vlib/main.c:458-500 | putting a frame back sends exactly the slots used, the frame never shrinks, and its next node is remembered unless it is empty |
| Dispatch.NextFrames.SetNextFrameBuffer | vpp/src/vlib/node_funcs.h:371-390 | sends one buffer to one next node and touches no other frame |
| Dispatch.NextFrames.ValidateEnqueueX1 | vpp/src/vlib/buffer_node.h:216-228 | whatever the choice, the buffer ends up with its own next node, after all sent before; that node's frame is the open one and agrees with n_left_to_next |
| Dispatch.NextFrames.ValidateEnqueueX2 | vpp/src/vlib/buffer_node.h:70-108 | the same for two buffers, in order; the open frame is theirs if they go to one node, and stays otherwise |
| Dispatch.NextFrames.ValidateEnqueueX4 | vpp/src/vlib/buffer_node.h:138-194 | the same for four buffers, in order; the open frame follows the last two |
| Dispatch.NextFrames.GenericBufferNode | vpp/src/vlib/buffer_node.h:230-327 | for every input and every choice, each next node is sent exactly its buffers, in input order, after what it had; no frame overflows, and the loops end |
| SsvmLock.NextKeeps | vpp/src/svm/ssvm.h:87-114 | each read or write by any process keeps the lock's invariant |
| SsvmLock.MutualExclusion | vpp/src/svm/ssvm.h:87-114 | in every interleaving of any number of processes that nest at most 2^32 locks, at most one holds the lock, and the unsynchronised owner test succeeds for the holder and nobody else |
| SsvmLock.LimitExact | vpp/src/svm/ssvm.h:87-114 | with nesting bounded by any limit, two processes exclude each other in every run if and only if the limit is at most 2^32 |
| SsvmLock.ReleasedExactly | vpp/src/svm/ssvm.h:104-114 | the lock is cleared when, and only when, the holder undoes its last nested lock |
| SsvmLock.FreeIsTaken | vpp/src/svm/ssvm.h:96-97 | with every other process outside, a process that spins finds the lock free and takes it |
| SsvmLock.UnlockClears | vpp/src/svm/ssvm.h:104-114 | from a state a run reaches in which the counter of a holder of d nested locks reads 1, one unlock frees the lock with d - 1 locks to go |
| SsvmTag.TagStays | vpp/src/svm/ssvm.h:87-114 | in every interleaving the header's tag is the one given with the call that took the lock, from that call's return to the last unlock, whatever nested calls give; while the lock is clear it is 0 |
| Ip6Exact.ParseFull | vpp/src/vat/plugin_api.c:98-187 | every address in full form parses to its groups' values |
| Ip6Exact.ParseCompressed | vpp/src/vat/plugin_api.c:98-187 | every address with "::" parses to the groups before it, zeros, and the groups after it |
| Ip6Exact.ParseMeans | vpp/src/vat/plugin_api.c:98-187 | for any text at all, an accepted address is what its digits and colons up to the first other character, or a third colon in a row, say: eight groups and no "::", or the groups before its one "::", zeros, and those after it |
| Ip6Exact.ParseFits | vpp/src/vat/plugin_api.c:98-187 | an accepted address is eight 16-bit groups |
| Ip6Exact.DigitsOf | vpp/src/vat/plugin_api.c:115-126 | a character stands for a digit's value in either case and for nothing else; the printer writes lower case |
| Ip6Exact.ParseStops | vpp/src/vat/plugin_api.c:115-131 | whatever follows the first character that is neither a digit nor a colon makes no difference |
| Ip6Exact.FormatLegal | vpp/src/vat/api_format.c:618-666 | the printed text is always in a form of section 2.2 of RFC 4291 |
| Ip6Exact.RoundTrip | vpp/src/vat/json_format.c:42-90 | parsing the printed text always succeeds, and gives the address back if and only if the run the printer chose is all zero |
| Ip6Runs.RoundTripByRuns | vpp/src/vat/json_format.c:42-90 | the address comes back if and only if its second run of zeros is longer than its first, or no more zeros follow its first run than are in it |
| Ip6Exact.TwoRunsSurvive | vpp/src/vat/api_format.c:630-644 | every address with at most two runs of zeros survives printing and parsing |
| Ip6Exact.ThreeRunsLost | vpp/src/vat/api_format.c:630-644 | 0:0:1:0:1:0:0:1 does not |
| Ip6Text.FormatIp6Address | vpp/src/vat/api_format.c:618-666 | the printer's two loops compute the text |
| Ip6Text.UnformatIp6Address | vpp/src/vat/api_format.c:195-284 | the parser's loop over its eight-entry array computes the result, never outside the array and with no group cut to 16 bits |
| Ip6Text.ExpandInPlace | vpp/src/vat/plugin_api.c:160-176 | moving the groups after "::" up, from the last one down, expands it in place |
| ClassifyMask.TrimMask | vpp/src/vat/api_format.c:9172-9203 | the trimmed mask stands for the same bytes, begins and ends with a significant vector, and is empty if and only if no bit is set |
| ClassifyMask.TrimmedOnce | vpp/src/vat/api_format.c:9172-9203 | masks that stand for the same bytes are trimmed to the same vectors after the same skip |
| SvmPages.CreateExact | vpp/src/svm/svm.c:879-932 | creating a region keeps regions disjoint and in bounds and the bitmap right if and only if the range found ends inside the bitmap and its last page is free |
| SvmPages.UnmapKeeps | vpp/src/svm/svm.c:985-1050 | unmapping, final or not, keeps them so |
| SvmPages.CreateUnmap | vpp/src/svm/svm.c:1006-1033 | creating a region and unmapping it again restores everything |
| SvmPages.RunKeeps | vpp/src/svm/svm.c:879-1033 | over any run live regions are disjoint and in bounds, and the bits set are exactly their pages and the overhead |
| SvmClients.MappedLives | vpp/src/svm/svm.c:848-1050 | over any run, a region is known, at the pages where its creation put it, if and only if some process has created or attached to it more often than it has unmapped it, and each process is among its clients just as often |
| SvmClients.WithoutCounts | vpp/src/svm/svm.c:987-996 | unmapping takes one entry of the caller off the list of clients, if there is one, and no other |
| SvmPages.LastPageTaken | vpp/src/svm/svm.c:894 | three pages asked for where two are free: the new region overlaps its neighbour |
| SvmPages.PastEnd | vpp/src/svm/svm.c:886-899 | two pages asked for where only the bitmap's last page is free: the new region ends past the bitmap |
| SvmRegion.RootRegion.FindRange | vpp/src/svm/svm.c:886-907 | the scan, which skips ahead, ends and finds what plain first fit finds |
| SvmRegion.RootRegion.FindOrCreate | vpp/src/svm/svm.c:848-932 | in place, for any answer of the scan, computes the creation or the attaching to a known region; bits past the bitmap's end change just where the range found reaches them |
| SvmRegion.RootRegion.UnmapRegion | vpp/src/svm/svm.c:985-1050 | in place, computes the unmapping |

## Left out

- All mapping of memory, files, signals, threads, mutexes and heap switching: only the state they guard is modelled.
- Weak memory: the fifo and the lock are proved under sequential consistency, which the atomic operations and the barrier are there for.
- Fifo sizes above 2^31, for which the sums of ring indices leave 32 bits.
- Fifo calls without a source or destination pointer, which move the counters and copy nothing.
- SvmFifoMemory.SvmFifo.EnqueueWithOffset: not for a segment pool of 2^32 - 1 elements, whose next index would be the invalid one, and not what a copy longer than the ring overwrites.
- FifoConcurrent.Safety: each byte copied and each read or update of cursize, head or tail is a step, but the insertion of a segment and the collection of segments are one step each, since only the producer reads the list; drop and peek are not interleaved.
- Buffer flags and fields the ownership of buffers does not depend on: tracing, recycling, opaque data, error and feature fields, physical addresses.
- More than one free list, the merging and deletion of free lists, the announce callback, external buffer managers, and freeing without following the chain.
- `vlib_buffer_add_data`, which appends to the end of the chain it finds and drops the cached length.
- 16-bit buffer lengths: a buffer and its pre-data area are smaller than 2^16 bytes in all.
- BufferRuns.CloneRefines: the guard on the shared path is stated one way; that it is needed is BufferClone.CloneExact.
- What becomes of frames between runs of a node: ownership of frames by next nodes, pending frames, dispatch, tracing. Each next index has its own frame.
- The callbacks of the dual loop: their choices are an input.
- SsvmLock.LimitExact: the counter wraps as a 32-bit machine word does; C leaves it undefined once 2^31 locks are nested.
- The rest of `api_format.c` and `json_format.c`: message handlers, argument parsing, tables and JSON layout.
- Clients that die without unmapping, and the name of a region beyond its use as a key.
