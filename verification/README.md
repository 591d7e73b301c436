# Verified model of the Solar48 firmware's kernel and protocol core

The Solar48 firmware runs FreeRTOS on a 32-bit microcontroller, with its own multi-producer queue, a Modbus RTU master
on UART 1, a Modbus RTU slave on UART 2 and a USB CDC console. This project models the parts of it whose correctness is
hardest to see by reading, one Dafny module (or a small family of them) for each source file, and proves what they are
for. `dafny verify dfyconfig.toml` checks all of it.

Where the source updates things in place, so does the model: classes with the source's fields, arrays for buffers,
methods with its loops and branches. Each such method is proved against a specification on values, and the lemmas about
that specification say what a caller can rely on.

* **`heap_blocks.dfy`, `heap_memory.dfy`, `heap_4.dfy`** - the allocator. Three layers: a sequence of blocks that tile
  the heap; headers and links in memory that represent such a sequence; the code that walks and rewrites them. The
  application's own bytes are there too: storing headers loses those they are stored over, never one in a live payload.
* **`bytes.dfy`, `ring.dfy`, `stream_buffer.dfy`** - stream and message buffers as one caller sees them.
  **`stream_steps.dfy`** - the same under every interleaving of one writer and one reader, where copying, publishing an
  index and reading the other side's index are separate steps. **`stream_progress.dfy`** - what a send and a receive
  come to when the other side rests.
* **`sys_queue.dfy`** - the project's own queue, as steps of any number of threads between atomic actions, with its two
  spin locks and four flags. A run that asks for no queue too big to allocate ends in a panic or keeps the invariant.
  **`sys_queue_calls.dfy`** - what each call does when nobody disturbs it: that it comes back, with what, and when it
  panics.
* **`event_groups.dfy`** - waiting for any or all of some bits, on 16-bit values as the tick type makes them.
* **`queue.dfy`** - the kernel's queue: a ring used from both ends, the tasks waiting on it, and the counters that let
  interrupts use it while a task has it locked.
* **`crc.dfy`, `memory.dfy`, `rs485.dfy`** - CRC-16 by table, byte swapping two half-words at a time, and both ends of
  Modbus RTU with an end-to-end theorem, on frames and on the running code.
* **`hal_uart.dfy`** - one Modbus transaction over UART 1: five interrupt handlers, a polled function and one control
  block.
* **`list.dfy`, `croutine.dfy`** - the kernel's circular lists with their pointers, and the co-routine scheduler with
  its two delayed lists under a 16-bit tick counter.
* **`usb.dfy`** - packets: the packet memory, CDC bulk transfers and the data stage of endpoint 0.

Assertions that halt the firmware (`configASSERT`, `app_panic` on misuse) are preconditions, except in `sys_queue.dfy`,
where a panic is a step. Time, interrupts and the scheduler are the environment: a parameter such as a SysTick reading,
a sequence of interrupts at a point where they are enabled, or a step that may happen at any time.

Some results say that the code does less than one might expect, each with an input and the exact condition:

* `sys_queue_init` computes the size of its vector in 32 bits. For 357913942 items it allocates 8 bytes and keeps the
  size (`SysQueue.WrappedAllocation`); runs that use the vector out of bounds exist exactly for the sizes whose byte
  count wraps (`SysQueue.FaultIff`). The theorems about whole runs are for runs that ask for no such size. Both callers
  in the repository ask for small ones.
* A co-routine delayed by zero ticks at the last tick of a turn of the counter is swapped onto the wrong list
  (`CoRoutines.ZeroDelayCanBeLost`) and stays delayed for two turns (`CoRoutines.ZeroDelayTakesTwoTurns`);
  `CoRoutines.ZeroDelay` gives the exact condition.
* A request for coils or discrete inputs carries the number of bytes wanted where the protocol has the number of bits
  (`Rs485.EightCoilsAskedAsOne`, `Rs485.QuantityIffNotBits`). The slave answers such requests with exception 1 whatever
  the field says, so the end-to-end result still covers them.
* The master's check takes the place of an answer's CRC from the answer. Damage in at most two adjacent bytes is always
  noticed while that place stays the same (`Rs485.DamagedAnswerIsRefused`), but damage that reaches the bytes that tell
  it can make another answer that is accepted, with every function but 5 (`Rs485.FoolsIff`, whose proof builds such
  answers; `Rs485.DamagedCoilAnswerIsRefused`). The slave's check has no such place
  (`Rs485.DamagedRequestIsNotAnswered`).
* The counts of a stream buffer are sums in 32 bits. In 3 GiB of storage 1 GiB is counted as nothing
  (`Ring.CountWraps`); they are right exactly up to 2 GiB (`Ring.CountsRightIff`), which is what the stream buffer
  results are for. The target has nothing like it.
* A request over UART 1 with a timeout of 0 may see a wrap of the counter before its callback; with any other timeout
  it never sees more wraps than twice the timeout (`HalUart.EndsLateIff`).
* `USBD_CDC_TransmitPacket` takes a 32-bit length and sends 16 bits of it: of 65536 bytes nothing
  (`Usb.LongTransferIsEmpty`, `Usb.TransferIsWholeIff`).

## Model

| member | source | states |
|---|---|---|
| HeapBlocks.AllocateKeeps | firmware/src/middlewares/FREE_RTOS/heap_4.c:240-312 | carving the lowest fitting block keeps the heap tiled by aligned blocks with no two free ones touching, and takes exactly the carved size from the free bytes |
| HeapBlocks.ReleaseKeeps | firmware/src/middlewares/FREE_RTOS/heap_4.c:354-412 | freeing any live block, merged with free neighbours on either side or both, keeps the heap tiled with no two free blocks touching, and gives back exactly its size |
| HeapBlocks.AllocateThenRelease | firmware/src/middlewares/FREE_RTOS/heap_4.c:173-412 | freeing a block straight after allocating it, split or not, restores the very same blocks |
| HeapBlocks.PayloadsDisjoint | firmware/src/middlewares/FREE_RTOS/heap_4.c:257-312 | the payloads of two live blocks are 8-byte aligned and do not overlap |
| HeapBlocks.OwnedIff | firmware/src/middlewares/FREE_RTOS/heap_4.c:257-312 | what the application may write is, of every live block, everything from its eighth byte to its end |
| HeapBlocks.HeadersMissPayloads | firmware/src/middlewares/FREE_RTOS/heap_4.c:257-312 | no header of any block lies over a live payload |
| HeapBlocks.FreeAddrsSorted | firmware/src/middlewares/FREE_RTOS/heap_4.c:504-569 | the addresses of the free blocks are strictly increasing |
| HeapMemory.InsertedHeaders | firmware/src/middlewares/FREE_RTOS/heap_4.c:524-569 | the headers written by an insertion describe exactly the merged blocks |
| HeapMemory.InsertedChain | firmware/src/middlewares/FREE_RTOS/heap_4.c:508-569 | after an insertion the links visit exactly the free blocks in address order, merged left, right, both or neither |
| HeapMemory.CarvedHeaders | firmware/src/middlewares/FREE_RTOS/heap_4.c:266-292 | unlinking and splitting leaves headers that describe exactly the carved blocks |
| HeapMemory.CarvedChain | firmware/src/middlewares/FREE_RTOS/heap_4.c:266-292 | after a block is taken, split or whole, the links visit exactly the blocks still free |
| HeapMemory.BlockTaken | firmware/src/middlewares/FREE_RTOS/heap_4.c:257-312 | the memory after a successful allocation represents the carved block sequence |
| HeapMemory.BlockInserted | firmware/src/middlewares/FREE_RTOS/heap_4.c:504-569 | the memory after an insertion represents the released block sequence |
| HeapMemory.FitFound | firmware/src/middlewares/FREE_RTOS/heap_4.c:244-253 | the walk that skips smaller free blocks stops at the lowest-addressed one that fits |
| HeapMemory.WalkVisitsBlocks | firmware/src/middlewares/FREE_RTOS/heap_4.c:504-569 | stepping by block size from the heap start reaches every block in turn and then pxEnd exactly |
| HeapMemory.BlockToFree | firmware/src/middlewares/FREE_RTOS/heap_4.c:354-412 | a live block found from its payload has a header whose allocated bit and size are those of the block |
| HeapMemory.TakingSpares | firmware/src/middlewares/FREE_RTOS/heap_4.c:257-312 | the headers stored in taking a block leave alone whatever lies in a payload live before and after |
| HeapMemory.ReleasingSpares | firmware/src/middlewares/FREE_RTOS/heap_4.c:354-412 | so do those stored in releasing one |
| HeapMemory.RepresentsStill | firmware/src/middlewares/FREE_RTOS/heap_4.c:504-569 | a byte the application stores in a payload it holds disturbs no header and no link |
| Heap4.AdjustedSize | firmware/src/middlewares/FREE_RTOS/heap_4.c:182-219 | header and rounding: 0 on any overflow of the size type, otherwise the least multiple of 8 that holds header and payload |
| Heap4.SizesInNumbers | firmware/src/middlewares/FREE_RTOS/heap_4.c:182-219 | no block for 0 bytes or for more than 0x7FFFFFF0, and from 0xFFFFFFF1 on the size overflows |
| Heap4.SatisfiableIff | firmware/src/middlewares/FREE_RTOS/heap_4.c:236-253 | a request can be met exactly if it asks for 1 to 0x7FFFFFF0 bytes and some free block holds them behind a header of 8 |
| Heap4.HandedOut | firmware/src/middlewares/FREE_RTOS/heap_4.c:244-292 | the block handed out is the first that can hold the bytes and a header, has at most 31 bytes more than were wanted, header included, and a remainder is split off exactly if it has more than 16 |
| Heap4.Heap.HeapInit | firmware/src/middlewares/FREE_RTOS/heap_4.c:456-501 | whatever the alignment of the array, one free block fills the space before the end marker |
| Heap4.Heap.FindPredecessor | firmware/src/middlewares/FREE_RTOS/heap_4.c:511-514 | the address walk stops at the last free block below the one inserted |
| Heap4.Heap.SpliceAfter | firmware/src/middlewares/FREE_RTOS/heap_4.c:516-569 | the four merging cases, pointer by pointer |
| Heap4.Heap.InsertBlockIntoFreeList | firmware/src/middlewares/FREE_RTOS/heap_4.c:504-569 | the free list becomes that of the released block sequence |
| Heap4.Heap.FindFit | firmware/src/middlewares/FREE_RTOS/heap_4.c:244-253 | the first-fit walk and the block before the one found |
| Heap4.Heap.Unlink | firmware/src/middlewares/FREE_RTOS/heap_4.c:266-292 | taking the block found off the list and splitting off the remainder when it is big enough |
| Heap4.Heap.TakeBlock | firmware/src/middlewares/FREE_RTOS/heap_4.c:257-312 | the block sequence and every counter after a successful search, the minimum ever included; live payloads keep their bytes |
| Heap4.Heap.Malloc | firmware/src/middlewares/FREE_RTOS/heap_4.c:173-351 | NULL exactly when the size is 0, overflows, has its top bit set once adjusted or fits no free block, and then nothing changes on an initialised heap; otherwise the lowest-addressed fitting block, carved, with the counters to match; live payloads keep their bytes |
| Heap4.Heap.Free | firmware/src/middlewares/FREE_RTOS/heap_4.c:354-412 | the block is released and merged, its bytes are counted back, other live payloads keep theirs; NULL changes nothing |
| Heap4.Heap.GetHeapStats | firmware/src/middlewares/FREE_RTOS/heap_4.c:572-621 | the count, the largest and the smallest of the free blocks; 0, 0 and portMAX_DELAY before the first allocation |
| Heap4.MallocThenFree | firmware/src/middlewares/FREE_RTOS/heap_4.c:173-412 | malloc then free on the running allocator restores the blocks, the free list and xFreeBytesRemaining for every heap state and size, the first allocation included |
| Heap4.RunsKeepHeap | firmware/src/middlewares/FREE_RTOS/heap_4.c:173-412 | after any sequence of allocations and frees the blocks still tile the heap, merged and aligned |
| Heap4.Heap.Write | firmware/src/middlewares/FREE_RTOS/heap_4.c:257-312 | the application may store any byte in a payload it holds without disturbing the heap |
| Heap4.LeastFreeIsLeast | firmware/src/middlewares/FREE_RTOS/heap_4.c:295-304 | the minimum that the calls of a run compute is the least of the free bytes over all its states |
| Heap4.RunCalls | firmware/src/middlewares/FREE_RTOS/heap_4.c:173-412 | any sequence of allocations, frees and bytes stored in between, from before the initialisation: headers, links and counters still describe the blocks, those are the blocks of the calls, every byte stored in a payload still held is there, and the minimum ever is the least of the free bytes |
| Bytes.LoadAfterStore | firmware/src/middlewares/FREE_RTOS/stream_buffer.c:1013-1031 | a length stored in the buffer low byte first is read back |
| Ring.CountWraps | firmware/src/middlewares/FREE_RTOS/stream_buffer.c:1566-1584 | with 1 GiB stored in 3 GiB of storage the count is 0 |
| Ring.CountsRightIff | firmware/src/middlewares/FREE_RTOS/stream_buffer.c:754-1584 | the counts of bytes stored and free are right for all indices if and only if the storage is at most 2 GiB long |
| Ring.StoredAfterWrite | firmware/src/middlewares/FREE_RTOS/stream_buffer.c:1476-1519 | writing at the head, across the end of the storage or not, appends to what is stored |
| Ring.SliceAfterRead | firmware/src/middlewares/FREE_RTOS/stream_buffer.c:1522-1563 | reading at the tail, across the end or not, takes the oldest bytes and leaves the rest |
| Ring.FramesAppend | firmware/src/middlewares/FREE_RTOS/stream_buffer.c:1000-1050 | a message written behind others extends the frames in order |
| Ring.FirstFrame | firmware/src/middlewares/FREE_RTOS/stream_buffer.c:1276-1328 | the front of a well-framed buffer gives the length and the bytes of the oldest message |
| StreamBuffers.StreamBuffer.BytesInBuffer | firmware/src/middlewares/FREE_RTOS/stream_buffer.c:1566-1584 | the bytes stored, computed from the two indices in 32 bits, for storage of at most 2 GiB |
| StreamBuffers.StreamBuffer.SpacesAvailable | firmware/src/middlewares/FREE_RTOS/stream_buffer.c:754-788 | the free bytes, one slot always empty, computed in 32 bits, for storage of at most 2 GiB |
| StreamBuffers.StreamBuffer.WriteBytesToBuffer | firmware/src/middlewares/FREE_RTOS/stream_buffer.c:1476-1519 | the bytes land in ring order from the head and no other slot changes |
| StreamBuffers.StreamBuffer.ReadBytesFromBuffer | firmware/src/middlewares/FREE_RTOS/stream_buffer.c:1522-1563 | the bytes from the tail on, in ring order |
| StreamBuffers.StreamBuffer.WriteMessageToBuffer | firmware/src/middlewares/FREE_RTOS/stream_buffer.c:1000-1050 | a message goes in whole behind its length or not at all; a stream takes what fits |
| StreamBuffers.StreamBuffer.ReadMessageFromBuffer | firmware/src/middlewares/FREE_RTOS/stream_buffer.c:1276-1328 | the oldest message whole, or nothing and nothing consumed when the caller has no room for it |
| StreamBuffers.StreamBuffer.Send | firmware/src/middlewares/FREE_RTOS/stream_buffer.c:808-940 | without blocking: the stored bytes or messages grow by exactly what was reported written |
| StreamBuffers.StreamBuffer.Receive | firmware/src/middlewares/FREE_RTOS/stream_buffer.c:1053-1166 | without blocking: whole messages in send order, or the oldest bytes of a stream |
| StreamBuffers.StreamBuffer.NextMessageLength | firmware/src/middlewares/FREE_RTOS/stream_buffer.c:1169-1210 | the length of the oldest message, 0 without one |
| StreamSteps.CopyInKeepsInv | firmware/src/middlewares/FREE_RTOS/stream_buffer.c:1476-1519 | the writer filling slots, one at a time and in any order of the two segments, disturbs nothing unread |
| StreamSteps.PublishHeadKeepsInv | firmware/src/middlewares/FREE_RTOS/stream_buffer.c:1000-1050 | publishing the head makes exactly the new bytes, or the whole new frame, readable |
| StreamSteps.DecodeKeepsInv | firmware/src/middlewares/FREE_RTOS/stream_buffer.c:1276-1328 | what the reader has copied as a length is the length of the oldest whole message |
| StreamSteps.PublishTailKeepsInv | firmware/src/middlewares/FREE_RTOS/stream_buffer.c:1276-1328 | publishing the tail hands over exactly the oldest bytes or message |
| StreamSteps.StepKeepsInv | firmware/src/middlewares/FREE_RTOS/stream_buffer.c:754-1584 | every step of the one writer and the one reader, in any interleaving, keeps the invariant |
| StreamSteps.RunDelivers | firmware/src/middlewares/FREE_RTOS/stream_buffer.c:754-1584 | in every interleaving the bytes received are a prefix of the bytes sent, and the messages received a prefix of the messages sent |
| StreamSteps.StaleCountsAreSafe | firmware/src/middlewares/FREE_RTOS/stream_buffer.c:754-788 | a count of free bytes that a writer goes by, and one of available bytes that a reader goes by, however stale, never exceeds the true one |
| StreamSteps.ReaderHoldsWholeMessage | firmware/src/middlewares/FREE_RTOS/stream_buffer.c:1276-1328 | the reader never sees a half-written frame |
| StreamSteps.RefusedSendChangesNothing | firmware/src/middlewares/FREE_RTOS/stream_buffer.c:1000-1050 | a message that does not fit, or is empty, changes nothing: head, unread bytes, bytes and messages sent stay the same over every run of the writer's steps until it rests |
| StreamProgress.SendAloneIsPublished | firmware/src/middlewares/FREE_RTOS/stream_buffer.c:943-1050 | a message that fits, or bytes of a stream for which there is some room, sent while the reader does not move: published after exactly as many steps as bytes and five more, whatever order they are copied in; then unread and sent bytes have grown by the length and the message, or by as much as there was room for |
| StreamProgress.MovedTailIsReadAgain | firmware/src/middlewares/FREE_RTOS/stream_buffer.c:766-776 | a writer that finds the tail moved between its two loads looks again, and goes by the tail as it then is |
| StreamProgress.ReceiveAloneTakes | firmware/src/middlewares/FREE_RTOS/stream_buffer.c:1053-1328 | a receive with room for the oldest message, or of a stream with more bytes than the batch asks for, while the writer does not move: over after a known number of steps, having taken exactly that message or the oldest bytes |
| StreamProgress.ReceiveAloneLeaves | firmware/src/middlewares/FREE_RTOS/stream_buffer.c:1053-1328 | a receive without room for the oldest message, or with too little there, receives nothing and leaves what is unread |
| SysQueue.InitKeepsShared | firmware/src/system/sys_queue.c:15-59 | every step of init keeps the queue well formed when the size it asks for has a byte count that does not wrap |
| SysQueue.EverySlotUsableIff | firmware/src/system/sys_queue.c:43-51 | whatever int is asked for, every slot below the size settled on can be used if and only if 12 times that size fits 32 bits |
| SysQueue.WrappedAllocation | firmware/src/system/sys_queue.c:43-51 | at 357913942 malloc is asked for 8 bytes and slot 0 cannot be used |
| SysQueue.FaultIff | firmware/src/system/sys_queue.c:15-148 | some run of some threads uses the vector out of bounds if and only if the byte count of the size asked for wraps |
| SysQueue.InitKeepsThread | firmware/src/system/sys_queue.c:15-59 | a thread in init holds the locks it should and knows what it relies on |
| SysQueue.DeinitKeepsShared | firmware/src/system/sys_queue.c:61-105 | every step of deinit keeps the queue well formed |
| SysQueue.DeinitKeepsThread | firmware/src/system/sys_queue.c:61-105 | the same for a thread in deinit |
| SysQueue.AddKeepsShared | firmware/src/system/sys_queue.c:108-148 | enqueueing keeps head = (tail + count) mod size and the items in order |
| SysQueue.AddKeepsThread | firmware/src/system/sys_queue.c:108-148 | the same for a thread enqueueing |
| SysQueue.RunKeepsShared | firmware/src/system/sys_queue.c:160-232 | running or draining the queue keeps it well formed and the log as it is due, whichever step is taken |
| SysQueue.RunKeepsPlace | firmware/src/system/sys_queue.c:160-232 | a runner stays at the item it has taken until it steps past it |
| SysQueue.RunSparesOthers | firmware/src/system/sys_queue.c:160-232 | a runner takes no lock and no fact away from another thread |
| SysQueue.StepDefined | firmware/src/system/sys_queue.c:108-232 | no reachable step divides by a queue size of zero, so any thread can always take its next step |
| SysQueue.StepKeepsInv | firmware/src/system/sys_queue.c:15-232 | any step of any of any number of threads keeps the invariant, unless it asks for a size whose byte count wraps |
| SysQueue.RunKeepsInv | firmware/src/system/sys_queue.c:15-232 | the invariant holds in every state reachable without asking for a size whose byte count wraps, however many threads interleave |
| SysQueue.EveryItemOnceInOrder | firmware/src/system/sys_queue.c:108-232 | in those states every accepted item, in order, has had its function and then its destroyer once, or after the deinit signal its destroyer alone once, or is still waiting; none waits once the queue is ready to be torn down |
| SysQueue.FlagGoesRound | firmware/src/system/sys_queue.c:15-232 | the flag only goes from off to running to the deinit signal to ready and back to off |
| SysQueue.VectorOnlyUnderLock | firmware/src/system/sys_queue.c:108-232 | in those states the vector is used only by the thread that holds the lock, only while it exists, and within its bounds |
| SysQueue.DiscardedOnlyAfterSignal | firmware/src/system/sys_queue.c:202-227 | an item loses its function call only after the deinit signal |
| SysQueue.LocksGivenBack | firmware/src/system/system.c:26-72 | when every thread is idle both locks are free |
| SysQueueCalls.CallIsARun | firmware/src/system/sys_queue.c:15-232 | a call that is not disturbed is a run of steps of the queue in which nobody else moves |
| SysQueueCalls.RunServes | firmware/src/system/sys_queue.c:160-200 | one run of a running queue that nobody has locked calls the function of the item whose turn it is and then its destroyer, if it has one, takes it off, and unlocks the queue; an item without a function is a panic |
| SysQueueCalls.RunOfNothing | firmware/src/system/sys_queue.c:160-188 | a run of a queue that is empty, off or ready to end changes nothing |
| SysQueueCalls.RunDrains | firmware/src/system/sys_queue.c:202-232 | one run after the deinit signal calls every destroyer that is left, in order, and no function, and leaves the queue empty, ready to end and unlocked |
| SysQueueCalls.InitMakes | firmware/src/system/sys_queue.c:15-59 | init comes back with a running, empty, unlocked queue of the size asked for, or of 4; it panics exactly if there is a queue already or no memory |
| SysQueueCalls.EnqueueAccepts | firmware/src/system/sys_queue.c:108-148 | an item is accepted, behind those waiting, exactly if the queue is running and not full; otherwise nothing changes; it never panics |
| SysQueueCalls.DeinitOfNothing | firmware/src/system/sys_queue.c:61-88 | deinit of a queue that is off changes nothing, and of one that is already ending panics |
| SysQueueCalls.DeinitEnds | firmware/src/system/sys_queue.c:61-105 | deinit of a running queue, with one run by another thread: every destroyer left is called, in order, and the queue is off, without its vector, and unlocked |
| SysQueueCalls.DeinitNeedsARun | firmware/src/system/sys_queue.c:90-95 | without such a run deinit never comes back but by a panic |
| SysQueueCalls.HeldOut | firmware/src/system/system.c:26-72 | while another thread holds the lock a run or an enqueueing comes back, if it does, with nothing changed |
| SysQueueCalls.BlockedPanics | firmware/src/system/system.c:26-72 | making or ending the queue while another thread holds a lock it needs comes back only by a panic, with flag and vector as they were |
| EventGroups.WaitOverMonotone | firmware/src/middlewares/FREE_RTOS/event_groups.c:778-812 | a wait that some bits end is ended by more bits, for any and for all |
| EventGroups.WaitOverIsEnds | firmware/src/middlewares/FREE_RTOS/event_groups.c:778-812 | a wait for all is over exactly if every bit waited for is set, one for any exactly if one of them is |
| EventGroups.StoredWaitReads | firmware/src/middlewares/FREE_RTOS/tasks.c:5325-5351 | what a task waits for survives being packed into its list item with the control bits |
| EventGroups.HandedReads | firmware/src/middlewares/FREE_RTOS/tasks.c:7646-7658 | a released task reads back all the bits and that it was released |
| EventGroups.OverMembers | firmware/src/middlewares/FREE_RTOS/event_groups.c:562-635 | setting bits splits the list exactly by whose wait is over; nobody is lost or released twice |
| EventGroups.SetKeeps | firmware/src/middlewares/FREE_RTOS/event_groups.c:547-647 | after a set nobody left on the list is satisfied by what remains of the bits |
| EventGroups.SyncKeeps | firmware/src/middlewares/FREE_RTOS/event_groups.c:205-248 | the same after the first half of a rendezvous |
| EventGroups.WaitKeeps | firmware/src/middlewares/FREE_RTOS/event_groups.c:336-404 | the same after a wait that ends at once or blocks |
| EventGroups.ActKeeps | firmware/src/middlewares/FREE_RTOS/event_groups.c:185-647 | the same after any call, timeout or resumption |
| EventGroups.NobodyEverOverdue | firmware/src/middlewares/FREE_RTOS/event_groups.c:185-647 | in every reachable state no task on the list has its any or all condition satisfied by the current bits |
| EventGroups.ReleasedFindsFullBits | firmware/src/middlewares/FREE_RTOS/event_groups.c:562-640 | a waiter is released exactly when the new bits satisfy it, and then finds all of them, from before any clearing |
| EventGroups.MaskOfAnyOrder | firmware/src/middlewares/FREE_RTOS/event_groups.c:609-640 | the union of the clear-on-exit masks does not depend on the order of the list |
| EventGroups.OrderDoesNotMatter | firmware/src/middlewares/FREE_RTOS/event_groups.c:547-647 | nor do the resulting bits, the items handed over or who stays |
| EventGroups.Rendezvous | firmware/src/middlewares/FREE_RTOS/event_groups.c:185-309 | the last task to arrive at a rendezvous releases all the others, each sees all the bits, and the bits are clear for the next round |
| EventGroups.SetBitByBit | firmware/src/middlewares/FREE_RTOS/event_groups.c:547-647 | bit by bit: after a set a bit is set exactly if it was or is new, unless a waiter whose wait that ends waited for it and asked for clearing; exactly those waiters leave |
| EventGroups.SyncBitByBit | firmware/src/middlewares/FREE_RTOS/event_groups.c:205-248 | bit by bit: the same, and the bits of a rendezvous that is complete go |
| EventGroups.ClearBitByBit | firmware/src/middlewares/FREE_RTOS/event_groups.c:472-501 | bit by bit: after a clear a bit is set exactly if it was and is not in the mask |
| EventGroups.EventGroup.ReleaseMatching | firmware/src/middlewares/FREE_RTOS/event_groups.c:569-635 | the walk that takes matched items out while stepping on |
| EventGroups.EventGroup.SetBits | firmware/src/middlewares/FREE_RTOS/event_groups.c:547-647 | bits, list and list items after a set, bit by bit and as specified, and the remaining bits are returned |
| EventGroups.EventGroup.ClearBits | firmware/src/middlewares/FREE_RTOS/event_groups.c:472-501 | exactly the bits of the mask go, the previous ones are returned, nobody becomes satisfied |
| EventGroups.EventGroup.WaitBits | firmware/src/middlewares/FREE_RTOS/event_groups.c:312-404 | answers at once or blocks, exactly by the condition; one that ends at once takes off exactly the bits waited for if it is to clear them, and otherwise no bit changes |
| EventGroups.EventGroup.Resume | firmware/src/middlewares/FREE_RTOS/event_groups.c:406-468 | a released task returns what it was handed; one that timed out tests again, and if now satisfied takes off exactly the bits it waited for if it is to clear them |
| EventGroups.EventGroup.TimeOut | firmware/src/middlewares/FREE_RTOS/event_groups.c:421-455 | a task whose time is up leaves the list and keeps what it waited for |
| EventGroups.EventGroup.Sync | firmware/src/middlewares/FREE_RTOS/event_groups.c:185-253 | set, then answer with all the bits and clear exactly those waited for, or block for all of them, or report |
| Queues.SlotIsModular | firmware/src/middlewares/FREE_RTOS/queue.c:2421-2449 | the wrapped slot arithmetic is (read slot + 1 + k) mod length |
| Queues.SentToBack | firmware/src/middlewares/FREE_RTOS/queue.c:2421-2434 | storing at the write slot appends, and the write slot moves to the next |
| Queues.SentToFront | firmware/src/middlewares/FREE_RTOS/queue.c:2435-2449 | storing at the read slot prepends, and leaves the write slot right |
| Queues.Taken | firmware/src/middlewares/FREE_RTOS/queue.c:2478-2494 | advancing the read slot takes the oldest item |
| Queues.PlacedByPriority | firmware/src/middlewares/FREE_RTOS/tasks.c:5296-5321 | a task joins a list behind its own priority and above |
| Queues.PlacedBehindEquals | firmware/src/middlewares/FREE_RTOS/tasks.c:5296-5321 | a task joins a list behind everyone of its own priority or higher and before everyone of a lower one, who keep their order |
| Queues.WokenInTurn | firmware/src/middlewares/FREE_RTOS/queue.c:2497-2614 | a waiter is still waiting after n wake-ups exactly when those ahead of it used them all |
| Queues.WokenEnough | firmware/src/middlewares/FREE_RTOS/queue.c:278-300 | capping a lock counter at the number of tasks loses no wake-up |
| Queues.IsrsConserve | firmware/src/middlewares/FREE_RTOS/queue.c:1160-2130 | whatever interrupts send, overwrite and receive, nothing is lost or invented and the length is never exceeded |
| Queues.FirstInFirstOut | firmware/src/middlewares/FREE_RTOS/queue.c:1160-2130 | over any run of interrupts that send to the back and receive, what is received and then what is left is what was there and then what was sent, in order |
| Queues.FrontComesNext | firmware/src/middlewares/FREE_RTOS/queue.c:2435-2449 | what is sent to the front is received next |
| Queues.OverwriteIsAll | firmware/src/middlewares/FREE_RTOS/queue.c:2450-2473 | what overwrites a queue of one is all that is received from it |
| Queues.IsrsInTurn | firmware/src/middlewares/FREE_RTOS/queue.c:1160-2130 | calls at one point of a task's run and then at a later one add up |
| Queues.FitsIffNeverAsserts | firmware/src/middlewares/FREE_RTOS/queue.c:273-300 | there is room for so many more calls under a lock if and only if the kernel's assertion on the 8-bit counter holds at each of them |
| Queues.Queue.constructor | firmware/src/middlewares/FREE_RTOS/queue.c:303-368 | an empty queue, unlocked, with nobody waiting |
| Queues.Queue.Reset | firmware/src/middlewares/FREE_RTOS/queue.c:303-368 | empties the queue and wakes one sender |
| Queues.Queue.CopyDataToQueue | firmware/src/middlewares/FREE_RTOS/queue.c:2393-2473 | to the back puts the item behind the others, to the front before them, and an overwrite leaves it alone in a queue of one |
| Queues.Queue.CopyDataFromQueue | firmware/src/middlewares/FREE_RTOS/queue.c:2476-2494 | reads the oldest item |
| Queues.Queue.GenericSend | firmware/src/middlewares/FREE_RTOS/queue.c:942-1090 | accepted exactly when there is room or it overwrites; then the item is last, first or the only one, and the first receiver is woken; otherwise nothing changes |
| Queues.Queue.Receive | firmware/src/middlewares/FREE_RTOS/queue.c:1505-1570 | the oldest item leaves and the first sender is woken; an empty queue changes nothing |
| Queues.Queue.Peek | firmware/src/middlewares/FREE_RTOS/queue.c:1880-1945 | the oldest item stays and the next receiver is woken |
| Queues.Queue.SendFromISR | firmware/src/middlewares/FREE_RTOS/queue.c:1160-1329 | the item is last, first or the only one, as for a send; under a lock it is counted instead of waking anybody |
| Queues.Queue.ReceiveFromISR | firmware/src/middlewares/FREE_RTOS/queue.c:2038-2130 | dually |
| Queues.Queue.LockQueue | firmware/src/middlewares/FREE_RTOS/queue.c:258-271 | locks what is not locked and forgets nothing |
| Queues.Queue.UnlockTx | firmware/src/middlewares/FREE_RTOS/queue.c:2497-2582 | wakes exactly min(sends while locked, waiting receivers), highest priority first |
| Queues.Queue.UnlockRx | firmware/src/middlewares/FREE_RTOS/queue.c:2584-2614 | wakes exactly min(receives while locked, waiting senders) |
| Queues.Queue.RunInterrupts | firmware/src/middlewares/FREE_RTOS/queue.c:1160-2130 | any sequence of interrupt calls that never meets the assertion: contents, counters and wake-ups |
| Queues.Queue.BlockToReceive | firmware/src/middlewares/FREE_RTOS/queue.c:1598-1650 | the whole blocking section with interrupts wherever they are enabled: the caller joins the list exactly if its time is not up and it saw the queue empty, gives up exactly if its time is up and the queue is empty at the end, and every send from the lock to the end wakes one receiver while there are any |
| Queues.Queue.BlockToSend | firmware/src/middlewares/FREE_RTOS/queue.c:1107-1157 | dually for a sender, who gives up exactly if its time is up |
| Crc.TableIsEightRounds | firmware/src/system/crc.c:4-37 | each of the 256 entries is eight rounds of the bitwise division by 0xA001 |
| Crc.TableStepIsByteIn | firmware/src/system/crc.c:40-49 | one turn of the loop is eight bits through the register |
| Crc.Crc16Initial | firmware/src/system/crc.c:40-49 | the table loop computes the bit-at-a-time CRC for every start value and length |
| Crc.Crc16Append | firmware/src/system/crc.c:40-49 | a CRC can be continued from where another stopped |
| Crc.CheckValue | firmware/src/system/crc.c:4-49 | over the digits 1 to 9 from 0xFFFF the result is 0x4B37, the check value of CRC-16/MODBUS |
| Crc.RegistersStayApart | firmware/src/system/crc.c:40-49 | different start values give different results on the same data |
| Crc.TwoBytesAreInjective | firmware/src/system/crc.c:4-49 | after two bytes the register determines both of them |
| Crc.TableHighBytes | firmware/src/system/crc.c:4-37 | the high bytes of the table are all different |
| Crc.BurstChangesCrc | firmware/src/system/crc.c:40-49 | a change confined to two adjacent bytes anywhere changes the result |
| Crc.ResidueIsZero | firmware/src/system/crc.c:40-49 | two bytes behind the data give residue 0 exactly when they are its CRC, low byte first |
| Crc.BitsRoundTrip | firmware/src/system/crc.c:40-49 | bytes as numbers and as bits are the same thing |
| Crc.BurstChangesCrcOf | firmware/src/system/include/crc.h:7 | the same for the check value as a half-word |
| Memory.Rev16Swaps | firmware/src/system/memory.c:159-163 | one rev16 on a word exchanges the bytes of both its half-words |
| Memory.Rev16OfLowerHalf | firmware/src/system/memory.c:208-212 | on a half-loaded register the two bytes copied back are right whatever the upper half held |
| Memory.SwappedRegisters | firmware/src/system/memory.c:146-213 | swapping bytes pair by pair is swapping every register separately, in both directions |
| Memory.SwappedTwice | firmware/src/system/memory.c:146-213 | swapping is its own inverse |
| Memory.SwappingTwice | firmware/src/system/memory.c:146-213 | so are the array forms, in place |
| Memory.SwapArrayFast | firmware/src/system/memory.c:146-178 | any number of half-words, odd included, each swapped, nothing else touched |
| Memory.SwapArrayFastSafe | firmware/src/system/memory.c:184-213 | the same at any alignment |
| Memory.SwapAndMove | firmware/src/system/memory.c:221-227 | a half-word stored high byte first, two bytes written |
| Memory.SwapAndMoveUnaligned | firmware/src/system/memory.c:229-238 | two bytes moved and exchanged, whatever the register held |
| Memory.SwapAndMoveTwo | firmware/src/system/memory.c:240-246 | two half-words stored high byte first, four bytes written |
| Memory.ReadAndSwap | firmware/src/system/memory.c:248-255 | a half-word read high byte first |
| Memory.BigAt | firmware/src/system/memory.c:146-213 | where each byte of registers stored high byte first is |
| Memory.SwapAndCompare | firmware/src/system/memory.c:257-263 | true exactly when the bytes are the value high byte first |
| Rs485.CrcOkIffResidueZero | firmware/src/system/rs485.c:725-727 | a frame check succeeds exactly when the CRC over the whole frame is zero |
| Rs485.DamageShows | firmware/src/system/rs485.c:725-727 | a good frame changed in at most two adjacent bytes, its CRC included, fails the check |
| Rs485.EightCoilsAskedAsOne | firmware/src/system/rs485.c:201-222 | an accepted request for eight coils says 1 |
| Rs485.QuantityIffNotBits | firmware/src/system/rs485.c:172-222 | the quantity field of an accepted request holds what was asked for if and only if it is not for coils or discrete inputs, or for one of them |
| Rs485.AcceptedIff | firmware/src/system/rs485.c:168-222 | a request is accepted exactly for slaves up to 247 and for 1 to 2000 bits, 1 to 125 registers, a coil value of 0 or 0xFF00, or any register value |
| Rs485.RefusedAs | firmware/src/system/rs485.c:168-222 | the error of every other request |
| Rs485.RequestBytes | firmware/src/system/rs485.c:201-222 | the eight bytes of a request, one by one |
| Rs485.RequestReads | firmware/src/system/rs485.c:168-222 | what the slave reads from a request is what the master put there |
| Rs485.ExceptionReads | firmware/src/system/rs485.c:514-527 | the master reads an exception frame as the success with that code |
| Rs485.RegistersRead | firmware/src/system/rs485.c:529-597 | the master reads a register frame as exactly those registers |
| Rs485.SlaveAnswers | firmware/src/system/rs485.c:714-821 | in numbers: nothing to a request for another or with a wrong CRC; exception 1 for any function but 3, exception 3 for 0 or more than 125 registers, exception 2 outside 0x4000 to 0x4007; else the registers |
| Rs485.SlaveReports | firmware/src/system/rs485.c:714-821 | in numbers: what the slave reports to its caller in each case |
| Rs485.WrongAnswers | firmware/src/system/rs485.c:315-380 | what the master makes of no answer, of one by another slave and of one for another function |
| Rs485.ExceptionAnswers | firmware/src/system/rs485.c:514-527 | what it makes of an exception |
| Rs485.DataAnswers | firmware/src/system/rs485.c:529-597 | what it makes of an answer to functions 1 to 4, byte by byte: the bounds of the byte count, the CRC, and the data |
| Rs485.EchoAnswers | firmware/src/system/rs485.c:475-512 | what it makes of an answer to functions 5 and 6 |
| Rs485.StatusBytesRead | firmware/src/system/rs485.c:549-580 | the frame a slave would send for functions 1 and 2 hands over its status bytes as they are |
| Rs485.AnyRegistersRead | firmware/src/system/rs485.c:529-547 | the frame a slave would send for functions 3 and 4 hands over its registers in the order of the target |
| Rs485.EchoRead | firmware/src/system/rs485.c:475-512 | the echo a slave would send for functions 5 and 6 hands over the value |
| Rs485.EndToEnd | firmware/src/system/rs485.c:174-821 | every accepted request for functions 1 to 6, delivered to the slave it names, is answered so that the master's check succeeds: exactly the registers, exception 2 out of range, exception 1 for any other function |
| Rs485.RegistersComeBack | firmware/src/system/rs485.c:174-821 | in numbers: whoever asks slave 1 to 247 for registers 0x4000 to 0x4007, as many as there are, gets exactly those |
| Rs485.DamagedRequestIsNotAnswered | firmware/src/system/rs485.c:714-821 | a request damaged in at most two adjacent bytes is never answered, by any slave |
| Rs485.DamagedAnswerIsRefused | firmware/src/system/rs485.c:315-597 | an answer damaged in at most two adjacent bytes is refused if the place where its CRC is looked for stays the same |
| Rs485.DamageBehindTheHeadIsRefused | firmware/src/system/rs485.c:315-597 | so it is refused whenever the damage leaves bytes 1 and 2 alone |
| Rs485.ExceptionIsNoCoil | firmware/src/system/rs485.c:514-527 | no slave has an exception to function 5 whose CRC has a high byte of 0 or 0xFF |
| Rs485.DamagedCoilAnswerIsRefused | firmware/src/system/rs485.c:315-527 | an answer to an accepted request of function 5, damaged in at most two adjacent bytes, is always refused |
| Rs485.FoolsIff | firmware/src/system/rs485.c:315-597 | damage in at most two adjacent bytes can turn an accepted answer into another accepted one exactly when it reaches byte 1, or the byte count of an answer that has one, and never with function 5 |
| Rs485.Master.PrepareToSend | firmware/src/system/rs485.c:24-222 | the eight bytes of the request, or the error the arguments deserve, accepting exactly what `Rs485.AcceptedIff` says |
| Rs485.Master.CheckReceive | firmware/src/system/rs485.c:315-597 | the order of the checks, every error, and the data of a success in the target's byte order |
| Rs485.Master.CheckReceiveRegisters | firmware/src/system/rs485.c:514-547 | byte count, CRC and registers |
| Rs485.Master.CheckReceiveDiscrete | firmware/src/system/rs485.c:549-580 | byte count, CRC and status bytes |
| Rs485.Master.CheckReceiveWriteDiscrete | firmware/src/system/rs485.c:475-512 | echoed address, echoed value and CRC |
| Rs485.Master.CheckReceiveException | firmware/src/system/rs485.c:514-527 | CRC first, then the code |
| Rs485.Slave.SetErrorException | firmware/src/system/rs485.c:690-705 | the five bytes of an exception |
| Rs485.Slave.CopyRegisters | firmware/src/system/rs485.c:781-799 | odd start, pairs and remainder write every addressed register high byte first |
| Rs485.Slave.SetRegisters | firmware/src/system/rs485.c:753-815 | the positive answer, built from the locked copy of the registers |
| Rs485.Slave.SendResp | firmware/src/system/rs485.c:714-821 | address, CRC, function, quantity, range, lock, in that order; silence or exactly the specified bytes |
| Rs485.Deliver | firmware/src/system/rs485.c:174-821 | the same with the answer promised by the end-to-end theorem, over a wire that delivers |
| Rs485.Exchange | firmware/src/system/rs485.c:174-821 | the end-to-end result on the running code of both ends, in numbers: refused exactly as the limits say, otherwise exactly the registers, exception 2 outside 0x4000 to 0x4007, exception 1 for functions 1, 2, 4, 5 and 6 |
| HalUart.StepKeepsInv | firmware/src/system/hal_uart.c:61-453 | one request at a time, and the observed wraps are accounted for, at every handler and poll |
| HalUart.StepCallsBack | firmware/src/system/hal_uart.c:384-453 | a step calls back at most once, only for the request it ends, and within twice its timeout in wraps, one wrap for a timeout of 0 |
| HalUart.EndsLateIff | firmware/src/system/hal_uart.c:384-453 | some run calls back after more wraps than twice the timeout if and only if the timeout is 0 |
| HalUart.StepSpendsPatience | firmware/src/system/time.c:81-102 | every poll that observes a wrap brings the callback nearer |
| HalUart.RunKeepsInv | firmware/src/system/hal_uart.c:61-453 | the invariant holds throughout every run |
| HalUart.OneCallbackEach | firmware/src/system/rs485.c:601-677 | in every run each accepted request but the one under way has had exactly one callback |
| HalUart.CallbackComes | firmware/src/system/hal_uart.c:384-453 | a request under way is called back once polls have observed at most twice its timeout in wraps, whatever the hardware does |
| HalUart.ReportIsToldAs | firmware/src/system/hal_uart.c:384-453 | the poll after a report, with nothing newer to report, calls back 210, 250, 462, 224 and the error flags, or 3 for an idle line, over any run |
| HalUart.TimesOutExactly | firmware/src/system/hal_uart.c:384-453 | with nothing to report since a stage began, a poll calls back exactly if the polls of the stage have seen as many wraps as the timeout, and then with 202 |
| HalUart.StagesBegin | firmware/src/system/hal_uart.c:248-369 | an accepted request and the turned line each begin with the whole timeout and nothing to report |
| HalUart.TurnsAroundAfterSending | firmware/src/system/hal_uart.c:61-147 | the line is turned around only when the timer that a complete transmission starts has run out |
| HalUart.Uart1.NeverBothWays | firmware/src/system/hal_uart.c:248-369 | transmit DMA is never enabled with receive DMA or the receiver, and neither outside a locked transaction |
| HalUart.Uart1.Transmit | firmware/src/system/hal_uart.c:313-369 | nothing to send is fine and does nothing; refused exactly when busy or locked, otherwise set up for sending |
| HalUart.Uart1.Receive | firmware/src/system/hal_uart.c:248-311 | the line turned around for receiving with a fresh timeout |
| HalUart.Uart1.MasterSend | firmware/src/system/rs485.c:637-677 | with the lock free and the request built, transmission is never refused |
| HalUart.Uart1.Dma4Handler | firmware/src/system/hal_uart.c:61-86 | end of transmission starts the turn-around timer; an error is recorded |
| HalUart.Uart1.Dma5Handler | firmware/src/system/hal_uart.c:91-113 | overflow or error is recorded |
| HalUart.Uart1.UsartHandler | firmware/src/system/hal_uart.c:118-134 | an error outranks the idle line |
| HalUart.Uart1.Tim2Handler | firmware/src/system/hal_uart.c:138-147 | reception starts only if the timer really ran out |
| HalUart.Uart1.IsTimeout | firmware/src/system/time.c:87-102 | one wrap of the counter is one unit of the timeout |
| HalUart.Uart1.CallBack | firmware/src/system/rs485.c:601-635 | the lock is free before the caller is told |
| HalUart.Uart1.ProcessTimeEvent | firmware/src/system/hal_uart.c:384-453 | a poll changes line, callbacks and lock as the specified poll does, whose status and time `HalUart.ReportIsToldAs` and `HalUart.TimesOutExactly` give |
| CoRoutines.PlaceOrdered | firmware/src/middlewares/FREE_RTOS/croutine.c:195-204 | a delayed list stays sorted by wake time |
| CoRoutines.PlacedBehindEquals | firmware/src/middlewares/FREE_RTOS/croutine.c:195-204 | an item goes behind everything due no later and before everything due later |
| CoRoutines.AddKeeps | firmware/src/middlewares/FREE_RTOS/croutine.c:172-212 | the list chosen by comparing the wrapped wake time is the right one |
| CoRoutines.AddKeepsIff | firmware/src/middlewares/FREE_RTOS/croutine.c:172-212 | the lists stay well kept if and only if the delay is not 0 |
| CoRoutines.SwappedOutIsEmpty | firmware/src/middlewares/FREE_RTOS/croutine.c:250-260 | the list swapped out when the counter wraps is always empty |
| CoRoutines.TickIsExact | firmware/src/middlewares/FREE_RTOS/croutine.c:238-294 | a tick releases exactly those whose time has come |
| CoRoutines.TickKeeps | firmware/src/middlewares/FREE_RTOS/croutine.c:238-294 | the lists stay well kept across a tick, wrap included |
| CoRoutines.NobodyLost | firmware/src/middlewares/FREE_RTOS/croutine.c:238-294 | a tick takes nobody off the delayed lists but those it releases |
| CoRoutines.WakeKeeps | firmware/src/middlewares/FREE_RTOS/croutine.c:215-235 | an event leaves the delayed lists well kept and the co-routine off them |
| CoRoutines.WakeMembers | firmware/src/middlewares/FREE_RTOS/croutine.c:215-235 | it takes exactly that one off them |
| CoRoutines.LeavesOnTime | firmware/src/middlewares/FREE_RTOS/croutine.c:172-294 | whoever waits for a time stays delayed exactly until then, over any run |
| CoRoutines.StaysDelayed | firmware/src/middlewares/FREE_RTOS/croutine.c:172-294 | delayed by 1 to 65535 ticks and left alone, a co-routine that was not delayed stays delayed exactly until then, over any run |
| CoRoutines.DelayIsExact | firmware/src/middlewares/FREE_RTOS/croutine.c:172-294 | delayed by d >= 1 and left alone, a co-routine leaves at exactly the d-th tick, across any number of wraps |
| CoRoutines.ZeroDelayCanBeLost | firmware/src/middlewares/FREE_RTOS/croutine.c:172-294 | with a delay of 0 at the last tick of a turn the item is swapped out unexpired |
| CoRoutines.ZeroDelay | firmware/src/middlewares/FREE_RTOS/croutine.c:172-294 | a delay of 0 ends at the next tick if and only if the counter does not wrap at it |
| CoRoutines.ZeroDelayTakesTwoTurns | firmware/src/middlewares/FREE_RTOS/croutine.c:172-294 | a delay of 0 at the last tick of a turn is a delay of two whole turns |
| CoRoutines.ReadiedKeeps | firmware/src/middlewares/FREE_RTOS/croutine.c:70-77 | readying a co-routine keeps the ready lists and their recorded top right |
| CoRoutines.ReadiedIsLast | firmware/src/middlewares/FREE_RTOS/croutine.c:70-77 | a co-routine made ready has its turn after every other of its priority but the one whose turn it is, and the others keep theirs |
| CoRoutines.Scheduler.constructor | firmware/src/middlewares/FREE_RTOS/croutine.c:134-138 | nobody is ready or delayed; priorities beyond the highest are brought down to it |
| CoRoutines.Scheduler.AddToReadyQueue | firmware/src/middlewares/FREE_RTOS/croutine.c:70-77 | the co-routine joins the end of its priority's list |
| CoRoutines.Scheduler.Create | firmware/src/middlewares/FREE_RTOS/croutine.c:113-168 | with memory for it a new co-routine joins the ready list of its priority, without memory nothing changes |
| CoRoutines.Scheduler.AddToDelayedList | firmware/src/middlewares/FREE_RTOS/croutine.c:172-212 | the caller leaves the ready lists and waits for now plus its delay |
| CoRoutines.Scheduler.RemoveFromEventList | firmware/src/middlewares/FREE_RTOS/croutine.c:356-382 | the event item at the head moves to the pending list; the answer is whether its owner has at least the current priority |
| CoRoutines.Scheduler.CheckPendingReadyList | firmware/src/middlewares/FREE_RTOS/croutine.c:215-235 | everybody pending becomes ready and nobody else |
| CoRoutines.Scheduler.OneTick | firmware/src/middlewares/FREE_RTOS/croutine.c:238-294 | one tick of the counter on the lists and their owners |
| CoRoutines.Scheduler.CheckDelayedList | firmware/src/middlewares/FREE_RTOS/croutine.c:238-294 | as many ticks as the kernel has counted, modulo the counter |
| CoRoutines.Scheduler.FindTop | firmware/src/middlewares/FREE_RTOS/croutine.c:313-322 | down to the highest list with somebody on it |
| CoRoutines.Scheduler.Schedule | firmware/src/middlewares/FREE_RTOS/croutine.c:297-329 | runs a ready co-routine of the highest ready priority, the next in turn, and nobody if and only if nobody is ready; nobody is lost |
| Lists.InsertionStaysSorted | firmware/src/middlewares/FREE_RTOS/list.c:139-205 | a sorted list stays sorted and a newcomer goes behind its equals |
| Lists.OneTurnEach | firmware/src/middlewares/include/FreeRTOS/list.h:286-297 | in as many turns as there are items each item comes up exactly once |
| Lists.EveryoneElseFirst | firmware/src/middlewares/FREE_RTOS/list.c:105-136 | an item inserted at the end has its turn after every other but the current one |
| Lists.IndexKeepsItem | firmware/src/middlewares/FREE_RTOS/list.c:105-205 | an insertion leaves the index at the item it was at and the others in order |
| Lists.NextAfterRemoval | firmware/src/middlewares/FREE_RTOS/list.c:217-247 | after removing the item whose turn it is, or the next one, the turn goes to the item that followed it; after any other removal to whoever would have had it |
| Lists.RemovalKeepsIndex | firmware/src/middlewares/FREE_RTOS/list.c:217-247 | the item whose turn it is stays the one, unless it is removed |
| Lists.TurnsGoRound | firmware/src/middlewares/include/FreeRTOS/list.h:286-297 | the index goes round, skipping the end marker |
| Lists.LinkIn | firmware/src/middlewares/FREE_RTOS/list.c:121-128 | the four pointers of an insertion |
| Lists.LinkOut | firmware/src/middlewares/FREE_RTOS/list.c:225-226 | the two pointers of a removal |
| Lists.ListItem.constructor | firmware/src/middlewares/FREE_RTOS/list.c:86-99 | an item on no list |
| Lists.List.constructor | firmware/src/middlewares/FREE_RTOS/list.c:49-83 | an empty ring round the end marker |
| Lists.List.InsertEnd | firmware/src/middlewares/FREE_RTOS/list.c:105-136 | just before the index, whichever item that is at |
| Lists.List.FindPlace | firmware/src/middlewares/FREE_RTOS/list.c:192-197 | the search ends, at the first larger value |
| Lists.List.Insert | firmware/src/middlewares/FREE_RTOS/list.c:139-205 | behind the equals, the maximum value included, and sorted stays sorted |
| Lists.List.NextEntry | firmware/src/middlewares/include/FreeRTOS/list.h:286-297 | the next item in turn |
| Lists.List.Remove | firmware/src/middlewares/FREE_RTOS/list.c:217-247 | exactly that item leaves, the index stays on the ring, the length is returned |
| Usb.PacketsHoldTheData | firmware/src/system/hal_usb.c:1812-1837 | the packets of a transfer, joined, are its buffer |
| Usb.OnlyTheLastIsShort | firmware/src/system/hal_usb.c:1812-1837 | every packet but the last is full, and the last is full exactly for a positive multiple |
| Usb.CdcTransferIsDelimited | firmware/src/middlewares/USB_DEVICE/usbd_cdc.c:571-596 | a CDC transfer is its buffer and ends with its only short packet |
| Usb.DataStageIsDelimited | firmware/src/system/hal_usb.c:71-115 | a control data stage is its buffer and ends with a short packet unless the host has all it asked for |
| Usb.ZeroPacketRule | firmware/src/system/hal_usb.c:92-112 | how many packets a CDC transfer and a data stage are, and that the last one is empty exactly for a multiple of 64, in a data stage only below wLength |
| Usb.TransferIsWholeIff | firmware/src/middlewares/USB_DEVICE/usbd_cdc.c:759-788 | what goes out for a CDC buffer is the whole of it if and only if its length has 16 bits |
| Usb.LongTransferIsEmpty | firmware/src/middlewares/USB_DEVICE/usbd_cdc.c:759-788 | of 65536 bytes none goes out: two empty packets do |
| Usb.WritePMA | firmware/src/system/hal_usb.c:1779-1802 | the packet memory holds the bytes, odd lengths included, and nothing else changes |
| Usb.ReadPMA | firmware/src/system/hal_usb.c:1061-1091 | the bytes of the packet memory, odd lengths included, and nothing else changes |
| Usb.WriteThenRead | firmware/src/system/hal_usb.c:1061-1802 | what is written is what is read back |
| Usb.InEndpoint.StartXfer | firmware/src/system/hal_usb.c:1812-1837 | the next packet is the first of what is left |
| Usb.InEndpoint.Transmit | firmware/src/system/hal_usb.c:2056-2076 | a transfer starts with its first packet |
| Usb.Cdc.TransmitPacket | firmware/src/middlewares/USB_DEVICE/usbd_cdc.c:759-788 | fails without class data, busy exactly while a transfer is under way, otherwise started |
| Usb.Cdc.DataIn | firmware/src/middlewares/USB_DEVICE/usbd_cdc.c:571-596 | the class is ready again, or one empty packet follows |
| Usb.Cdc.InComplete | firmware/src/system/hal_usb.c:1287-1352 | each packet taken is the next of the plan, and the class is ready only when all are |
| Usb.Cdc.RunTransfer | firmware/src/middlewares/USB_DEVICE/usbd_cdc.c:571-788 | the host receives exactly the packets of the transfer, and then TxState is 0 |
| Usb.Control.CtlSendData | firmware/src/middlewares/USB_DEVICE/usbd_ioreq.c:12-26 | the data stage begins |
| Usb.Control.DataInStage0 | firmware/src/system/hal_usb.c:71-115 | continue, add the empty packet, or stall the endpoint and turn to the status stage; the OUT endpoint is prepared in each case |
| Usb.Control.InComplete | firmware/src/system/hal_usb.c:1125-1141 | each packet taken is the next of the plan |
| Usb.Control.RunDataStage | firmware/src/system/hal_usb.c:71-1141 | the host receives exactly the packets of the data stage, and one status stage follows |

## Left out

- Heap4.Heap.Free: the block to free is named by a ghost index beside its address; that a caller frees only what it was given is a precondition, as the kernel's assertions make it.
- SysQueueCalls.EnqueueAccepts: the error codes a call returns, and the optional global error handler, are not modelled; a call's outcome is the state of the queue it leaves.
- StreamBuffers.StreamBuffer.constructor: for storage of at most 2 GiB, since beyond that the counts are wrong.
- StreamBuffers.StreamBuffer.Send: never blocks, so trigger levels, task notifications and the wait loop are not modelled.
- StreamBuffers.StreamBuffer.Receive: never blocks either.
- EventGroups.EventGroup.TimeOut: the kernel's timeout itself is a step of the environment; only its effect on the list is modelled.
- Queues.Queue.GenericSend: one pass of the loop by a caller that does not wait; the blocking section is modelled apart, and the timeout's own arithmetic is not.
- Queues.Queue.constructor: for items that have a size; the check that the storage size can be multiplied out is part of creating a queue dynamically and not modelled. The number of tasks is fixed for the life of a queue; the counters only need it not to change while the queue is locked.
- Queues.Queue.RunInterrupts: for runs of calls that do not meet the kernel's assertion on the 8-bit counters; `Queues.FitsIffNeverAsserts` says that its precondition is exactly that.
- Queues.Queue.BlockToReceive: whether the time is up is a parameter, and interrupts between unlocking and the last look at the queue are left to the next section of the caller's run.
- Queues.Queue.Receive: one pass of the loop by a caller that does not wait.
- Queues.Queue.Peek: one pass of the loop by a caller that does not wait.
- Semaphores, mutexes, priority inheritance, recursive mutexes and queue sets: items here have a size and a queue has no container.
- Items of a queue are values of one type; copying them byte by byte is not modelled.
- Rs485.Master.PrepareToSend: not for functions 15, 16 and 23, whose size macros put the CRC on the last two bytes of the payload, so that no framing result holds.
- Rs485.Master.CheckReceive: not for functions 15, 16 and 23 either.
- Rs485.Slave.SendResp: how long the wait for the register area's lock takes is a parameter, had in time or not.
- Rs485.Exchange: the wire delivers every byte; losing or damaging bytes is what the CRC results are about.
- Memory.SwapArrayFastSafe: the 32-bit length conversion is not modelled, and an unaligned access that the plain form would make is taken to work as it does on the target.
- HalUart.Uart1.Transmit: tries the lock once instead of for up to 1 ms.
- HalUart.Uart1.CallBack: hands over the status it is called with; what the check of the answer makes of it is in the Modbus module.
- HalUart.Uart1.MasterSend: the wait of up to 50 ms for the lock is other steps happening first; building the request is a parameter, and so is how the check of the answer ends.
- HalUart.Uart1.Dma4Handler: the channel interrupts only while it is enabled, and the interrupt-enable bits of the USART are not modelled since its interrupts may come at any time.
- Interrupt handlers and polls are single steps; what happens inside one is not interleaved.
- CoRoutines.AddKeeps: for delays of at least 1, since a delay of 0 breaks what it keeps, as `CoRoutines.AddKeepsIff` says; zero has the results named above.
- CoRoutines.Scheduler.AddToDelayedList: for delays of at least 1, which is what every caller in the repository passes.
- CoRoutines.Scheduler.CheckDelayedList: interrupts that ready a co-routine come between calls, not inside the loop.
- CoRoutines.Scheduler: its lists are values with the behaviour that the list module proves of the pointers; creation by the allocator and the co-routine functions themselves are not modelled.
- Lists.List.Remove: the item's place is named by a ghost index.
- Integrity-check bytes of lists, heap canaries and the heap protector are switched off in this configuration.
- Usb.WritePMA: the stride of the packet memory is abstracted to one half-word a slot.
- Usb.Cdc.RunTransfer: class data are there throughout, the buffer does not change while it is being sent, and the endpoint is single-buffered; double buffering, isochronous endpoints and the OUT direction are not modelled.
- Usb.Control.CtlSendData: the trimming of a descriptor to wLength happens before this call and is not modelled; a new SETUP packet in the middle of a data stage is not either.
- Register setup, clocks, GPIO, I2C, ADC, the display, the watchdog and the port's assembly: hardware effects only.
- The scheduler of the kernel, the slave's UART 2 driver, the console, USB descriptors, the one-slot process table, date conversion and number formatting: they would add easy members or depend on the C library.
