# Proofs about the RISC-V simulator and the kernel it runs

This project models two parts of the repository in Dafny and proves what they promise.

**The FreeRTOS kernel structures** under `tests/FreeRTOS`.

- `HeapModel.dfy` says what the heap means: a tiling of the aligned area by free and allocated blocks. `Heap4.dfy` is
  `heap_4.c` at work on memory words, each function proved to compute that meaning. The main results are over whole
  runs: the tiling, the address order, the absence of touching free blocks and the counters always hold, and when
  everything has been freed the heap is again the block it started with. No call changes a word of another live block.
- `ListModel.dfy` says what a kernel list means, a sequence with a round-robin cursor; `KernelList.dfy` is the linked
  ring of `list.c` and `list.h`.
- `QueueRing.dfy` is the byte ring of `queue.c`, proved to be a bounded double-ended sequence. `QueueLocks.dfy` is the
  lock-count protocol between tasks and interrupt handlers as a state machine over its events. `RecursiveMutex.dfy`
  lets the calls of any number of tasks interleave at every access to the mutex.
- `TimerModel.dfy` and `TimerDaemon.dfy` say what software timers mean in unbounded time: one timeline in order of
  expiry, worked off by the service task. `Timers.dfy` is `timers.c` with its two lists of 32-bit expiry times, proved
  to be that timeline through every wrap of the tick count.

**The instruction set simulator** under `inc` and `src`, for RV32 unless stated otherwise.

- `MemoryBus.dfy` is the path of a data access through MemoryInterface, BusCtrl and Memory.
- `BaseIsa.dfy` and `CompressedIsa.dfy` are the two implementations of the integer instructions; `Expansion.dfy`
  assembles what each 16-bit word stands for, from sections 2.3 and 16.3 to 16.8 of the RISC-V Unprivileged ISA
  (version 20191213), and proves that executing the one equals executing the other. `Rv32.dfy` is the cascade of
  decoders and one processor step. `Words.dfy` says what the arithmetic means on integers.
- `Assembly.dfy` and `Compression.dfy` assemble the 32-bit and the 16-bit words from operands, and prove that the
  decoders find them again. `Meaning.dfy` says, in numbers, bits and bytes, what one step of the processor on each
  assembled word leaves behind.
- `MExtension.dfy` is the multiplications (RV32 and RV64) and the RV32 divisions; `AExtension.dfy` is the LR.W / SC.W
  reservation protocol.
- `RegisterBank.dfy`, `MUnits.dfy` and `Hart.dfy` are the processor as it runs, one method per instruction, each doing in
  place what its function says. The rows of these handlers are the bridge from the code to `Hart.Cpu.CpuStep` and to
  the lemmas about the functions, and no results of their own.

`Arithmetic.dfy` holds facts about division by a variable, `Wrappers.dfy` the option type. Machine integers are
modelled with their width: wrapping is written out wherever the code can wrap. Each imperative class comes with a
specification function or datatype, its methods are proved against it, and the properties are lemmas about it.
`dafny verify dfyconfig.toml` checks everything.

## Where the code and its promises part

Each of these is proved, with the exact condition under which the promise holds and, unless the condition is that
input, an input that breaks it.

- An overwriting send to a full queue of size-0 items counts a second item (`QueueRing.StoredAsMeant`,
  `QueueRing.OverwriteOverfillsSemaphore`).
- The `int8_t` lock counts wrap: 128 interrupts in one window lose all wake-ups, 256 reach the event list of a locked
  queue (`QueueLocks.WakesExactly`, `QueueLocks.LeftAloneExactly`, `QueueLocks.BlockedReceiverMissesWake`).
- The recursive mutex count wraps at 2^32 nested takes (`RecursiveMutex.RunExactly`,
  `RecursiveMutex.WrapIsReachable`).
- A timer command older than 2^32 ticks can be taken for current (`TimerModel.OldCommandExactly`,
  `TimerModel.OldCommandMisjudged`). Switching the timer lists fails its assertion when more timers reload than the
  command queue has room for (`TimerDaemon.SampleSucceedsExactly`, `TimerDaemon.FiveReloadsFail`). A one-shot timer
  that expires during the switch, or through a late start command, stays marked active although `timers.h` calls it
  dormant (`TimerDaemon.OneShotIsDormantExactly`, `TimerDaemon.OneShotStaysActive`).
- Reads above main memory, from the trace device, and from inside the timer registers return stale buffer contents
  without an error. From the to-host address up a read is reported as an error, by SystemC's default action an
  exception, and returns nothing (`MemoryBus.LoadIsDeterminedExactly`, `MemoryBus.DeviceLoadIsStale`).
- The decoder cascade and `check_extension` disagree on some M and A words, and on every undecodable base or compressed
  word, many of which run as multiplications or AMOs (`Rv32.CascadeAgreesExactly`, `Rv32.CascadeExactly`,
  `Rv32.Op32TakenForAmo`, `Rv32.BranchTakenForAmo`).
- What lies behind a 16-bit word matters in three cases. It reaches the trap value of the illegal C.ADDI4SPN; it names
  operands of a reserved word that runs as a multiplication or division; and it decides whether A takes any other
  reserved word (`Rv32.DecodedUpperHalfExactly`, `Rv32.UpperHalfMattersExactly`, `Rv32.ReservedTakers`, with the words
  of `Rv32.UpperHalfReachesTrapValue`, `Rv32.UpperHalfChangesProduct` and `Rv32.UpperHalfChangesTaker`).
- DIVUW on RV32 takes 0x80000000 by 0xffffffff for the overflow of a signed division (`MExtension.WideFormsExactly`).
- An illegal LR.W continues four bytes past the trap vector (`AExtension.IllegalReserveSkipsVector`).
- An item added by vListInsertEnd is not always the last one visited, as its comment says: the item the cursor rests on
  comes after it (`ListModel.AddedIsLastExactly`, `ListModel.AddedIsNotLast`, `ListModel.PlaceOfAdded`).
- C.EBREAK reports a breakpoint to the simulator and EBREAK does not, so executing a compressed word is executing its
  expansion in everything exactly for the other instructions (`Expansion.ExpansionIsExactly`), and for C.EBREAK in the
  processor state (`Expansion.CompressedRefinesBase`).

## Model

| member | source | states |
|---|---|---|
| HeapModel.LiveBlocksAreDisjoint | tests/FreeRTOS/heap_4.c:113-308 | two different live blocks never overlap, in any well-formed tiling |
| HeapModel.Conservation | tests/FreeRTOS/heap_4.c:113-308 | free bytes plus allocated bytes are always the whole heap up to pxEnd |
| HeapModel.FitsInSum | tests/FreeRTOS/heap_4.c:161 | no block can be larger than the free-byte counter says is left |
| HeapModel.Canonical | tests/FreeRTOS/heap_4.c:362-435 | two coalesced tilings of the same heap with the same allocated blocks are equal: coalescing gives a canonical form |
| HeapModel.RoundedExact | tests/FreeRTOS/heap_4.c:137-153 | adding the header and aligning never wraps for a request whose top bit is clear, and gives the least aligned size that holds both |
| HeapModel.MallocFailsExactly | tests/FreeRTOS/heap_4.c:135-232 | NULL is returned, and nothing changes, exactly for a request of 0, with the top bit set, or that no single free block holds |
| HeapModel.MallocSucceeds | tests/FreeRTOS/heap_4.c:166-232 | otherwise the lowest fitting block is used, with slack at most heapMINIMUM_BLOCK_SIZE, and every other allocation stays as it was |
| HeapModel.MallocSplitsExactly | tests/FreeRTOS/heap_4.c:137-219 | which block a successful call takes and how much of it: with w the request plus 8 bytes, rounded up to a multiple of 4, the lowest block of at least w bytes, split into w bytes and a free rest exactly if it is more than 16 bytes too large, and given whole otherwise |
| HeapModel.FreeLive | tests/FreeRTOS/heap_4.c:263-308 | freeing a live block keeps the tiling well-formed, returns exactly its bytes and touches no other allocation |
| HeapModel.FreeUndoesMalloc | tests/FreeRTOS/heap_4.c:263-308 | freeing what was just allocated gives back the same heap |
| HeapModel.FreesCommute | tests/FreeRTOS/heap_4.c:377-435 | the order in which two live blocks are freed does not matter |
| HeapModel.ApplyKeeps | tests/FreeRTOS/heap_4.c:113-308 | each allocation or free of a live block keeps the tiling, the ordering and the absence of touching free blocks |
| HeapModel.RunKeeps | tests/FreeRTOS/heap_4.c:113-308 | the same over every run of allocations and frees of live blocks |
| HeapModel.AllFreedIsInitial | tests/FreeRTOS/heap_4.c:362-435 | after any run that has freed everything, in any order, the heap is again the single block prvHeapInit created |
| Heap4.Heap.constructor | tests/FreeRTOS/heap_4.c:90-108 | a heap area before its first use |
| Heap4.Heap.Bounds | tests/FreeRTOS/heap_4.c:336-358 | the aligned start of the heap and the place of pxEnd in front of its end |
| Heap4.Heap.Init | tests/FreeRTOS/heap_4.c:329-374 | prvHeapInit writes xStart, pxEnd, one free block between them and both counters |
| Heap4.Heap.Format | tests/FreeRTOS/heap_4.c:346-370 | the headers written for the one free block and pxEnd |
| Heap4.Heap.Locate | tests/FreeRTOS/heap_4.c:382-387 | the walk stops at the last free block below the block to insert |
| Heap4.Heap.Link | tests/FreeRTOS/heap_4.c:390-434 | the writes that merge the block with the free neighbours it touches and link it |
| Heap4.Heap.LinkBetween | tests/FreeRTOS/heap_4.c:390-434 | those writes turn the memory of the old tiling into the memory of the released one |
| Heap4.Heap.InsertBlock | tests/FreeRTOS/heap_4.c:377-435 | prvInsertBlockIntoFreeList releases the block: the free list in memory is that of the merged tiling |
| Heap4.Heap.Search | tests/FreeRTOS/heap_4.c:163-171 | the walk finds the first fitting free block and its predecessor, or pxEnd |
| Heap4.Heap.Take | tests/FreeRTOS/heap_4.c:175-219 | unlinking the block found, and splitting it when the rest is large enough, is Carve on the tiling |
| Heap4.Heap.Split | tests/FreeRTOS/heap_4.c:187-203 | a rest above heapMINIMUM_BLOCK_SIZE is given a header and released again |
| Heap4.Heap.Mark | tests/FreeRTOS/heap_4.c:220-223 | the block is marked allocated and loses its link |
| Heap4.Heap.Allocate | tests/FreeRTOS/heap_4.c:161-232 | the body of pvPortMalloc for a rounded size: first fit, with both free-byte counters kept |
| Heap4.Heap.Malloc | tests/FreeRTOS/heap_4.c:113-260 | pvPortMalloc on the memory words computes the meaning of allocation, pointer and minimum-ever counter included, and changes no word of any live block |
| Heap4.Heap.Reclaim | tests/FreeRTOS/heap_4.c:287-295 | clearing the allocated bit and inserting the block releases it, and the counter grows by its size |
| Heap4.Heap.Free | tests/FreeRTOS/heap_4.c:263-308 | vPortFree on the memory words computes the meaning of freeing, for NULL and for live blocks, and changes no word of any other live block |
| Heap4.Heap.Store | tests/FreeRTOS/heap_4.c:218-223 | an application that writes inside a live block leaves the heap valid and changes no other word |
| Heap4.WritesInside | tests/FreeRTOS/heap_4.c:382-434 | writes inside free blocks and the block being freed leave header and payload of all other live blocks alone |
| Heap4.InsertionUntouched | tests/FreeRTOS/heap_4.c:377-435 | so does the insertion of a block into the free list |
| Heap4.PayloadHasNoLinks | tests/FreeRTOS/heap_4.c:218-223 | a write into the payload of a live block reaches no header the allocator reads |
| ListModel.InsertKeepsSorted | tests/FreeRTOS/list.c:103-167 | inserting by value keeps a list sorted, for every value including portMAX_DELAY |
| ListModel.InsertIsStable | tests/FreeRTOS/list.c:114-155 | among equal values the new item comes last and all others keep their order |
| ListModel.StableOrderIsUnique | tests/FreeRTOS/list.c:103-167 | sortedness and stability determine the list |
| ListModel.StepRotates | tests/FreeRTOS/list.h:277-288 | one step of listGET_OWNER_OF_NEXT_ENTRY visits the head of the rotation and moves it to the back |
| ListModel.VisitsFollowRotation | tests/FreeRTOS/list.h:277-288 | the i-th of any number of steps visits the item at position i modulo the length |
| ListModel.RoundIsFair | tests/FreeRTOS/list.h:277-288 | any n consecutive steps on an n-item list visit every item exactly once, in the order of the rotation |
| ListModel.StepsTurnRotation | tests/FreeRTOS/list.h:277-288 | however many steps are taken, they turn the rotation by their number modulo the length |
| ListModel.StepsMoveCursor | tests/FreeRTOS/list.h:277-288 | where the cursor stands after any number of steps, skipping the end marker at every wrap |
| ListModel.RoundComesBack | tests/FreeRTOS/list.h:277-288 | a round of n steps leaves the order of visits as it was, and brings the cursor back exactly if it did not stand on the end marker |
| ListModel.PlaceOfAdded | tests/FreeRTOS/list.c:74-101 | an item added by vListInsertEnd is visited directly before the item the cursor is on, and moves nothing else |
| ListModel.AddedIsLastExactly | tests/FreeRTOS/list.c:84-98 | an item added by vListInsertEnd is the last one visited, as the comment there says, exactly if the cursor is on the end marker |
| ListModel.AddedIsNotLast | tests/FreeRTOS/list.c:84-98 | the input that shows it: 2 is added while the cursor is on the only item 1, and visited first |
| ListModel.DropKeepsRotation | tests/FreeRTOS/list.c:170-196 | removing an item, even the cursor's, leaves the rotation of the others |
| ListModel.DropUndoesAdd | tests/FreeRTOS/list.c:103-196 | removing a just inserted item restores items and cursor |
| ListModel.DropUndoesAddBeforeCursor | tests/FreeRTOS/list.c:74-196 | the same for an item added by vListInsertEnd |
| ListModel.RemoveUndoesInsert | tests/FreeRTOS/list.c:103-196 | removing the item at the place of an insertion restores the sequence |
| KernelList.ListItem.constructor | tests/FreeRTOS/list.c:62-71 | vListInitialiseItem: a new item is in no list |
| KernelList.List.constructor | tests/FreeRTOS/list.c:37-60 | vListInitialise gives the empty ring around the end marker |
| KernelList.List.LinkBefore | tests/FreeRTOS/list.c:87-99 | the four pointer writes put the item into the ring before the cursor's node |
| KernelList.List.InsertEnd | tests/FreeRTOS/list.c:74-101 | vListInsertEnd adds before the cursor, keeping next and previous mutually inverse, the count and the containers |
| KernelList.List.FindPlace | tests/FreeRTOS/list.c:122-155 | the search loop ends for every value, behind every item that is not larger |
| KernelList.List.LinkBehind | tests/FreeRTOS/list.c:157-166 | the pointer writes put the item behind the node found |
| KernelList.List.Insert | tests/FreeRTOS/list.c:103-167 | vListInsert is the stable sorted insert, on the linked ring |
| KernelList.List.GetOwnerOfNextEntry | tests/FreeRTOS/list.h:277-288 | the macro advances the cursor by one step, skipping the end marker, and returns the owner |
| KernelList.List.Unlink | tests/FreeRTOS/list.c:176-177 | the two pointer writes take the item out of the ring |
| KernelList.List.Detach | tests/FreeRTOS/list.c:182-195 | the cursor, the container and the count after a removal |
| KernelList.ListRemove | tests/FreeRTOS/list.c:170-196 | uxListRemove removes the item from the list that contains it, returns the number left, and clears pxContainer, so that pxContainer still names a list exactly for its members |
| KernelList.ListInsert | tests/FreeRTOS/list.c:103-167 | vListInsert keeps pxContainer equal to a list exactly for its members, over all items and lists |
| KernelList.ListInsertEnd | tests/FreeRTOS/list.c:74-101 | vListInsertEnd keeps the same |
| KernelList.OneList | tests/FreeRTOS/list.c:99-166 | so no item is in two lists |
| QueueRing.StoredAsMeant | tests/FreeRTOS/queue.c:2070-2146 | a send leaves what its position means, except exactly when it overwrites the item of a full queue of size-0 items |
| QueueRing.StoredKeepsBound | tests/FreeRTOS/queue.c:2070-2146 | and keeps the queue within its length under exactly the same condition |
| QueueRing.OverwriteOverfillsSemaphore | tests/FreeRTOS/queue.c:2070-2146 | the input that shows it: overwriting a given binary semaphore counts two |
| QueueRing.FirstInFirstOut | tests/FreeRTOS/queue.c:747-1392 | over every run of sends to the back and receives, items are received in the order sent |
| QueueRing.NothingLost | tests/FreeRTOS/queue.c:747-1392 | over every run of sends to any position and receives, what was there and what was sent is what was received, replaced by overwriting, or is still there |
| QueueRing.ItemMeetsFate | tests/FreeRTOS/queue.c:747-1392 | over every such run the queue is a double-ended queue: where each item ends up follows from the positions of the sends alone |
| QueueRing.RunKeepsBound | tests/FreeRTOS/queue.c:747-1392 | over every such run the queue keeps its length, if no queue of size-0 items is overwritten |
| QueueRing.FillsUp | tests/FreeRTOS/queue.c:774-835 | a queue of length n takes exactly as many sends to the back as it has room for, in order |
| QueueRing.PlaceIsModular | tests/FreeRTOS/queue.c:2096-2146 | the compare-and-reset of the pointers is addition modulo the queue length |
| QueueRing.PlacesDiffer | tests/FreeRTOS/queue.c:2096-2146 | different items never share a slot |
| QueueRing.Queue.WriteSlot | tests/FreeRTOS/queue.c:2096-2164 | pcWriteTo stays at slot (read slot + 1 + messages) mod length through all wraps |
| QueueRing.Queue.constructor | tests/FreeRTOS/queue.c:429-470 | a new queue is empty, with its pointers as reset |
| QueueRing.Queue.Reset | tests/FreeRTOS/queue.c:255-272 | the pointer part of xQueueGenericReset empties the queue |
| QueueRing.Queue.CopyToBack | tests/FreeRTOS/queue.c:2096-2107 | a send to the back appends the item's bytes and moves pcWriteTo on, wrapping at pcTail |
| QueueRing.Queue.CopyToFront | tests/FreeRTOS/queue.c:2108-2119 | a send to the front prepends and moves pcReadFrom back, wrapping below pcHead |
| QueueRing.Queue.CopyDataToQueue | tests/FreeRTOS/queue.c:2070-2146 | prvCopyDataToQueue on the byte storage refines the sequence, for all positions and item sizes |
| QueueRing.Queue.CopyDataFromQueue | tests/FreeRTOS/queue.c:2149-2164 | prvCopyDataFromQueue copies out the first item and moves pcReadFrom onto it |
| QueueRing.Queue.Send | tests/FreeRTOS/queue.c:774-835 | a send on the byte storage is the step of those runs, and succeeds exactly when there is room or it overwrites |
| QueueRing.Queue.Receive | tests/FreeRTOS/queue.c:1301-1332 | a receive is the step of those runs: it pops the first item, or reports an empty queue |
| QueueRing.Queue.Peek | tests/FreeRTOS/queue.c:1660-1676 | a peek returns the first item and puts the read pointer back |
| QueueLocks.SignalsCount | tests/FreeRTOS/queue.c:1085-1090 | up to 127 signals of a locked half only count |
| QueueLocks.SignalsExactly | tests/FreeRTOS/queue.c:988-1102 | every number of signals of a locked half: the int8_t count wraps and after 255 reads as unlocked |
| QueueLocks.LeftAloneExactly | tests/FreeRTOS/queue.c:1006-1090 | the event list is left alone exactly up to 255 signals, or when nobody waits |
| QueueLocks.WakesExactly | tests/FreeRTOS/queue.c:2167-2284 | unlocking has woken one task per signal exactly under the bound Suffices (127 signals, or few waiters) |
| QueueLocks.WrappedCountLosesWakes | tests/FreeRTOS/queue.c:2179-2246 | the input that shows it: 128 posts in one window wake nobody |
| QueueLocks.WindowCounts | tests/FreeRTOS/queue.c:988-1102 | under every interleaving, with tasks joining, and at most 255 posts (receives), the count is their number as an int8_t and no task leaves that event list |
| QueueLocks.InterruptsSignal | tests/FreeRTOS/queue.c:988-1102 | interrupt handlers signal each half once per successful call, without any bound |
| QueueLocks.SecondLockKeepsCount | tests/FreeRTOS/queue.c:240-252 | locking again keeps the count exactly up to 254 signals |
| QueueLocks.ItemsFollow | tests/FreeRTOS/queue.c:988-1102 | over every run, locked or not, the items are those of the same run of sends and receives on the byte ring's queue |
| QueueLocks.WindowWakesExactly | tests/FreeRTOS/queue.c:240-252 | a window in which the locking task does not block: each half of unlocking wakes one task per post or receive, interrupts between the halves included, exactly under Suffices |
| QueueLocks.WindowOwesExactly | tests/FreeRTOS/queue.c:2167-2248 | in any window of at most 255 posts, whoever joins the lists and whenever, unlocking wakes one receiver per post exactly if the int8_t count has not wrapped or nobody waits |
| QueueLocks.WindowOwesSendersExactly | tests/FreeRTOS/queue.c:2167-2284 | the same for senders and receives, those between the two halves of unlocking included |
| QueueLocks.JoinedExactly | tests/FreeRTOS/queue.c:2167-2284 | a task that joins an event list between p and q signals: exactly the first so many tasks of the list are woken, without any bound on p and q |
| QueueLocks.BlockedReceiverExactly | tests/FreeRTOS/queue.c:1363-1391 | a receiver that locks, joins the event list and unlocks, with any numbers of posts before and after it joins: who is left, whether it is woken itself, and whether one task was woken per post, each exactly |
| QueueLocks.BlockedSenderExactly | tests/FreeRTOS/queue.c:909-935 | the same for a sender, receives between the two halves of unlocking included |
| QueueLocks.BlockedReceiverMissesWake | tests/FreeRTOS/queue.c:2167-2246 | the input that shows a missed post: a receiver joins the list of an empty queue, 128 posts follow, and it stays blocked beside 128 items |
| QueueLocks.CountsConcat | tests/FreeRTOS/queue.c:988-1102 | posts and receives add up over consecutive stretches of a run |
| QueueLocks.ItemsBounded | tests/FreeRTOS/queue.c:988-1102 | only posts add items and only receives remove them |
| QueueLocks.NoPostMissed | tests/FreeRTOS/queue.c:1363-1391 | after a window of at most 255 posts in which a receiver saw the queue empty, nobody is left waiting beside more items than receivers were woken, exactly if the int8_t count has not wrapped, or nobody waited, or no item is left |
| QueueLocks.NoReceiveMissed | tests/FreeRTOS/queue.c:909-935 | the same for a sender that saw the queue full, receives between the two halves included |
| QueueLocks.LockedQueue.constructor | tests/FreeRTOS/queue.c:429-470 | a new queue is unlocked with empty event lists |
| QueueLocks.LockedQueue.Reset | tests/FreeRTOS/queue.c:255-306 | xQueueGenericReset unlocks, empties, wakes one sender and leaves receivers blocked |
| QueueLocks.LockedQueue.LockQueue | tests/FreeRTOS/queue.c:240-252 | prvLockQueue locks each unlocked half |
| QueueLocks.LockedQueue.SendFromISR | tests/FreeRTOS/queue.c:988-1102 | xQueueGenericSendFromISR stores the item and wakes or counts; no task is lost between event list and ready list |
| QueueLocks.LockedQueue.ReceiveFromISR | tests/FreeRTOS/queue.c:1806-1866 | xQueueReceiveFromISR pops the first item and wakes or counts |
| QueueLocks.LockedQueue.UnlockTxHalf | tests/FreeRTOS/queue.c:2174-2248 | the first loop wakes the recorded number of receivers, or all, in list order, and unlocks |
| QueueLocks.LockedQueue.UnlockRxHalf | tests/FreeRTOS/queue.c:2250-2283 | the second loop does the same for senders |
| QueueLocks.LockedQueue.UnlockQueue | tests/FreeRTOS/queue.c:2167-2284 | prvUnlockQueue without interrupts between its critical sections |
| QueueLocks.LockedQueue.PlaceReceiver | tests/FreeRTOS/queue.c:1371-1375 | a blocking receiver enters the event list at the place its priority gives it |
| QueueLocks.LockedQueue.PlaceSender | tests/FreeRTOS/queue.c:915-925 | a blocking sender does the same |
| RecursiveMutex.StepExactly | tests/FreeRTOS/queue.c:596-686 | every single access of a take or give keeps the mutex invariant, except exactly the one that wraps the 32-bit count |
| RecursiveMutex.RunExactly | tests/FreeRTOS/queue.c:596-686 | over every interleaving of all tasks' accesses the invariant holds throughout exactly if nobody nests 2^32 deep |
| RecursiveMutex.InitialInv | tests/FreeRTOS/queue.c:473-496 | it holds after prvInitialiseMutex, for any number of tasks |
| RecursiveMutex.BoundaryState | tests/FreeRTOS/queue.c:596-686 | at a call boundary one message iff no holder iff count 0, and the count is the holder's takes minus gives, which is 0 for all others |
| RecursiveMutex.WrapBreaksBoundary | tests/FreeRTOS/queue.c:664-667 | after the wrap the mutex is held with count 0 |
| RecursiveMutex.TakesNest | tests/FreeRTOS/queue.c:651-686 | n takes of one task lead from the initial state to nesting n, for every n |
| RecursiveMutex.WrapIsReachable | tests/FreeRTOS/queue.c:664-682 | the input that shows the wrap: after 2^32 takes the mutex is held with count 0 |
| RecursiveMutex.MutualExclusion | tests/FreeRTOS/queue.c:596-686 | only the holder has taken more often than given, or is at an access that changes the count |
| RecursiveMutex.OthersGiveNothing | tests/FreeRTOS/queue.c:610-644 | the give of a task that is not the holder changes nothing, wherever the other tasks are in their calls |
| RecursiveMutex.HolderUndisturbed | tests/FreeRTOS/queue.c:604-686 | no access by another task changes the mutex while it is held |
| RecursiveMutex.CallsAreRuns | tests/FreeRTOS/queue.c:596-686 | an uninterrupted call is the interleaving in which one task runs alone |
| RecursiveMutex.GivesUndoTakes | tests/FreeRTOS/queue.c:596-686 | for every n below 2^32, n takes in a row succeed, up to n gives after them succeed, and with as many gives as takes the mutex is back at one message and no holder |
| RecursiveMutex.HeldAgainstOthers | tests/FreeRTOS/queue.c:596-686 | a take without block time and a give by another task fail and change nothing |
| RecursiveMutex.Semaphore.constructor | tests/FreeRTOS/queue.c:473-496 | prvInitialiseMutex leaves one message, no holder and count 0 |
| RecursiveMutex.Semaphore.Send | tests/FreeRTOS/queue.c:2079-2087 | the send that returns a mutex clears the holder |
| RecursiveMutex.Semaphore.SemaphoreTake | tests/FreeRTOS/queue.c:1446-1473 | the critical section of xQueueSemaphoreTake records the holder |
| RecursiveMutex.Semaphore.TakeMutexRecursive | tests/FreeRTOS/queue.c:651-686 | xQueueTakeMutexRecursive without block time is TakeCall |
| RecursiveMutex.Semaphore.GiveMutexRecursive | tests/FreeRTOS/queue.c:596-645 | xQueueGiveMutexRecursive is GiveCall |
| TimerModel.RouteExactly | tests/FreeRTOS/timers.c:668-706 | on tick counts modulo 2^32: expired exactly when c+p <= n, else the current list exactly in the same wrap epoch and the overflow list exactly in the next |
| TimerModel.OldCommandExactly | tests/FreeRTOS/timers.c:675-703 | for commands of any age the verdict is right exactly when the age is below 2^32 or its residue is at least the period |
| TimerModel.OldCommandMisjudged | tests/FreeRTOS/timers.c:675-703 | the input that shows it: a command of age 2^32 with period 10 is listed as still running |
| TimerModel.SeenExactly | tests/FreeRTOS/timers.c:668-706 | a tick count is taken for its own time exactly if that is less than 2^32 ticks ago |
| TimerModel.DrainInOrder | tests/FreeRTOS/timers.c:857-908 | alarms go off in order of expiry, all before the wrap, and all that is left is later |
| TimerModel.ExpiriesAre | tests/FreeRTOS/timers.c:880-900 | a one-shot timer expires once, a reloading one once for each e + k*period below the limit |
| TimerModel.DrainConserves | tests/FreeRTOS/timers.c:857-908 | what goes off is exactly those expiries, each as often as due, with one restart per reloading timer, at its last expiry |
| TimerModel.RestartsCounted | tests/FreeRTOS/timers.c:893-900 | the number of restarts is the number of reloading timers listed for before the limit |
| TimerModel.DrainLeavesLater | tests/FreeRTOS/timers.c:910-913 | alarms of the next epoch are not touched |
| TimerDaemon.DrainOf | tests/FreeRTOS/timers.c:857-908 | what switching lists does to one timer: its expiries, its restart or its removal |
| TimerDaemon.StepKeeps | tests/FreeRTOS/timers.c:523-855 | every step of the daemon keeps the timeline in order, with no timer listed twice |
| TimerDaemon.TimerIsCalledOnTime | tests/FreeRTOS/timers.c:482-913 | over every run, wraps included, a reloading timer is called for x, x+period, ... and nothing else; a one-shot timer at most once, for its expiry |
| TimerDaemon.CalledExactlyWhenDue | tests/FreeRTOS/timers.c:482-913 | when a run up to time n leaves no command to carry out and nothing due by n, the timer has been called for its k-th expiry x + k*period exactly if that is no later than n: none is missed and none is early |
| TimerDaemon.ChangePeriodMeans | tests/FreeRTOS/timers.c:807-822 | a new period p taken up at time n: the timer is active with period p, expires next at n + p, and is not called meanwhile |
| TimerDaemon.StopMeans | tests/FreeRTOS/timers.c:801-805 | a timer that is stopped or deleted is inactive, in no list, and not called |
| TimerDaemon.StartMeans | tests/FreeRTOS/timers.c:770-798 | a timer started at time t expires at t + period: it is listed for then, or called for it at once if that has come, and restarted if it reloads |
| TimerDaemon.CommandedTimerIsCalledOnTime | tests/FreeRTOS/timers.c:709-854 | over every run that begins with a command and has no other for that timer: a reloading timer is called for x, x + period, ... and nothing else, with x the expiry and period the command asks for; a one-shot timer at most once, for x; a stopped or deleted one never |
| TimerDaemon.CommandedTimerCalledExactlyWhenDue | tests/FreeRTOS/timers.c:709-854 | so after a start at t, or a new period at n, the k-th callback comes for t (n) + (k + 1) * period exactly when that is due |
| TimerDaemon.PostMeans | tests/FreeRTOS/timers.c:381-421 | a command waits in the queue exactly if there is room for it, and is taken up first if nothing waited |
| TimerDaemon.ReceiveSucceedsExactly | tests/FreeRTOS/timers.c:767-822 | taking up a command fails an assertion exactly for a new period of 0, or if the queue has no room for the restarts of a wrap and of a reloading timer started too late |
| TimerDaemon.ProcessSucceedsExactly | tests/FreeRTOS/timers.c:482-519 | processing does exactly if the queue has no room for the restarts of a wrap, or is full when an expiry comes a whole period late |
| TimerDaemon.ProcessMeans | tests/FreeRTOS/timers.c:559-642 | processing calls the timer at the head if its expiry has come, and noticing a wrap leaves nothing that was due before it |
| TimerDaemon.CallbacksAreNow | tests/FreeRTOS/timers.c:482-913 | every callback of a step is made at the time of that step, after all earlier ones |
| TimerDaemon.QueueIsBounded | tests/FreeRTOS/timers.c:381-421 | over every run the command queue holds at most four commands |
| TimerDaemon.NeverEarly | tests/FreeRTOS/timers.c:482-913 | over every run no callback comes before its expiry |
| TimerDaemon.SampleSucceedsExactly | tests/FreeRTOS/timers.c:893-900 | switching lists passes its assertion exactly if the command queue has room for all restarts |
| TimerDaemon.FiveReloadsFail | tests/FreeRTOS/timers.c:893-900 | the input that shows it: five reloading timers due just before a wrap |
| TimerDaemon.OneShotIsDormantExactly | tests/FreeRTOS/timers.c:482-519 | an expired one-shot timer reads as dormant exactly if it was processed from the head of the current list |
| TimerDaemon.OneShotStaysActive | tests/FreeRTOS/timers.c:857-904 | the input that shows it: a one-shot timer due before a wrap that is noticed late is called and stays active |
| TimerDaemon.SampleAdvances | tests/FreeRTOS/timers.c:645-665 | noticing a wrap moves every timer on by whole periods |
| TimerDaemon.ExpireAdvances | tests/FreeRTOS/timers.c:482-519 | processing an expired timer moves it on by one period |
| TimerDaemon.ReceiveAdvances | tests/FreeRTOS/timers.c:709-854 | a start command is carried out without losing or repeating an expiry |
| Timers.InsertCurrent | tests/FreeRTOS/timers.c:697-703 | inserting into the current list is inserting into the unbounded timeline |
| Timers.InsertOverflow | tests/FreeRTOS/timers.c:684-688 | and so is inserting into the overflow list |
| Timers.TimelineWithout | tests/FreeRTOS/timers.c:744-752 | taking a timer out of its list takes it out of the timeline |
| Timers.SwitchRound | tests/FreeRTOS/timers.c:868-904 | one round of the switching loop is one alarm of the timeline |
| Timers.SwitchDone | tests/FreeRTOS/timers.c:910-912 | swapping the lists moves no expiry |
| Timers.TimerService.constructor | tests/FreeRTOS/timers.c:916-964 | no timers, empty lists and queue |
| Timers.TimerService.Create | tests/FreeRTOS/timers.c:349-379 | a new timer is dormant and in no list |
| Timers.TimerService.GenericCommand | tests/FreeRTOS/timers.c:381-421 | a command is queued if there is room |
| Timers.TimerService.PostCommand | tests/FreeRTOS/timers.c:381-421 | a task's command is the Post step of the daemon |
| Timers.TimerService.SwitchHead | tests/FreeRTOS/timers.c:864-907 | one round of prvSwitchTimerLists on the 32-bit lists |
| Timers.TimerService.SwitchTimerLists | tests/FreeRTOS/timers.c:857-913 | the loop ends, drains the current list as the timeline says, and leaves the overflow list empty |
| Timers.TimerService.InsertTimerInActiveList | tests/FreeRTOS/timers.c:668-706 | on the 32-bit lists, for commands of any age, it reports an expired timer or inserts into the unbounded timeline, by the time the command is seen to have |
| Timers.TimerService.SampleTimeNow | tests/FreeRTOS/timers.c:645-665 | prvSampleTimeNow notices the wrap and switches lists exactly then, for every tick count |
| Timers.TimerService.ProcessExpiredTimer | tests/FreeRTOS/timers.c:482-519 | prvProcessExpiredTimer is the Expire step |
| Timers.TimerService.ProcessTimer | tests/FreeRTOS/timers.c:559-642 | reading the head, sampling the time and processing is the Process step, for every tick count |
| Timers.TimerService.ActOn | tests/FreeRTOS/timers.c:767-850 | each command takes the effect it means, as heard |
| Timers.TimerService.ReceiveCommand | tests/FreeRTOS/timers.c:716-852 | one round of the command loop is the Receive step, for every tick count and the command as heard |
| Timers.TimerService.NowExactly | tests/FreeRTOS/timers.c:645-665 | a tick count is taken for the right time exactly if less than 2^32 ticks have passed since the last sample |
| Timers.HeardExactly | tests/FreeRTOS/timers.c:716-852 | a command is heard as meant exactly if it is no start command of 2^32 ticks or more ago |
| MemoryBus.WordOfBytes | src/MemoryInterface.cpp:24-50 | a word survives being copied as bytes |
| MemoryBus.LoadAfterStore | inc/BASE_ISA.h:524-790 | a matching load returns the stored value, sign- or zero-extended, whatever the read buffer held before |
| MemoryBus.LoadAfterStoreMeans | inc/BASE_ISA.h:524-790 | in numbers: after a store of 1, 2 or 4 bytes of v, the unsigned load returns the number of 8, 16 or 32 bits congruent to v, the signed load the two's complement one, and no other byte changes |
| MemoryBus.StoreIsLocal | inc/BASE_ISA.h:722-790 | a store changes no other byte, and no load elsewhere |
| MemoryBus.BytesOfStoredWord | inc/BASE_ISA.h:594-790 | the bytes of a stored word are read back from the lowest address up |
| MemoryBus.LoadAfterStoreDouble | inc/BASE_ISA.h:666-717 | SD then LD through two 32-bit accesses returns all 64 bits and changes only those 8 bytes |
| MemoryBus.WordsOfStoredDouble | inc/BASE_ISA.h:696-719 | the lower word of a stored 64-bit number lies at the lower address |
| MemoryBus.LoadedWord | src/Memory.cpp:77-91 | a word in memory is read least byte first |
| MemoryBus.LoadedBytes | src/Memory.cpp:77-91 | so are half-words, and the timer's registers are read as they are |
| MemoryBus.RegionExactly | inc/BusCtrl.h:28-35 | which addresses go to the to-host device, the timer and the trace device, in numbers |
| MemoryBus.CheckedExactly | src/Memory.cpp:58-75 | the transactions that memory accepts, in numbers |
| MemoryBus.LoadIsDeterminedExactly | src/BusCtrl.cpp:28-63 | what a load does is independent of stale buffer contents exactly inside main memory, at the four timer registers, and at the to-host addresses, where it is reported as an error and does not return |
| MemoryBus.DeviceLoadIsStale | src/Trace.cpp:104-113 | the inputs that show it: a load from the trace device, or from inside a timer register, returns the stale buffer without an error |
| MemoryBus.TimerRegisterIsTimer | src/Timer.cpp:82-102 | the four addresses that the timer answers are routed to it |
| MemoryBus.ExtendedIgnoresRest | inc/BASE_ISA.h:524-664 | only the bytes that were read matter |
| MemoryBus.Memory.constructor | inc/Memory.h:72 | memory starts as zeros |
| MemoryBus.Memory.Transport | src/Memory.cpp:50-95 | Memory::b_transport copies exactly the addressed bytes, or reports the error its checks find |
| MemoryBus.BusCtrl.Transport | src/BusCtrl.cpp:28-63 | routing, what each device does to the buffer, and the response that is always replaced by success except for the to-host address |
| MemoryBus.MemoryInterface.ReadDataMem | src/MemoryInterface.cpp:24-50 | readDataMem returns the bytes read over the stale buffer, and reports an error exactly for the to-host addresses |
| MemoryBus.MemoryInterface.WriteDataMem | src/MemoryInterface.cpp:59-76 | writeDataMem writes the low bytes of its word, with the same error |
| MemoryBus.LoadStore.LoadValue | inc/BASE_ISA.h:524-664 | the loads of one to four bytes, with their error |
| MemoryBus.LoadStore.StoreValue | inc/BASE_ISA.h:722-790 | the stores of one to four bytes, with their error |
| MemoryBus.LoadStore.LD | inc/BASE_ISA.h:666-693 | the two reads of a 64-bit load, at any address, with the error of either |
| MemoryBus.LoadStore.SD | inc/BASE_ISA.h:696-719 | the two writes of a 64-bit store, at any address; a first one that fails leaves the second undone |
| BaseIsa.SetThenGet | inc/Registers.h:208-228 | x0 reads as zero whatever is written, and a written register reads back |
| Assembly.BranchDecoded | inc/BASE_ISA.h:1798-1826 | the decoder finds BEQ, BNE, BLT, BGE, BLTU and BGEU, assembled with any operands as chapter 24 lists them |
| Assembly.LoadDecoded | inc/BASE_ISA.h:1798-2034 | the decoder finds LB, LH, LW, LD, LBU, LHU and LWU, assembled with any operands as chapter 24 lists them |
| Assembly.StoreDecoded | inc/BASE_ISA.h:1798-2034 | the decoder finds SB, SH, SW and SD, assembled with any operands as chapter 24 lists them |
| Assembly.ImmediateDecoded | inc/BASE_ISA.h:1798-2034 | the decoder finds ADDI, SLTI, SLTIU, XORI, ORI and ANDI, assembled with any operands as chapter 24 lists them |
| Assembly.ShiftDecoded | inc/BASE_ISA.h:1798-2034 | the decoder finds SLLI, SRLI and SRAI, assembled with any operands as chapter 24 lists them |
| Assembly.RegisterDecoded | inc/BASE_ISA.h:1798-2034 | the decoder finds ADD, SUB, SLL, SLT, SLTU, XOR, SRL, SRA, OR and AND, assembled with any operands as chapter 24 lists them |
| Assembly.JumpDecoded | inc/BASE_ISA.h:1798-2034 | the decoder finds LUI, AUIPC, JAL, JALR and FENCE, assembled with any operands as chapter 24 lists them |
| Assembly.SystemDecoded | inc/BASE_ISA.h:1798-2034 | the decoder finds ECALL, EBREAK, URET, SRET, MRET, WFI, SFENCE.VMA and the CSR instructions, assembled with any operands as chapter 24 lists them |
| Assembly.WideDecoded | inc/BASE_ISA.h:1798-2034 | the decoder finds ADDIW, ADDW, SUBW, SLLW, SRLW and SRAW, assembled with any operands as chapter 24 lists them |
| Assembly.WideShiftDecoded | inc/BASE_ISA.h:1798-2034 | the decoder finds SLLIW, SRLIW and SRAIW, assembled with any operands as chapter 24 lists them |
| Compression.Addi4spnExpands | inc/C_extension.h:124-130 | C.ADDI4SPN, assembled from registers and immediate with the 16-bit formats, whatever follows, are read as the 32-bit instructions with these registers and this immediate |
| Compression.WordExpands | inc/C_extension.h:140-160 | C.LW and C.SW, assembled from registers and immediate with the 16-bit formats, whatever follows, are read as the 32-bit instructions with these registers and this immediate |
| Compression.AddiExpands | inc/C_extension.h:316-326 | C.ADDI and C.LI, assembled from registers and immediate with the 16-bit formats, whatever follows, are read as the 32-bit instructions with these registers and this immediate |
| Compression.JumpExpands | inc/C_extension.h:257-275 | C.JAL and C.J, assembled from registers and immediate with the 16-bit formats, whatever follows, are read as the 32-bit instructions with these registers and this immediate |
| Compression.StackExpands | inc/C_extension.h:390-410 | C.ADDI16SP, assembled from registers and immediate with the 16-bit formats, whatever follows, are read as the 32-bit instructions with these registers and this immediate |
| Compression.UpperExpands | inc/C_extension.h:390-410 | C.LUI, assembled from registers and immediate with the 16-bit formats, whatever follows, are read as the 32-bit instructions with these registers and this immediate |
| Compression.ShiftExpands | inc/C_extension.h:316-326 | C.SRLI and C.SRAI, assembled from registers and immediate with the 16-bit formats, whatever follows, are read as the 32-bit instructions with these registers and this immediate |
| Compression.AndiExpands | inc/C_extension.h:316-326 | C.ANDI, assembled from registers and immediate with the 16-bit formats, whatever follows, are read as the 32-bit instructions with these registers and this immediate |
| Compression.RegisterExpands | inc/C_extension.h:140-160 | C.SUB, C.XOR, C.OR and C.AND, assembled from registers and immediate with the 16-bit formats, whatever follows, are read as the 32-bit instructions with these registers and this immediate |
| Compression.BranchExpands | inc/C_extension.h:371-388 | C.BEQZ and C.BNEZ, assembled from registers and immediate with the 16-bit formats, whatever follows, are read as the 32-bit instructions with these registers and this immediate |
| Compression.SlliExpands | inc/C_extension.h:132-138 | C.SLLI, assembled from registers and immediate with the 16-bit formats, whatever follows, are read as the 32-bit instructions with these registers and this immediate |
| Compression.LwspExpands | inc/C_extension.h:296-304 | C.LWSP, assembled from registers and immediate with the 16-bit formats, whatever follows, are read as the 32-bit instructions with these registers and this immediate |
| Compression.SwspExpands | inc/C_extension.h:355-361 | C.SWSP, assembled from registers and immediate with the 16-bit formats, whatever follows, are read as the 32-bit instructions with these registers and this immediate |
| Compression.MoveExpands | inc/C_extension.h:132-160 | C.JR, C.JALR, C.MV, C.ADD and C.EBREAK, assembled from registers and immediate with the 16-bit formats, whatever follows, are read as the 32-bit instructions with these registers and this immediate |
| Expansion.IRoundTrip | src/BASE_ISA.cpp:15-26 | the decoder's I-type immediate and fields invert the assembler format of section 2.3 |
| Expansion.SRoundTrip | src/BASE_ISA.cpp:29-40 | the decoder's S-type immediate and fields invert the assembler format of section 2.3 |
| Expansion.BRoundTrip | src/BASE_ISA.cpp:43-56 | the decoder's B-type immediate and fields invert the assembler format of section 2.3 |
| Expansion.JRoundTrip | src/BASE_ISA.cpp:59-73 | the decoder's J-type immediate and fields invert the assembler format of section 2.3 |
| Expansion.URoundTrip | inc/BASE_ISA.h:246-248 | the same for the U-type immediate |
| Expansion.RRoundTrip | inc/BASE_ISA.h:218-220 | the same for the R-type fields |
| Expansion.JumpOffset | inc/C_extension.h:257-275 | get_imm_J is the offset of the tables of section 16.8, bit by bit |
| Expansion.BranchOffset | inc/C_extension.h:371-388 | get_imm_CB is the branch offset of the tables of section 16.8 |
| Expansion.SignedImmediates | inc/C_extension.h:316-410 | get_imm_ADDI, get_imm_ADDI16SP and get_imm_LUI are those of the tables of section 16.8 |
| Expansion.SpnImmediate | inc/C_extension.h:328-337 | get_imm_ADDI4SPN is that of the tables of section 16.8 |
| Expansion.WordImmediate | inc/C_extension.h:286-294 | get_imm_L is that of the tables of section 16.8 |
| Expansion.LwspImmediate | inc/C_extension.h:296-304 | get_imm_LWSP is that of the tables of section 16.8 |
| Expansion.SwspImmediate | inc/C_extension.h:355-361 | get_imm_CSS is that of the tables of section 16.8 |
| Expansion.ShiftAmounts | inc/C_extension.h:316-326 | with instruction bit 12 clear the shift amount is the plain 5-bit field |
| Expansion.RefinesAddi4spn | inc/C_extension.h:675-697 | C.ADDI4SPN leaves the registers, memory, PC and CSRs that ADDI leaves with length 2 |
| Expansion.RefinesLw | inc/C_extension.h:1102-1123 | C.LW leaves the registers, memory, PC and CSRs that LW leaves with length 2 |
| Expansion.RefinesSw | inc/C_extension.h:1176-1197 | C.SW leaves the registers, memory, PC and CSRs that SW leaves with length 2 |
| Expansion.RefinesAddi | inc/C_extension.h:1039-1056 | C.ADDI leaves the registers, memory, PC and CSRs that ADDI leaves with length 2 |
| Expansion.RefinesJal | inc/C_extension.h:1259-1279 | C.JAL leaves the registers, memory, PC and CSRs that JAL x1 leaves with length 2 |
| Expansion.RefinesLi | inc/C_extension.h:801-818 | C.LI leaves the registers, memory, PC and CSRs that ADDI from x0 leaves with length 2 |
| Expansion.RefinesAddi16sp | inc/C_extension.h:699-728 | C.ADDI16SP leaves the registers, memory, PC and CSRs that ADDI x2 leaves with length 2 |
| Expansion.RefinesLui | inc/C_extension.h:699-728 | C.LUI leaves the registers, memory, PC and CSRs that LUI leaves with length 2 |
| Expansion.RefinesSrli | inc/C_extension.h:820-839 | C.SRLI leaves the registers, memory, PC and CSRs that SRLI leaves with length 2 |
| Expansion.RefinesSrai | inc/C_extension.h:841-861 | C.SRAI leaves the registers, memory, PC and CSRs that SRAI leaves with length 2 |
| Expansion.RefinesAndi | inc/C_extension.h:883-901 | C.ANDI leaves the registers, memory, PC and CSRs that ANDI leaves with length 2 |
| Expansion.RefinesSub | inc/C_extension.h:903-920 | C.SUB leaves the registers, memory, PC and CSRs that SUB leaves with length 2 |
| Expansion.RefinesXor | inc/C_extension.h:985-1001 | C.XOR leaves the registers, memory, PC and CSRs that XOR leaves with length 2 |
| Expansion.RefinesOr | inc/C_extension.h:1003-1019 | C.OR leaves the registers, memory, PC and CSRs that OR leaves with length 2 |
| Expansion.RefinesAnd | inc/C_extension.h:1021-1037 | C.AND leaves the registers, memory, PC and CSRs that AND leaves with length 2 |
| Expansion.RefinesJ | inc/C_extension.h:1259-1279 | C.J leaves the registers, memory, PC and CSRs that JAL x0 leaves with length 2 |
| Expansion.RefinesBeqz | inc/C_extension.h:753-775 | C.BEQZ leaves the registers, memory, PC and CSRs that BEQ with x0 leaves with length 2 |
| Expansion.RefinesBnez | inc/C_extension.h:777-799 | C.BNEZ leaves the registers, memory, PC and CSRs that BNE with x0 leaves with length 2 |
| Expansion.RefinesSlli | inc/C_extension.h:863-881 | C.SLLI leaves the registers, memory, PC and CSRs that SLLI leaves with length 2 |
| Expansion.RefinesLwsp | inc/C_extension.h:648-673 | C.LWSP leaves the registers, memory, PC and CSRs that LW from x2 leaves with length 2 |
| Expansion.RefinesMv | inc/C_extension.h:612-627 | C.MV leaves the registers, memory, PC and CSRs that ADD with x0 leaves with length 2 |
| Expansion.RefinesJr | inc/C_extension.h:592-610 | C.JR leaves the registers, memory, PC and CSRs that JALR x0 leaves with length 2 |
| Expansion.RefinesAdd | inc/C_extension.h:629-646 | C.ADD leaves the registers, memory, PC and CSRs that ADD leaves with length 2 |
| Expansion.RefinesJalr | inc/C_extension.h:1080-1100 | C.JALR leaves the registers, memory, PC and CSRs that JALR x1 leaves with length 2 |
| Expansion.RefinesEbreak | inc/C_extension.h:1281-1293 | C.EBREAK leaves the registers, memory, PC and CSRs that EBREAK leaves with length 2 |
| Expansion.RefinesSwsp | inc/C_extension.h:730-751 | C.SWSP leaves the registers, memory, PC and CSRs that SW to x2 leaves with length 2 |
| Expansion.CompressedRefinesBase | inc/C_extension.h:1295-1422 | every legal RV32C integer word, decoded and executed as compressed, equals its expansion decoded and executed as base |
| Expansion.ExpansionIsExactly | inc/C_extension.h:1281-1293 | execution as compressed does all that the expansion does and nothing else, breakpoint report included, exactly if the word is not C.EBREAK |
| Words.UnsignedIsInt | inc/BASE_ISA.h:1154-1190 | the number a register stands for in these results is the one that addresses, multiplications and divisions use |
| Words.SumWraps | inc/BASE_ISA.h:1154-1171 | Plus is the sum of the numbers the registers stand for, modulo 2^32 |
| Words.DifferenceWraps | inc/BASE_ISA.h:1173-1190 | Minus is their difference modulo 2^32 |
| Words.ShiftsScale | src/BASE_ISA.cpp:82-133 | Srl divides by a power of two, Sll multiplies by one modulo 2^32 |
| Words.ArithmeticShiftIsFloor | src/BASE_ISA.cpp:136-156 | Sra is the floor of the signed value divided by a power of two |
| Words.BitsAt | inc/BASE_ISA.h:1250-1311 | XOR, OR and AND work on every bit by itself |
| Words.BitsOfNumber | inc/M_extension.h:134-267 | a number below 2^32 survives being put into a register |
| Words.ReadDataMeans | src/MemoryInterface.cpp:24-50 | a four-byte read of main memory returns the word there |
| Words.WriteDataMeans | src/MemoryInterface.cpp:59-76 | after a four-byte write of main memory the word is read back, and nothing else has changed |
| Words.SumInstructions | inc/BASE_ISA.h:1154-1190 | what ADD, ADDI and SUB leave in rd, on integers |
| Words.ShiftInstructions | src/BASE_ISA.cpp:82-156 | what SLLI, SRLI and SRAI leave in rd, on integers |
| Rv32.BaseAndCompressedApart | src/RV32.cpp:152-169 | the base decoder accepts only low bits 11 and the compressed one only the others |
| Rv32.CascadeAgreesExactly | src/RV32.cpp:152-192 | for every 32-bit word, by its fields, when the cascade of decoders takes it for what check_extension says |
| Rv32.DecodedWordsAgree | src/RV32.cpp:152-169 | cascade and check_extension agree on every word that base or C decodes |
| Rv32.MultiplyWordsAgree | src/Instruction.cpp:17-32 | and on the words of M with a valid funct3 |
| Rv32.AmoWordsAgree | src/Instruction.cpp:17-32 | and on the AMO words with funct3 010 and one of the eleven values of funct5 |
| Rv32.AmoTable | inc/A_extension.h:79-123 | which value of funct5 is which operation |
| Rv32.UndecodedExactly | inc/BASE_ISA.h:1798-2034 | the words that neither base nor C decodes, by major opcode, funct3, funct7 and csr field |
| Rv32.CascadeExactly | src/RV32.cpp:152-192 | who takes each word, by its fields: an undecodable base or compressed word falls to M, to A or to nobody |
| Rv32.Op32TakenForAmo | src/Instruction.cpp:17-32 | the input that shows the cascade going astray: an OP-32 word of M executed as AMOADD |
| Rv32.BranchTakenForAmo | src/RV32.cpp:152-192 | a branch word with an unused funct3 is executed as AMOADD |
| Rv32.UnusedOpcodeTakenForMulw | src/RV32.cpp:152-192 | a word of an unused major opcode is executed as MULW |
| Rv32.CompressedTakenForMulw | src/RV32.cpp:152-192 | a reserved compressed word is executed as MULW |
| Rv32.StepRefinesExpansion | src/RV32.cpp:152-169 | one step on a legal compressed word has the effect of its expansion, length 2 in place of 4 |
| Rv32.DecodedUpperHalfExactly | src/RV32.cpp:163-169 | for a word that the compressed decoder takes, what follows it changes the step in exactly one case, the trap value of the illegal C.ADDI4SPN |
| Rv32.ReservedTakers | src/RV32.cpp:171-192 | for a reserved compressed word the low half decides whether M takes it, as what, and rd; otherwise the upper half decides whether A takes it |
| Rv32.UpperHalfNamesOperand | src/RV32.cpp:171-177 | two words with the same low half may differ in rs2 in every way, never in rd |
| Rv32.UpperHalfMattersExactly | src/RV32.cpp:152-197 | for all words that are not base instructions and not taken by A: the upper half-word changes the step in exactly two cases, the trap value of the illegal C.ADDI4SPN and the operands of a reserved word that runs as a multiplication or division into a register other than x0 |
| Rv32.UpperHalfReachesTrapValue | inc/C_extension.h:684-687 | the inputs that show the first: the words 0 and 0x10000 |
| Rv32.UpperHalfChangesProduct | src/RV32.cpp:171-177 | the inputs that show the second: the reserved words 0x8080 and 0x108080 multiply x1 by x0 and by itself |
| Rv32.UpperHalfChangesTaker | src/RV32.cpp:178-192 | the reserved word 0x9000 is taken by A, and 0xf8009000 by nobody |
| Meaning.RegisterMeans | inc/BASE_ISA.h:1154-1311 | one step on ADD and SUB leaves the sum and the difference modulo 2^32 in rd, on XOR, OR and AND the bits combined one by one; the PC is 4 further on, and nothing else has changed |
| Meaning.ImmediateMeans | inc/BASE_ISA.h:796-951 | the same for ADDI and ANDI with a sign-extended immediate |
| Meaning.UpperMeans | inc/BASE_ISA.h:288-301 | and for LUI |
| Meaning.ShiftMeans | src/BASE_ISA.cpp:82-156 | one step on SLLI, SRLI and SRAI multiplies by 2^n modulo 2^32, divides by it, and divides the signed number rounding down |
| Meaning.TrapMeans | src/BASE_ISA.cpp:82-110 | EBREAK, and SLLI by 32 or more, take the exception: PC at the trap vector, cause, place and value in the CSRs, the simulator stopped, nothing else changed |
| Meaning.JumpMeans | inc/BASE_ISA.h:322-342 | JAL goes to PC plus offset modulo 2^32 and links PC + 4 |
| Meaning.JumpRegisterMeans | inc/BASE_ISA.h:344-362 | JALR goes to register plus offset with the lowest bit, and no other, cleared, and links PC + 4 |
| Meaning.BranchMeans | inc/BASE_ISA.h:364-414 | BEQ and BNE go to PC plus offset or to PC + 4, and change nothing else |
| Meaning.LoadMeans | inc/BASE_ISA.h:570-592 | LW leaves in rd the four bytes at register plus offset, least first |
| Meaning.StoreMeans | inc/BASE_ISA.h:772-794 | SW leaves rs2 in the four bytes at register plus offset, and every other byte and register as it was |
| Meaning.LoadAfterStoreStep | inc/BASE_ISA.h:570-794 | LW after SW at one address returns what was stored |
| Meaning.MultiplyDivideMeans | inc/M_extension.h:71-126 | one step on a word of M, by its funct3: the product modulo 2^32, its floor by 2^32 under the three signednesses, quotient and remainder by their defining equations; the PC is 4 further on, and nothing else has changed |
| Meaning.WideMultiplyDivideMeans | inc/M_extension.h:269-398 | the same for the OP-32 words, which RV32 executes as well, with the one pair on which DIVUW differs |
| Meaning.CompressedMeans | inc/C_extension.h:1295-1422 | whatever is true of rd after the expansion of a compressed word is true after the word, the PC being 2 further on; jumps and branches, whose length is linked or skipped, have their own rows under Expansion |
| Meaning.WordFormsMean | inc/C_extension.h:922-957 | C.SUBW and C.ADDW, which RV32 reserves, subtract and add modulo 2^32 |
| Meaning.OtherFormsMean | inc/C_extension.h:1384-1418 | C.FLD, C.FLW, C.FSD and C.FSWSP stop the simulator, C.FLWSP does nothing, and an illegal C.ADDI4SPN traps |
| Meaning.FldspMeans | inc/C_extension.h:648-673 | C.FLDSP is executed as C.LWSP |
| Meaning.FswMeans | inc/C_extension.h:1199-1225 | C.FSW stores a zero word and rs2 behind it |
| Meaning.NobodyMeans | src/RV32.cpp:188-197 | a word that no decoder takes stops the simulator and does nothing else |
| RegisterBank.Registers.constructor | inc/Registers.h:195-201 | registers start at zero except the stack pointer, the PC at 0x80000000 |
| RegisterBank.Registers.SetValue | inc/Registers.h:208-213 | setValue ignores x0 and numbers above 31 |
| RegisterBank.Registers.GetValue | inc/Registers.h:220-228 | getValue returns the register, or all ones for numbers above 31 |
| RegisterBank.Registers.IncPC | inc/Registers.h:249-251 | the PC moves on by 4, wrapping |
| RegisterBank.Registers.IncPCby2 | inc/Registers.h:253-255 | the PC moves on by 2, wrapping |
| Hart.Cpu.constructor | src/RV32.cpp:14-23 | a new processor: the PC as given, the stack pointer at a quarter of the memory, all else zero |
| Hart.Cpu.RaiseException | inc/extension_base.h:62-93 | the CSRs, the PC and the stop flag after an exception |
| Hart.Cpu.LoadWord | src/MemoryInterface.cpp:24-50 | the four-byte read of the word loads |
| Hart.Cpu.StoreWord | src/MemoryInterface.cpp:59-76 | the four-byte write of the word stores |
| Hart.Cpu.LUI | inc/BASE_ISA.h:288-301 | Exec_LUI changes the processor in place as the function ExecLUI says |
| Hart.Cpu.JAL | inc/BASE_ISA.h:322-342 | Exec_JAL changes the processor in place as the function ExecJAL says |
| Hart.Cpu.JALR | inc/BASE_ISA.h:344-362 | Exec_JALR changes the processor in place as the function ExecJALR says |
| Hart.Cpu.BEQ | inc/BASE_ISA.h:364-387 | Exec_BEQ changes the processor in place as the function ExecBEQ says |
| Hart.Cpu.BNE | inc/BASE_ISA.h:389-414 | Exec_BNE changes the processor in place as the function ExecBNE says |
| Hart.Cpu.LW | inc/BASE_ISA.h:570-592 | Exec_LW changes the processor in place as the function ExecLW says |
| Hart.Cpu.SW | inc/BASE_ISA.h:772-794 | Exec_SW changes the processor in place as the function ExecSW says |
| Hart.Cpu.ADDI | inc/BASE_ISA.h:796-815 | Exec_ADDI changes the processor in place as the function ExecADDI says |
| Hart.Cpu.ANDI | inc/BASE_ISA.h:933-951 | Exec_ANDI changes the processor in place as the function ExecANDI says |
| Hart.Cpu.ADD | inc/BASE_ISA.h:1154-1171 | Exec_ADD changes the processor in place as the function ExecADD says |
| Hart.Cpu.SUB | inc/BASE_ISA.h:1173-1189 | Exec_SUB changes the processor in place as the function ExecSUB says |
| Hart.Cpu.XOR | inc/BASE_ISA.h:1250-1267 | Exec_XOR changes the processor in place as the function ExecXOR says |
| Hart.Cpu.OR | inc/BASE_ISA.h:1275-1292 | Exec_OR changes the processor in place as the function ExecOR says |
| Hart.Cpu.AND | inc/BASE_ISA.h:1294-1311 | Exec_AND changes the processor in place as the function ExecAND says |
| Hart.Cpu.EBREAK | inc/BASE_ISA.h:1343-1355 | Exec_EBREAK changes the processor in place as the function ExecEBREAK says |
| Hart.Cpu.SLLI | src/BASE_ISA.cpp:82-110 | Exec_SLLI for RV32, with the exception for a shift amount of 32 or more |
| Hart.Cpu.SRLI | src/BASE_ISA.cpp:113-133 | Exec_SRLI for RV32, in place as its function says |
| Hart.Cpu.SRAI | src/BASE_ISA.cpp:136-156 | Exec_SRAI for RV32, in place as its function says |
| Hart.Cpu.ExecBase | inc/BASE_ISA.h:1577-1791 | exec_instruction dispatches each modelled operation to its method |
| Hart.Cpu.C_ADDI4SPN | inc/C_extension.h:675-697 | Exec_C_ADDI4SPN changes the processor in place as the function ExecCADDI4SPN says |
| Hart.Cpu.C_LW | inc/C_extension.h:1102-1123 | Exec_C_LW changes the processor in place as the function ExecCLW says |
| Hart.Cpu.C_SW | inc/C_extension.h:1176-1197 | Exec_C_SW changes the processor in place as the function ExecCSW says |
| Hart.Cpu.C_ADDI | inc/C_extension.h:1039-1056 | Exec_C_ADDI changes the processor in place as the function ExecCADDI says |
| Hart.Cpu.C_JAL | inc/C_extension.h:1259-1279 | Exec_C_JAL changes the processor in place as the function ExecCJAL says |
| Hart.Cpu.C_LI | inc/C_extension.h:801-818 | Exec_C_LI changes the processor in place as the function ExecCLI says |
| Hart.Cpu.C_ADDI16SP | inc/C_extension.h:699-728 | Exec_C_ADDI16SP changes the processor in place as the function ExecCADDI16SP says |
| Hart.Cpu.C_SRLI | inc/C_extension.h:820-839 | Exec_C_SRLI changes the processor in place as the function ExecCSRLI says |
| Hart.Cpu.C_SRAI | inc/C_extension.h:841-861 | Exec_C_SRAI changes the processor in place as the function ExecCSRAI says |
| Hart.Cpu.C_ANDI | inc/C_extension.h:883-901 | Exec_C_ANDI changes the processor in place as the function ExecCANDI says |
| Hart.Cpu.C_SUB | inc/C_extension.h:903-920 | Exec_C_SUB changes the processor in place as the function ExecCSUB says |
| Hart.Cpu.C_XOR | inc/C_extension.h:985-1001 | Exec_C_XOR changes the processor in place as the function ExecCXOR says |
| Hart.Cpu.C_OR | inc/C_extension.h:1003-1019 | Exec_C_OR changes the processor in place as the function ExecCOR says |
| Hart.Cpu.C_AND | inc/C_extension.h:1021-1037 | Exec_C_AND changes the processor in place as the function ExecCAND says |
| Hart.Cpu.C_BEQZ | inc/C_extension.h:753-775 | Exec_C_BEQZ changes the processor in place as the function ExecCBEQZ says |
| Hart.Cpu.C_BNEZ | inc/C_extension.h:777-799 | Exec_C_BNEZ changes the processor in place as the function ExecCBNEZ says |
| Hart.Cpu.C_SLLI | inc/C_extension.h:863-881 | Exec_C_SLLI changes the processor in place as the function ExecCSLLI says |
| Hart.Cpu.C_LWSP | inc/C_extension.h:648-673 | Exec_C_LWSP changes the processor in place as the function ExecCLWSP says |
| Hart.Cpu.C_JR | inc/C_extension.h:592-610 | Exec_C_JR changes the processor in place as the function ExecCJR says |
| Hart.Cpu.C_MV | inc/C_extension.h:612-627 | Exec_C_MV changes the processor in place as the function ExecCMV says |
| Hart.Cpu.C_EBREAK | inc/C_extension.h:1281-1293 | Exec_C_EBREAK changes the processor in place as the function ExecCEBREAK says |
| Hart.Cpu.C_JALR | inc/C_extension.h:1080-1100 | Exec_C_JALR changes the processor in place as the function ExecCJALR says |
| Hart.Cpu.C_ADD | inc/C_extension.h:629-646 | Exec_C_ADD changes the processor in place as the function ExecCADD says |
| Hart.Cpu.C_SWSP | inc/C_extension.h:730-751 | Exec_C_SWSP changes the processor in place as the function ExecCSWSP says |
| Hart.Cpu.C_SUBW | inc/C_extension.h:922-939 | Exec_C_SUBW changes the processor in place as the function ExecCSUBW says |
| Hart.Cpu.C_ADDW | inc/C_extension.h:941-957 | Exec_C_ADDW changes the processor in place as the function ExecCADDW says |
| Hart.Cpu.C_FSW_SD | inc/C_extension.h:1199-1225 | Exec_C_FSW_SD for RV32 stores a zero word and rs2 behind it, as the function ExecCFSW says |
| Hart.Cpu.ExecCompressed | inc/C_extension.h:1295-1422 | exec_instruction dispatches each compressed operation to its method |
| Hart.Cpu.ExecM | inc/M_extension.h:400-452 | exec_instruction dispatches each M operation to its method |
| Hart.Cpu.CpuStep | src/RV32.cpp:146-200 | CPU_step decodes, executes and steps the PC as the function Step says, for base, compressed and M words and for words that nobody takes |
| MExtension.Multiply32IsExact | src/M_extension.cpp:13-84 | for all operands 2^32 times MULH, MULHSU or MULHU plus MUL is the exact product under the matching signedness |
| MExtension.MixedProduct32 | src/M_extension.cpp:39-61 | the unsigned 64-bit detour of RV32 MULHSU computes the mixed product |
| MExtension.Multiply64IsExact | src/M_extension.cpp:90-166 | the same for RV64 through 128-bit products |
| MExtension.High64IsFloor | src/M_extension.cpp:102-108 | bits 127 to 64 are the floor of the product by 2^64 |
| MExtension.LowHalf | inc/M_extension.h:134-153 | the low half does not depend on signedness |
| MExtension.RemainderShape | inc/M_extension.h:215-241 | the remainder is smaller than the divisor and has the dividend's sign unless zero |
| MExtension.DivisionIsUnique | inc/M_extension.h:161-267 | quotient and remainder are the only ones with these properties |
| MExtension.SignedDivisionIsExact | inc/M_extension.h:161-241 | for all operands, zero divisors and -2^31 / -1 included, quotient times divisor plus remainder is the dividend modulo 2^32, with the bounds and signs of the remainder |
| MExtension.SignedQuotientExactly | inc/M_extension.h:161-241 | read as signed numbers they multiply back exactly, except exactly for -2^31 / -1 |
| MExtension.UnsignedDivisionIsExact | inc/M_extension.h:189-267 | the unsigned counterparts, and their values for divisor zero |
| MExtension.WideFormsExactly | inc/M_extension.h:269-398 | on RV32 the W forms compute what MUL, REM and DIVU compute, except DIVUW exactly for 0x80000000 by 0xffffffff |
| MUnits.MUnit32.MUL | inc/M_extension.h:134-153 | Exec_M_MUL for RV32 writes its result to rd and nothing else |
| MUnits.MUnit32.MULH | src/M_extension.cpp:13-36 | Exec_M_MULH for RV32 writes its result to rd and nothing else |
| MUnits.MUnit32.MULHSU | src/M_extension.cpp:39-60 | Exec_M_MULHSU for RV32 writes its result to rd and nothing else |
| MUnits.MUnit32.MULHU | src/M_extension.cpp:63-83 | Exec_M_MULHU for RV32 writes its result to rd and nothing else |
| MUnits.MUnit32.DIV | inc/M_extension.h:161-187 | Exec_M_DIV for RV32 writes its result to rd and nothing else |
| MUnits.MUnit32.REM | inc/M_extension.h:215-241 | Exec_M_REM for RV32 writes its result to rd and nothing else |
| MUnits.MUnit32.DIVU | inc/M_extension.h:189-213 | Exec_M_DIVU for RV32 writes its result to rd and nothing else |
| MUnits.MUnit32.REMU | inc/M_extension.h:243-267 | Exec_M_REMU for RV32 writes its result to rd and nothing else |
| MUnits.MUnit32.MULW | inc/M_extension.h:269-288 | Exec_M_MULW for RV32 writes its result to rd and nothing else |
| MUnits.MUnit32.DIVW | inc/M_extension.h:290-316 | Exec_M_DIVW for RV32 writes its result to rd and nothing else |
| MUnits.MUnit32.DIVUW | inc/M_extension.h:318-344 | Exec_M_DIVUW for RV32 writes its result to rd and nothing else |
| MUnits.MUnit32.REMW | inc/M_extension.h:346-372 | Exec_M_REMW for RV32 writes its result to rd and nothing else |
| MUnits.MUnit32.REMUW | inc/M_extension.h:374-398 | Exec_M_REMUW for RV32 writes its result to rd and nothing else |
| MUnits.MUnit64.MUL | inc/M_extension.h:134-153 | Exec_M_MUL for RV64 writes its result to rd and nothing else |
| MUnits.MUnit64.MULH | src/M_extension.cpp:90-113 | Exec_M_MULH for RV64 writes its result to rd and nothing else |
| MUnits.MUnit64.MULHSU | src/M_extension.cpp:116-140 | Exec_M_MULHSU for RV64 writes its result to rd and nothing else |
| MUnits.MUnit64.MULHU | src/M_extension.cpp:143-166 | Exec_M_MULHU for RV64 writes its result to rd and nothing else |
| AExtension.ConditionalsSucceedExactly | inc/A_extension.h:128-185 | over every run, whatever else is executed, SC.W succeeds exactly when the latest legal LR.W or SC.W on its address was an LR.W |
| AExtension.RunFromReset | inc/A_extension.h:128-185 | in every run from the empty reservation set both this and the bound on successes hold |
| AExtension.StepConsistent | inc/A_extension.h:128-185 | each instruction keeps the reservation set equal to the addresses reserved last |
| AExtension.SuccessesBounded | inc/A_extension.h:456-467 | successful SC.W to an address never exceed the LR.W to it |
| AExtension.ConditionalReports | inc/A_extension.h:159-185 | SC.W writes 0 to rd on success and 1 on failure, writes memory only on success, and always ends the reservation |
| AExtension.LoadReservedMeans | inc/A_extension.h:128-157 | LR.W of a word in main memory leaves that word in rd, reserves the address, and changes nothing else |
| AExtension.StoreConditionalMeans | inc/A_extension.h:159-185 | SC.W of a word in main memory: if it succeeds the word there is rs2 and every other byte as before, if it fails all memory is; rd tells, and nothing else changes |
| AExtension.IllegalReserveSkipsVector | inc/A_extension.h:469-478 | an LR.W raises an exception exactly if rs2 is not zero, and then continues four bytes past the trap vector |
| AExtension.Atomics.Reserve | inc/A_extension.h:456-458 | TLB_reserve adds the address |
| AExtension.Atomics.CheckReserved | inc/A_extension.h:460-467 | TLB_reserved reports and removes the address |
| AExtension.Atomics.LoadReservedWord | inc/A_extension.h:128-157 | Exec_A_LR loads, writes rd and reserves, or raises the exception |
| AExtension.Atomics.StoreConditionalWord | inc/A_extension.h:159-185 | Exec_A_SC stores and reports according to the reservation |

## Left out

- The 64-bit build of the heap; the model has a 4-byte `size_t`, 8-byte headers and configTOTAL_HEAP_SIZE as configured.
- Heap memory is modelled as aligned words, and programs write whole words into their blocks.
- The width of `uxNumberOfItems` and `uxMessagesWaiting`: a list or queue of 2^32 items does not fit in memory.
- QueueLocks: waiting tasks are sequences, and the place a task enters at stands for its priority; `tasks.c` is not part of this model beyond the removal of the head.
- QueueLocks.WindowWakesExactly: interrupts only; the window in which the locking task joins an event list is BlockedReceiverExactly and BlockedSenderExactly, and no other task runs while the scheduler is suspended.
- QueueLocks.LockedQueue.PlaceReceiver: the place is given, not derived from the task's priority.
- QueueLocks.LockedQueue.PlaceSender: the same.
- Queue sets, co-routines, the queue registry, static allocation, MPU wrappers, trace and coverage macros.
- RecursiveMutex: priority inheritance, and block times other than as waiting for any number of attempts.
- RecursiveMutex.Semaphore.SemaphoreTake: does not wait.
- Timers.TimerService: lists are sequences with the effect proved for vListInsert and uxListRemove, not the linked rings themselves; no timer lives in the heap.
- Timers.TimerService.ActOn: tmrCOMMAND_DELETE marks the timer inactive, as for a static timer; the source frees the memory of a dynamic one.
- TimerDaemon.CommandedTimerIsCalledOnTime: begins when the daemon takes up the command, and no task commands that timer again during the run.
- TimerDaemon.SampleSucceedsExactly: switching lists is one step. The command loop samples without suspending the scheduler, and interrupts may always post, so other commands can take places in the queue meanwhile.
- Timers.TimerService.GenericCommand: does not wait for room in the queue.
- Timers.TimerService.PostCommand: the same.
- Timers.TimerService.ProcessTimer: does not block; the daemon's endless loop is the run of steps in TimerDaemon.
- Timers.TimerService.ReceiveCommand: pended function calls are not modelled.
- MemoryBus.BusCtrl.Transport: the contents of a timer register come from outside; writes to the timer, its interrupt, and what the trace device sends to the terminal are not modelled.
- MemoryBus.Memory.Transport: accesses that start inside the array and leave it are undefined behaviour and excluded.
- Hex file loading, DMI pointers, debug transport, simulated time, quantum keeping, logging and performance counters.
- Base instructions that no compressed form expands to (AUIPC, the other branches, byte and half-word accesses as instructions, comparisons, XORI, ORI, shifts by register), FENCE, ECALL, the CSR and return instructions: decoded, not executed. Loads and stores of all widths are in MemoryBus.
- Compressed shifts with instruction bit 12 set are not legal in RV32C; the code shifts by 32 or more there, which is undefined.
- RV64 compressed forms, whose C.JR, C.JALR and C.SWSP narrow to 32 bits. Floating point: its forms do on RV32 what the code does there, nothing or a store of two words.
- Expansion.CompressedRefinesBase: does not compare the performance counters; the breakpoint flag is Expansion.ExpansionIsExactly.
- Meaning.LoadMeans: loads from main memory; what the devices answer is under MemoryBus.
- Meaning.StoreMeans: the same for stores.
- Hart.Cpu.ExecBase: is about the operations that Exec models, and defined accesses that return.
- Hart.Cpu.ExecCompressed: is about defined accesses that return, and defined shifts.
- Hart.Cpu.C_SRLI: shift amounts below 32, beyond which the shift is undefined behaviour.
- Hart.Cpu.C_SRAI: the same.
- Hart.Cpu.C_SLLI: the same.
- Hart.Cpu.CpuStep: leaves out words that A takes, the base instructions named above, and undefined accesses and shifts.
- Rv32.UpperHalfMattersExactly: leaves out words that A takes, whose effect is not part of Step; who takes them is Rv32.ReservedTakers.
- MUnits.MUnit64: has a register bank of its own, the other instance of the template in Registers.h.
- RecursiveMutex.Semaphore.TakeMutexRecursive: does not wait.
- MExtension: RV64 divisions and the W forms of RV64.
- AExtension: AMO results; they enter the protocol as instructions that change no reservation.
