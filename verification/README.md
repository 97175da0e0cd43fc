# FreeRTOS kernel objects, verified

This project models the data structures and protocols of the FreeRTOS V10.0.1 kernel in this
repository and proves what they promise. Everything is stated for all inputs, all runs and, where
tasks and interrupts share an object, all interleavings.

* **Heap** (`HeapGaps`, `HeapLinks`, `HeapLinking`, `AllocTable`, `HeapState`, `Heap4`, `HeapRuns`).
  `heap_4.c` with its debug additions. `Heap4.Heap` holds the header words by address; its free list
  is proved to be a function of the live blocks alone: the maximal gaps between them.
* **Software timers** (`TimerState`, `TimerWorld`, `TimerRefine`, `TimerRuns`, `TimerSchedule`,
  `TimerRest`, `TimerDaemon`, `TimerServing`). `TimerState` computes on ticks that wrap at 2^32,
  `TimerWorld` on absolute time; the first is proved to be the image of the second over every run.
  `TimerDaemon` is the imperative daemon, and `TimerServing` ties its service loop to those runs.
  `TimerCommands` and `TimerEffects` say what the commands come to.
* **Queues** (`QueueRing`, `QueueSpec`, `QueueObject`, `QueueProtocol`, `QueueWakeups`,
  `QueueCounts`, `QueueCrowding`, `QueueCalls`, `QueueBlocking`). The storage ring, each critical
  section, and the protocol of locking, blocking and waking with tasks and interrupts interleaved:
  no wake-up lost, first in first out, and how calls end. `RecursiveMutex` and `MutexCalls` do the
  same for the recursive mutex calls.
* **Stream and message buffers** (`StreamRing`, `StreamBuffer`, `StreamFraming`, `StreamProtocol`,
  `StreamCalls`). The byte ring, message framing, and one writer and one reader interleaved at every
  index access and every byte.
* **Lists** (`ListOrder`, `IntrusiveList`, `ListClients`). The circular doubly linked list as
  objects that carry their own links.
* **Co-routines** (`CoRoutineDelays`, `CoRoutines`). The scheduler of `croutine.c`, which this
  configuration compiles out, on the same footing as the timers.
* **Event groups** (`EventSpec`, `EventProtocol`, `EventCalls`, `EventRendezvous`, `EventObject`), on
  top of the intrusive list.

`MachineWord` and `RingStorage` hold what several of these share: 32-bit arithmetic and the copy into a
ring. A method that changes state is proved against a function of the old state; the lemmas are about
those functions. `dafny verify dfyconfig.toml` checks the project.

## Where the code differs from its documentation

* `list.h` calls an item added by `vListInsertEnd` the last to be returned by the walker, and explains:
  every other item is returned before the index points to it again. `ListOrder.AddedNearlyLast` makes
  this precise: counted from the insertion, the item under the index, which was returned just before,
  comes round once more after the added one; the added item is the very last exactly when the index
  rests on the end marker (`ListOrder.AddedLastIff`).
* `xStreamBufferSend` adds the message length and the length bytes in a `size_t`. For lengths of
  2^32 - 4 and above the sum wraps, the guard may pass, and an assertion in the copy fails
  (`StreamFraming.WrappedLengthPasses`). `StreamFraming.GuardExact` and `StreamFraming.SendExact` say
  exactly when guard and send do what they are for. An empty message fails an assertion too
  (`StreamFraming.EmptyMessageAsserts`).
* Overwriting a full queue of zero-size items counts beyond the length
  (`QueueSpec.OverwriteCountsTwo`); `QueueSpec.SendSized` says exactly when the bound holds.
* The lock counters are `int8_t`. `QueueCrowding.CounterExact` says exactly how many operations in one
  lock window are safe; `QueueCrowding.CrowdedWindowStrands` and `QueueCrowding.CrowdedReceivesStrand`
  are runs that strand a reader and a writer.
* The side table has 256 slots, and removal never clears the last one; `AllocTable.RemovalExact` says
  exactly when it stays exact, and `HeapRuns.FullTableRemovalFails` is a run after which it is not.

## Assumptions

* Heap: the area lies in the 32-bit address space below 2^31 bytes, away from null and from `xStart`,
  with room for the end marker and one block. `vPortFree` gets null or an address that heads a block,
  live or free. The side-table claims hold while fewer than 256 blocks are ever live at once.
* Timers: periods are at least 1; when a command is carried out its timer exists, its time is not in
  the future and less than 2^32 ticks old; while a timer is active, successive time samples are less
  than 2^32 ticks apart; commands that the daemon posts to itself fit in the queue (the assertions
  at timers.c:484, 766 and 878 — the flag `failed` records a failure). Callbacks touch timers only by
  posting commands; which ones they post is arbitrary.
* Queues: fewer than 128 interrupt operations of a kind in one lock window.
* Recursive mutexes: a task takes fewer than 2^32 times without giving.
* Co-routines: delays are at least one tick, as `crDELAY` and the queue calls ensure, and the scheduler
  runs at least once in 2^32 ticks.
* Event groups: the arguments pass the kernel's own assertions.
* Stream buffers: structure and storage together take less than 2^31 bytes, as `pvPortMalloc` grants no
  more. What happens after a failed assertion is not modelled.

## Model

| member | source | states |
|---|---|---|
| HeapGaps.GapsSeparated | freertos/src/heap_4.c:606-664 | for every set of live blocks the free list is strictly address-ordered and no two free blocks touch |
| HeapGaps.GapsTile | freertos/src/heap_4.c:606-664 | each heap address lies in a free block or in a live block, never in both and never in neither |
| HeapGaps.GapsConserve | freertos/src/heap_4.c:434-440 | free bytes plus live bytes are the whole heap below the end marker |
| HeapGaps.GapsAligned | freertos/src/heap_4.c:558-603 | free blocks start and end on the alignment |
| HeapGaps.LiveNotFree | freertos/src/heap_4.c:485-537 | no block header is both free and live |
| HeapGaps.CarveGap | freertos/src/heap_4.c:397-440 | carving the front of the i-th free block leaves exactly the gaps of the enlarged set of live blocks |
| HeapGaps.ReleaseGap | freertos/src/heap_4.c:503-520 | coalescing insertion of a released block gives exactly the gaps of the remaining live blocks: the free list is a function of the live blocks |
| HeapLinks.InsertFreeAt | freertos/src/heap_4.c:606-664 | insertion at the place the search stops, joining only the two neighbours, is the address-ordered coalescing insertion |
| HeapLinks.Hook | freertos/src/heap_4.c:606-664 | rewriting one link and one header hooks a chunk into the linked list and leaves the rest of the chain intact |
| HeapLinking.LinkCorrect | freertos/src/heap_4.c:618-664 | in each of its four outcomes the linking code turns the chain of headers into the chain of the coalesced list |
| HeapLinking.Unlink | freertos/src/heap_4.c:397-410 | bypassing the i-th free block removes exactly it from the chain |
| HeapLinking.ReturnRest | freertos/src/heap_4.c:410-432 | the remainder of a split goes back to its old place and merges with nothing |
| HeapState.RequestExact | freertos/src/heap_4.c:341-368 | the size arithmetic of a non-zero request with clear top bit never wraps in 32 bits and rounds up to the alignment |
| HeapState.FirstFit | freertos/src/heap_4.c:383-392 | the lowest free block of adequate size; all lower ones are too small |
| HeapState.FinishTake | freertos/src/heap_4.c:397-446 | after unlinking and splitting, marking the carved block re-establishes headers and chain |
| HeapState.ReleaseStructure | freertos/src/heap_4.c:503-520 | after relinking a released block, headers and chain represent the remaining blocks, and its bytes are free again |
| HeapState.CarvedIsNew | freertos/src/heap_4.c:397-440 | an allocation never hands out a block that is already live |
| HeapState.PayloadDisjoint | freertos/src/heap_4.c:448-464 | a payload byte belongs to no header, no tail canary and no other payload |
| HeapState.CanariesGrow | freertos/src/heap_4.c:190-202 | recording a block leaves every live block with both canaries |
| HeapState.CanariesShrink | freertos/src/heap_4.c:182-188 | refreshing the free headers after a release leaves every remaining live block with both canaries |
| Heap4.Heap.constructor | freertos/src/heap_4.c:128-140 | a heap that has not been used is valid, empty and has the whole area as its one block |
| Heap4.Heap.HeapInit | freertos/src/heap_4.c:558-603 | the first use builds one aligned free block and the end marker, and sets all counters |
| Heap4.Heap.FindPlace | freertos/src/heap_4.c:611-617 | the search loop stops at the last free header below the block |
| Heap4.Heap.InsertBlockIntoFreeList | freertos/src/heap_4.c:606-664 | the chain becomes the chain of the coalesced list; no header outside it changes |
| Heap4.Heap.SearchFit | freertos/src/heap_4.c:383-392 | the search loop returns the first fit and its predecessor, or the end marker |
| Heap4.Heap.TakeBlock | freertos/src/heap_4.c:397-446 | unlink, split when worthwhile, mark: the block becomes live, the counters follow |
| Heap4.Heap.Malloc | freertos/src/heap_4.c:319-481 | null exactly when the size is zero, has the top bit set, or no free block holds the aligned request; otherwise the lowest adequate block; the live blocks step as in HeapRuns, the byte history grows by the new count exactly on success, and all records (counters, side table, canaries) are kept |
| Heap4.Heap.CountersExact | freertos/src/heap_4.c:434-440 | the free counter is the bytes free now, the minimum-ever counter the least of all counts since the heap was set up |
| Heap4.Heap.SplitBlock | freertos/src/heap_4.c:402-431 | the split puts the remainder back in the list and leaves the front of the block |
| Heap4.Heap.AlignedArea | freertos/src/heap_4.c:565-586 | the aligned start and the address of the end marker |
| Heap4.Heap.Release | freertos/src/heap_4.c:503-520 | the freed block leaves the live blocks and the free list becomes the coalesced one |
| Heap4.Heap.Free | freertos/src/heap_4.c:485-537 | a live block is released and forgotten, and the minimum-ever counter does not move; a null pointer, or an address that heads a free block, changes nothing, and the assertion catches the second |
| Heap4.Heap.ClientWrite | freertos/src/heap_4.c:448-464 | a raw write of a payload word, which lands in whatever header field lies there, keeps the whole heap valid: no header and no canary that matters is touched |
| HeapState.WriteKeeps | freertos/src/heap_4.c:448-464 | a payload word is no header field and no tail canary of any live or free block |
| Heap4.Heap.UpdateFreeBlockList | freertos/src/heap_4.c:182-188 | walking the free list stamps every free header and nothing else |
| Heap4.Heap.AddToList | freertos/src/heap_4.c:190-202 | stamps both canaries of the block and records it in the first empty slot |
| HeapRuns.RunKeepsGood | freertos/src/heap_4.c:319-537 | every sequence of allocations and releases keeps the heap well formed |
| HeapRuns.AllocThenRelease | freertos/src/heap_4.c:319-537 | freeing a just-allocated block restores the exact earlier live blocks, hence the exact earlier free list |
| HeapRuns.ReleaseAll | freertos/src/heap_4.c:485-537 | freeing all live blocks in any order leaves the single initial free block |
| HeapRuns.AllocatedIsStep | freertos/src/heap_4.c:383-440 | what an allocation establishes is the step of the runs |
| HeapRuns.SplitExact | freertos/src/heap_4.c:397-440 | the lowest adequate free block is used; one that exceeds the aligned request by more than 32 bytes is split, its front of exactly the request becoming live and its rest staying free in its place; otherwise all of it becomes live |
| HeapRuns.LeavesRoom | freertos/src/heap_4.c:403-421 | a free block with room for two requests serves the second after the first |
| HeapRuns.FullTableRemovalFails | freertos/src/heap_4.c:204-219 | 256 allocations of 12 bytes fill the table; freeing the first block then leaves the last one recorded twice |
| AllocTable.AddEntry | freertos/src/heap_4.c:190-202 | the loop puts the block in the first null slot; a full table drops it |
| AllocTable.RemoveEntry | freertos/src/heap_4.c:204-219 | the loop clears the slot and shifts the rest down, or reports that the block is unknown |
| AllocTable.ShiftDown | freertos/src/heap_4.c:215-217 | the second loop moves every later slot down by one and leaves the last as it was |
| AllocTable.AdditionExact | freertos/src/heap_4.c:190-202 | recording a block keeps the table exact if and only if a slot was free; a full table stays as it is |
| AllocTable.RemovalExact | freertos/src/heap_4.c:204-219 | removal keeps the table exact if and only if the last slot was unused or was the one removed |
| TimerRefine.Classify | freertos/src/timers.c:647-685 | for every command time, period and current time within one wrap: the wrapped comparison says "expired" exactly when the absolute expiry is due, otherwise it picks the current list exactly for the current epoch and the overflow list exactly for the next |
| TimerRefine.ScheduleRefines | freertos/src/timers.c:647-685 | prvInsertTimerInActiveList on wrapped ticks files by absolute expiry |
| TimerRefine.ExpireRefines | freertos/src/timers.c:462-499 | prvProcessExpiredTimer on wrapped ticks is the unbounded-time step |
| TimerRefine.FlushRefines | freertos/src/timers.c:846-886 | one turn of the roll-over loop is the unbounded-time step |
| TimerRefine.DrainRefines | freertos/src/timers.c:835-891 | the whole roll-over loop is the unbounded-time drain |
| TimerRefine.AdvanceRefines | freertos/src/timers.c:624-644 | sampling the tick count switches lists exactly when an epoch has ended, and re-establishes which list holds which epoch |
| TimerRefine.TurnRefines | freertos/src/timers.c:538-595 | processing the next expiry on wrapped ticks is the unbounded-time step |
| TimerRefine.ChangePeriodRefines | freertos/src/timers.c:785-797 | the change-period command never reports an expired timer |
| TimerRefine.ObeyRefines | freertos/src/timers.c:688-832 | every command on wrapped ticks is the unbounded-time command |
| TimerState.DrainOne | freertos/src/timers.c:846-886 | the distance to the wrap shrinks although a timer may be re-inserted into the list being drained |
| TimerState.Drain | freertos/src/timers.c:846-886 | the roll-over loop ends, with the current list empty |
| TimerRuns.ListsExact | freertos/src/timers.c:835-891 | in every state reachable from a new daemon the current list holds exactly the active timers of the last sample's epoch, the overflow list exactly those of the next; both are sorted and no timer is filed twice |
| TimerRuns.OneEntry | freertos/src/timers.c:647-685 | an active timer is filed once, in one list |
| TimerRuns.TurnKeeps | freertos/src/timers.c:538-595 | the daemon's turn keeps the lists sorted, exact and without duplicates, and makes no callback early |
| TimerRuns.AcceptKeeps | freertos/src/timers.c:688-832 | so does carrying out a command |
| TimerRuns.AcceptRefines | freertos/src/timers.c:688-832 | one turn of the command loop is the unbounded-time command |
| TimerRuns.NextKeeps | freertos/src/timers.c:502-535 | each daemon or client event keeps the invariant and commutes with wrapping |
| TimerRuns.RunRefines | freertos/src/timers.c:502-535 | over every run the wrapped daemon is the image of the unbounded-time daemon and the invariant holds |
| TimerRuns.FreshInv | freertos/src/timers.c:894-930 | a newly created daemon satisfies the invariant |
| TimerRuns.DrainInOrder | freertos/src/timers.c:846-886 | the roll-over makes the callbacks of the ended epoch in order of expiry and misses none |
| TimerRuns.BlockTimeExact | freertos/src/timers.c:538-621 | within an epoch the daemon waits for ever exactly when both lists and the queue are empty; a finite wait never passes an active expiry and ends exactly at the earliest one of the current epoch, or at the wrap |
| TimerSchedule.ExpireOnSchedule | freertos/src/timers.c:462-499 | re-arming on expiry keeps an auto-reload timer on schedule |
| TimerSchedule.FlushOnSchedule | freertos/src/timers.c:846-886 | re-arming during a roll-over keeps it on schedule |
| TimerSchedule.AcceptOnSchedule | freertos/src/timers.c:749-777 | re-arming by a start command keeps it on schedule |
| TimerSchedule.StartOnSchedule | freertos/src/timers.c:749-777 | starting an inactive timer at tick C puts it on schedule from C |
| TimerSchedule.RunOnSchedule | freertos/src/timers.c:502-535 | no run without commands for the timer takes it off schedule |
| TimerSchedule.AutoReloadExact | freertos/src/timers.c:462-886 | the k-th callback of a timer started at C with period P is for C + kP: none skipped, duplicated, early or drifted, and the next one is filed or on its way |
| TimerSchedule.OneShotExact | freertos/src/timers.c:462-832 | a one-shot timer has its one expiry pending until its one callback, and never after |
| TimerRest.RunBefore | freertos/src/timers.c:462-891 | no callback is made at a tick later than the last sample |
| TimerRest.RestFacts | freertos/src/timers.c:538-595 | when the daemon blocks, no command waits and no active timer is due |
| TimerRest.CallbacksAtRest | freertos/src/timers.c:462-886 | whenever the daemon blocks at a tick, an auto-reload timer started at C with period P has had exactly (tick - C) / P callbacks, and a one-shot timer its one exactly if C + P has come |
| TimerDaemon.TimerList.constructor | freertos/src/timers.c:894-930 | a timer list starts empty |
| TimerDaemon.Daemon.constructor | freertos/src/timers.c:894-930 | the daemon starts with two empty lists and no sample taken |
| TimerDaemon.Daemon.PostToSelf | freertos/src/timers.c:381-421 | posting an internal command appends it, or the assertion that follows fails |
| TimerDaemon.Daemon.InsertTimerInActiveList | freertos/src/timers.c:647-685 | the two list objects change as the step function says |
| TimerDaemon.Daemon.ProcessExpiredTimer | freertos/src/timers.c:462-499 | removal, re-arming and callback on the list objects are the step function |
| TimerDaemon.Daemon.SwitchTimerLists | freertos/src/timers.c:835-891 | the loop over the list it re-inserts into, then the swap of the two pointers, is the step function |
| TimerDaemon.Daemon.SampleTimeNow | freertos/src/timers.c:624-644 | sampling on the daemon's own variables is the step function |
| TimerDaemon.Daemon.GetNextExpireTime | freertos/src/timers.c:598-621 | reads the head of the current list, or zero and the empty flag |
| TimerDaemon.Daemon.ProcessTimerOrBlockTask | freertos/src/timers.c:538-595 | processes or chooses the block time as the step functions say |
| TimerDaemon.Daemon.ProcessCommand | freertos/src/timers.c:688-832 | one turn of the command loop is the step function |
| TimerDaemon.Daemon.HandleCommand | freertos/src/timers.c:745-828 | the switch over the command is the step function |
| TimerDaemon.Daemon.ServeOnce | freertos/src/timers.c:502-535 | one pass of the daemon's loop with all the commands it finds; the queue is empty afterwards |
| TimerCommands.CommandsInOrder | freertos/src/timers.c:381-421 | over every run the commands carried out, followed by those still queued, are the commands accepted, oldest first; never more than five are queued |
| TimerCommands.PostedAccepted | freertos/src/timers.c:399-411 | commands posted together are accepted from the first on, and one is refused only when five are queued |
| TimerCommands.ExpiryExact | freertos/src/timers.c:462-499 | an expired auto-reload timer is filed for its next expiry, or told to start again when that is due too, the assertion failing exactly when the queue is full; a one-shot timer is in no list; the callback then posts its commands |
| TimerCommands.FlushExact | freertos/src/timers.c:846-886 | a turn of the roll-over loop makes the callback, lets it post its commands, and then files the timer again in the same list or queues its restart, as its next expiry falls in the ended epoch or not |
| TimerCommands.LateStartExact | freertos/src/timers.c:753-772 | a start that is late makes the callback, lets it post its commands, and then queues the restart |
| TimerEffects.StartExact | freertos/src/timers.c:749-777 | a start or reset in time files the timer for its expiry alone; one that is late makes the callback at once and, for an auto-reload timer, queues the restart |
| TimerEffects.ChangePeriodExact | freertos/src/timers.c:785-797 | a change of period files the timer, wherever it was, for the new period counted from the moment the command is carried out, and makes no callback |
| TimerEffects.StopExact | freertos/src/timers.c:779-826 | after a stop or a delete the timer is in no list, and the command makes no callback for it |
| TimerEffects.RestartExact | freertos/src/timers.c:462-886 | after a start, a reset or a change of period the schedule begins afresh whatever came before: the callbacks from then on are for C + P, C + 2P and so on, and the next one, and only it, is pending |
| TimerEffects.StoppedStays | freertos/src/timers.c:502-891 | a stopped timer has no callback in any run in which no command about it is posted |
| TimerEffects.DeletedStays | freertos/src/timers.c:502-891 | a deleted timer never has a callback again |
| TimerEffects.TurnFires | freertos/src/timers.c:538-595 | with a timer due, a turn of the daemon makes exactly one callback, for the earliest active expiry; with none due it makes none |
| TimerEffects.TurnDrains | freertos/src/timers.c:835-891 | after a wrap, a turn makes a callback for every expiry of the ended epoch and keeps those of the next |
| TimerEffects.RunForget | freertos/src/timers.c:502-535 | what the daemon does in any run does not depend on the callbacks made before it |
| TimerServing.ServeIsRun | freertos/src/timers.c:502-535 | such a pass is the run of one turn and one acceptance for each command |
| QueueRing.AppendItem | freertos/src/queue.c:2066-2077 | storing at the write pointer appends, at every position of the ring |
| QueueRing.PrependItem | freertos/src/queue.c:2079-2091 | storing at the read pointer and stepping it back prepends |
| QueueRing.ReplaceItem | freertos/src/queue.c:2079-2106 | overwriting the one item of a queue of length one replaces it |
| QueueRing.DropItem | freertos/src/queue.c:2119-2134 | advancing the read pointer drops the oldest item |
| QueueObject.QueueObj.constructor | freertos/src/queue.c:247-297 | a reset queue is valid, empty and unlocked |
| QueueObject.QueueObj.CopyDataToQueue | freertos/src/queue.c:2040-2116 | copying into the storage puts the item at the back or front of the sequence, or replaces it |
| QueueObject.QueueObj.CopyDataFromQueue | freertos/src/queue.c:2119-2134 | copies the oldest item |
| QueueObject.QueueObj.SendSection | freertos/src/queue.c:746-870 | the send critical section: exactly when there is room, store and wake one reader |
| QueueObject.QueueObj.SendFromISRSection | freertos/src/queue.c:954-1068 | the same from an interrupt, only counting while locked, with the int8_t counter's wrap-around |
| QueueObject.QueueObj.ReceiveSection | freertos/src/queue.c:1266-1325 | the receive critical section removes the oldest item and wakes one writer |
| QueueObject.QueueObj.ReceiveFromISRSection | freertos/src/queue.c:1775-1835 | the same from an interrupt |
| QueueObject.QueueObj.PeekSection | freertos/src/queue.c:1628-1694 | peek returns the head, restores the read pointer, changes no item, and passes the wake-up on |
| QueueObject.QueueObj.LockQueue | freertos/src/queue.c:232-244 | locking starts the counters unless already started |
| QueueObject.QueueObj.UnlockTxSection | freertos/src/queue.c:2145-2223 | the first half of unlocking wakes one reader per recorded post |
| QueueObject.QueueObj.UnlockRxSection | freertos/src/queue.c:2226-2253 | the second half wakes one writer per recorded receive |
| QueueSpec.SendSized | freertos/src/queue.c:2040-2116 | the count stays within the length if and only if a full queue of zero-size items is not overwritten |
| QueueSpec.OverwriteCountsTwo | freertos/src/queue.c:2047-2116 | a given binary semaphore that is overwritten counts two |
| QueueSpec.EnlistByPriority | freertos/src/tasks.c:2910-2923 | the event list stays in priority order and gains exactly the new waiter |
| QueueWakeups.StepKeeps | freertos/src/queue.c:725-920 | every step of every interleaving keeps: while a reader is blocked, items are covered by woken readers and recorded posts; dually for writers |
| QueueWakeups.RunInv | freertos/src/queue.c:725-1838 | the same over every run |
| QueueWakeups.NoLostWakeup | freertos/src/queue.c:725-2254 | in every reachable state with no lock window open and no wake-up pending, a blocked reader means an empty queue and a blocked writer a full one |
| QueueWakeups.WokenCanRetry | freertos/src/queue.c:1239-1378 | a woken task can always retry once the scheduler runs |
| QueueCrowding.CounterExact | freertos/src/queue.c:2137-2254 | the operations of one lock window wake as many tasks as they should if and only if there were under 128 of them, or nobody waits, or so many that the excess is woken directly |
| QueueCrowding.WindowExact | freertos/src/queue.c:954-1068 | that holds of posts, the counter cTxLock and the readers |
| QueueCrowding.ReceiveWindowExact | freertos/src/queue.c:1775-1835 | and of receives, the counter cRxLock and the writers |
| QueueCrowding.CrowdedWindowStrands | freertos/src/queue.c:954-1068 | 128 posts in one window leave a reader blocked on a queue of 128 items |
| QueueCrowding.PlacedReachable | freertos/src/queue.c:1239-1378 | that window is reachable from an initial state |
| QueueCrowding.CrowdedReceivesStrand | freertos/src/queue.c:1750-1838 | 128 receives in one window leave a writer blocked on an empty queue |
| QueueCrowding.PlacedFullReachable | freertos/src/queue.c:725-920 | that window is reachable from an initial state |
| QueueCounts.StepCounted | freertos/src/queue.c:2040-2134 | each step keeps the count within the length and every item at the item size, if no zero-size item is overwritten |
| QueueCounts.RunCounted | freertos/src/queue.c:2040-2134 | the same over every run |
| QueueCalls.ItemsExact | freertos/src/queue.c:2040-2134 | every step moves items as its call says and no others: out the oldest, in the newest, or sent to the front the oldest, or by overwriting the only one |
| QueueCalls.FirstInFirstOut | freertos/src/queue.c:725-1378 | over every run of sends to the back, the items held at first and accepted since are the items received followed by those held, in the same order |
| QueueCalls.EndsExact | freertos/src/queue.c:848-920 | a step ends a call exactly when it serves it, or when the call gives up: at once without a block time, or after its block time, a reader only if the queue is then empty |
| QueueCalls.CallEndsOnce | freertos/src/queue.c:725-1378 | whatever the others do, a call is over exactly when it was served once or gave up once, and one with time left only when it was served |
| QueueBlocking.HighestFirst | freertos/src/tasks.c:2910-2923 | in every reachable state, whatever step comes next, the tasks it wakes come first in their list and none that stays has a higher priority |
| QueueBlocking.Blocks | freertos/src/queue.c:872-905 | a call that finds nothing and is not disturbed ends up waiting in its place on its own event list, with the queue as it was, and unlocked |
| QueueBlocking.PostReachesReader | freertos/src/queue.c:954-1068 | an item posted to an empty queue wakes the first blocked reader, whose retry gets it and ends its call |
| QueueBlocking.ReceiveReachesWriter | freertos/src/queue.c:1750-1838 | a receive from a full queue wakes the first blocked writer, whose retry stores its item |
| QueueBlocking.TimeOutFrees | freertos/src/queue.c:907-918 | a block time that runs out takes that task off its list, and no other, and lets it run on |
| RecursiveMutex.StepKeeps | freertos/src/queue.c:574-664 | every access of either call, interleaved anyhow, keeps holder, count and availability consistent |
| RecursiveMutex.RunKeeps | freertos/src/queue.c:574-664 | the same over every run |
| RecursiveMutex.MutualExclusion | freertos/src/queue.c:452-664 | at most one holder in every interleaving; available exactly when the holder is null |
| RecursiveMutex.ReleaseExact | freertos/src/queue.c:574-622 | the mutex is released exactly at the give that matches the outermost take, and then always |
| RecursiveMutex.StrangerGives | freertos/src/queue.c:574-622 | a give by a task that is not the holder changes nothing |
| MutexCalls.GiveGives | freertos/src/queue.c:574-622 | a give by the holder at depth d, however others interleave, is over after its own four or five accesses at depth d - 1, and its last one makes the mutex available without a holder exactly when d was 1 |
| MutexCalls.TakeTakes | freertos/src/queue.c:629-664 | a take, however others interleave, is complete two accesses after it got the mutex, at once if it was the holder, one level deeper; it fails only if it would not wait for a mutex that was taken |
| StreamRing.WriteAppends | freertos/src/stream_buffer.c:1020-1063 | the two copies of a wrapped write append to the bytes held |
| StreamRing.ReadTakes | freertos/src/stream_buffer.c:1066-1118 | the two copies of a wrapped read take the oldest bytes and leave the rest |
| StreamBuffer.Buffer.constructor | freertos/src/stream_buffer.c:219-264 | a new buffer is empty and can hold the size asked for |
| StreamRing.SpacesExactIff | freertos/src/stream_buffer.c:451-472 | the unsigned arithmetic gives the free space for all indices if and only if the length is at most 2^31 |
| StreamBuffer.Buffer.SpacesAvailable | freertos/src/stream_buffer.c:451-472 | free space plus bytes held is the length minus one, in 32-bit arithmetic |
| RingStorage.CopyIn | freertos/src/stream_buffer.c:1035-1043 | memcpy into the storage area: exactly those bytes change |
| StreamBuffer.Buffer.BytesInBuffer | freertos/src/stream_buffer.c:1121-1138 | the number of bytes held |
| StreamBuffer.Buffer.WriteBytes | freertos/src/stream_buffer.c:1020-1063 | which of its assertions hold; then all the bytes are appended, across the wrap |
| StreamBuffer.Buffer.ReadBytes | freertos/src/stream_buffer.c:1066-1118 | takes the oldest bytes, across the wrap, also with a stale lower count |
| StreamBuffer.Buffer.WriteMessage | freertos/src/stream_buffer.c:639-688 | a stream write is cut to the space; a message that passes the guard is written with its length, unless an assertion in the copy fails |
| StreamBuffer.Buffer.ReadMessage | freertos/src/stream_buffer.c:852-899 | a message is read whole, or the tail is put back and nothing changes |
| StreamBuffer.Buffer.Send | freertos/src/stream_buffer.c:487-585 | the send without waiting, for streams and messages, with the required space added in a size_t |
| StreamBuffer.Buffer.Receive | freertos/src/stream_buffer.c:691-792 | the receive without waiting, for streams and messages |
| StreamFraming.LengthRoundTrip | freertos/src/stream_buffer.c:664-670 | the stored length bytes decode to the length |
| StreamFraming.GuardExact | freertos/src/stream_buffer.c:494-512 | the guard decides that the frame fits if and only if the sum of the lengths does not wrap or the wrapped sum is refused anyway |
| StreamFraming.SendExact | freertos/src/stream_buffer.c:639-688 | a message send is all or nothing if and only if the message is not empty and its frame length does not wrap, or the guard refuses it |
| StreamFraming.WrappedLengthPasses | freertos/src/stream_buffer.c:494-512 | a length of 2^32 - 3 passes the guard with a single byte free |
| StreamFraming.ReceiveFirst | freertos/src/stream_buffer.c:852-899 | from whole stored messages a receive yields the oldest whole, or, when the caller's buffer is too small, nothing and leaves all in place |
| StreamFraming.StepInStep | freertos/src/stream_buffer.c:639-899 | a message that is not empty and whose frame length does not wrap is accepted exactly when its frame fits, the oldest is received exactly when the caller can hold it, and the buffer stays equal to the frames of the messages accepted and not yet received |
| StreamFraming.RunInStep | freertos/src/stream_buffer.c:639-899 | over every run the messages received are the messages accepted, in order and whole |
| StreamFraming.EmptyMessageAsserts | freertos/src/stream_buffer.c:639-688 | an empty message fails the assertion of the copy exactly when its header fits, and the header stays behind |
| StreamProtocol.Conservation | freertos/src/stream_buffer.c:451-472 | read in one state, occupied plus free is the length minus one |
| StreamProtocol.WriterReads | freertos/src/stream_buffer.c:487-545 | a stale tail or a stale space count is safe for the writer |
| StreamProtocol.ReaderReads | freertos/src/stream_buffer.c:691-792 | a stale head or a stale byte count is safe for the reader |
| StreamProtocol.WriteByte | freertos/src/stream_buffer.c:1020-1063 | copying beyond the head, byte by byte, disturbs nothing the reader may read |
| StreamProtocol.Publish | freertos/src/stream_buffer.c:1045-1062 | moving the head publishes exactly the bytes copied |
| StreamProtocol.Deliver | freertos/src/stream_buffer.c:1098-1112 | moving the tail delivers exactly the bytes read |
| StreamProtocol.StepKeeps | freertos/src/stream_buffer.c:451-1138 | every step of either side keeps the ring faithful and all indices in range |
| StreamProtocol.RunKeeps | freertos/src/stream_buffer.c:451-1138 | the same over every interleaving |
| StreamProtocol.DeliveredIsPrefix | freertos/src/stream_buffer.c:451-1138 | the bytes delivered are always a prefix of the bytes accepted, and the storage holds exactly the rest |
| StreamCalls.SendMoves | freertos/src/stream_buffer.c:487-585 | whatever the reader does meanwhile, a send accepts as many of its bytes, the first ones, as there was room for when it last read the tail, at its start or after waiting, and none before it is over |
| StreamCalls.ReceiveMoves | freertos/src/stream_buffer.c:691-792 | whatever the writer does meanwhile, a receive delivers as many as it may of the bytes pending when it last read the head, the oldest first, and none before it is over |
| ListOrder.WalkVisitsEachOnce | freertos/inc/list.h:276-287 | n walker calls on n items return each item exactly once |
| ListOrder.AddedNearlyLast | freertos/src/list.c:74-100 | an item added at the end is visited after every other item but the one the index rests on |
| ListOrder.AddedLastIff | freertos/inc/list.h:370-389 | it is the last to be visited, as list.h says, if and only if the index rests on the end marker |
| ListOrder.RemovalKeepsOrder | freertos/src/list.c:170-196 | removal, also of the item the index rests on, keeps the visiting order of the rest |
| IntrusiveList.InsertionSorts | freertos/src/list.c:103-167 | ordered insertion keeps a sorted list sorted, and puts the item after its equals |
| IntrusiveList.SortedPlaceIs | freertos/src/list.c:150-154 | the place where the search loop stops is determined by the values alone |
| IntrusiveList.SplicedIn | freertos/src/list.c:157-160 | four pointer writes splice an item into the doubly linked ring |
| IntrusiveList.SplicedOut | freertos/src/list.c:176-177 | two pointer writes take one out |
| IntrusiveList.List.constructor | freertos/src/list.c:37-59 | an initialised list is empty, its end marker linked to itself |
| IntrusiveList.List.InsertEnd | freertos/src/list.c:74-100 | links, containers, count and index agree with the sequence with the item just before the index |
| IntrusiveList.List.Insert | freertos/src/list.c:103-167 | links, containers and count agree with the sorted insertion, also for the value portMAX_DELAY |
| IntrusiveList.List.NextEntry | freertos/inc/list.h:276-287 | the walker returns the owner of the next item and rotates the visiting order by one |
| IntrusiveList.List.Unlink | freertos/src/list.c:170-196 | links, containers, count and index agree with the sequence without the item |
| IntrusiveList.Remove | freertos/src/list.c:170-196 | removal through the container pointer; returns the number left |
| ListClients.TimerInsertionIsListInsertion | freertos/src/list.c:103-167 | the ordered insertion of the timer model is vListInsert |
| ListClients.EventInsertionIsListInsertion | freertos/src/list.c:103-167 | so is that of the event lists of queues |
| EventSpec.WordsAreNumbers | freertos/src/event_groups.c:47-56 | sets of bit numbers below 32 and 32-bit item values correspond one to one |
| EventSpec.WaitWordTests | freertos/src/event_groups.c:534-558 | packing a request into an item value and testing it there is prvTestWaitCondition of the request |
| EventSpec.ReleaseWordReads | freertos/src/event_groups.c:574-580 | a released task reads back exactly the snapshot |
| EventSpec.SatisfiedMonotone | freertos/src/event_groups.c:446-470 | clearing bits never satisfies a waiter |
| EventSpec.WalkExact | freertos/src/event_groups.c:530-586 | one walk deals with each waiter once and releases exactly those whose condition holds in the one snapshot |
| EventSpec.MaskExact | freertos/src/event_groups.c:560-590 | a bit is in the mask exactly when the word of some released entry has it, and the clear-on-exit flag |
| EventSpec.ConditionMeans | freertos/src/event_groups.c:656-688 | the wait condition holds when all the bits asked for are set, or any of them |
| EventCalls.ReleasesExactly | freertos/src/event_groups.c:530-586 | a set releases exactly the waiting tasks whose requests the old and the new bits together meet |
| EventCalls.SetLeaves | freertos/src/event_groups.c:564-590 | of the old and the new bits a set leaves exactly those that no task it releases had asked to be cleared on exit |
| EventCalls.BlockedReturns | freertos/src/event_groups.c:296-595 | in any run a task that blocks and is not timed out stays blocked until the first set that meets its request, and returns the bits as they were at that set, whatever happens to them before it runs |
| EventCalls.WaitExact | freertos/src/event_groups.c:296-386 | a wait whose condition holds returns the bits and clears what it waited for if asked to; otherwise it returns them or joins the end of the list, and clears nothing |
| EventCalls.SyncWaits | freertos/src/event_groups.c:218-246 | a rendezvous that is not complete sets its bits, then waits for all it wants, to be cleared on exit, or returns the bits left |
| EventCalls.ClearExact | freertos/src/event_groups.c:446-470 | clearing returns the bits before, takes away exactly those given and leaves no waiting task satisfied |
| EventCalls.TimedOutReturns | freertos/src/event_groups.c:384-436 | a task that timed out returns the bits as they are when it runs, and clears what it waited for if they meet its request after all and it was to |
| EventProtocol.SetKeeps | freertos/src/event_groups.c:504-595 | setting bits leaves no satisfied waiter on the list |
| EventProtocol.SyncKeeps | freertos/src/event_groups.c:176-293 | nor does a rendezvous, and its value holds no control bit |
| EventProtocol.ResumeKeeps | freertos/src/event_groups.c:384-436 | a task that runs on, released or timed out, keeps the invariant and gets a value without control bits |
| EventProtocol.StepKeeps | freertos/src/event_groups.c:176-595 | every operation keeps the invariant |
| EventProtocol.RunKeeps | freertos/src/event_groups.c:176-595 | the same over every run |
| EventProtocol.NeverLeftBlocked | freertos/src/event_groups.c:176-595 | in no reachable state is a task whose condition holds left waiting; no stored or returned value holds a control bit |
| EventRendezvous.Rendezvous | freertos/src/event_groups.c:176-293 | the completing caller returns a value containing its bits, every task blocked for them is released with that value, and the bits end up clear |
| EventRendezvous.StillGathering | freertos/src/event_groups.c:218-236 | until the set is complete everyone who has arrived stays |
| EventRendezvous.Meeting | freertos/src/event_groups.c:176-293 | any number of parties: all leave with the same value once the set is complete, nobody stays behind |
| EventObject.EventGroup.constructor | freertos/src/event_groups.c:130-172 | a new group has no bits and no waiters |
| EventObject.EventGroup.Release | freertos/src/tasks.c:3052-3083 | stores the word in the item and takes it off the list, order kept |
| EventObject.EventGroup.Visit | freertos/src/event_groups.c:530-586 | one visit: the next pointer is saved first, so removal does not break the walk |
| EventObject.EventGroup.SetBits | freertos/src/event_groups.c:504-591 | the walk over the shrinking intrusive list: kept entries in order, released ones with the snapshot, bits less the mask |
| EventObject.EventGroup.ReadBits | freertos/src/event_groups.c:594-594 | the value returned is the bits when they are read, after the scheduler has resumed |
| EventObject.EventGroup.ClearBits | freertos/src/event_groups.c:446-470 | exactly the given bits are cleared; returns the value before |
| EventObject.EventGroup.Place | freertos/src/tasks.c:2927-2948 | the blocking task joins the end of the list with its word |
| EventObject.EventGroup.WaitBits | freertos/src/event_groups.c:296-386 | returns, times out at once or blocks as the condition and the block time say |
| EventObject.EventGroup.Sync | freertos/src/event_groups.c:176-236 | sets, then returns or blocks; the rendezvous bits are cleared by the completing call |
| EventObject.EventGroup.Finish | freertos/src/event_groups.c:384-436 | the tail after blocking: snapshot or fresh value, late clearing, and never a control bit |
| CoRoutineDelays.EmptyAtSwap | freertos/src/croutine.c:226-240 | the delayed list that is swapped out at a wrap is always empty |
| CoRoutineDelays.MovedDue | freertos/src/croutine.c:226-240 | after one tick nothing filed is overdue, on wrapped and on absolute ticks alike |
| CoRoutineDelays.ReleaseKeeps | freertos/src/croutine.c:243-271 | the inner loop wakes exactly those due at this tick |
| CoRoutineDelays.WaitRefines | freertos/src/croutine.c:159-191 | the wrapped comparison files a co-routine by its absolute wake time, for every delay |
| CoRoutineDelays.WaitKeeps | freertos/src/croutine.c:159-191 | the lists stay exact if and only if the delay is at least one tick |
| CoRoutineDelays.NextKeeps | freertos/src/croutine.c:159-275 | each event keeps the invariant and commutes with wrapping |
| CoRoutineDelays.RunRefines | freertos/src/croutine.c:159-275 | over every run the wrapped lists are the image of the unbounded ones and every wake-up was at its exact tick |
| CoRoutineDelays.WokenExactly | freertos/src/croutine.c:159-275 | a co-routine delayed at count C by D ticks is delayed exactly while the count is below C + D and woken for exactly that tick, across wraps and however late the scheduler runs |
| CoRoutineDelays.OccurredNeverWoken | freertos/src/croutine.c:197-217 | a co-routine whose event has occurred is on no delayed list, and no tick wakes it until it delays itself again; the others stay filed |
| CoRoutineDelays.ZeroDelayExact | freertos/inc/croutine.h:290-295 | a delay of zero is served at the next tick if and only if that tick does not wrap the count; otherwise it waits a whole wrap |
| CoRoutines.ReadiedHolds | freertos/src/croutine.c:67-74 | a co-routine made ready is on the list of its priority and nobody has left any list |
| CoRoutines.ReadiedNearlyLast | freertos/src/croutine.c:67-74 | it takes its turn after all others of its priority but the one that ran last; the turns on the other lists are unchanged |
| CoRoutines.Scheduler.constructor | freertos/src/croutine.c:308-326 | the initial lists are empty |
| CoRoutines.Scheduler.AddToReadyQueue | freertos/src/croutine.c:67-74 | inserted at the end of its list; no list above the top priority holds anyone |
| CoRoutines.Scheduler.CheckPendingReadyList | freertos/src/croutine.c:197-217 | all co-routines readied by interrupts, also between the turns of the loop, leave the delayed lists and become ready, in order |
| CoRoutines.Scheduler.PassTick | freertos/src/croutine.c:226-271 | one tick: the count, the swap at a wrap, and those due |
| CoRoutines.Scheduler.CheckDelayedList | freertos/src/croutine.c:220-275 | catching up tick by tick, with swaps, is the step function; those woken become ready in order |
| CoRoutines.Scheduler.AddToDelayedList | freertos/src/croutine.c:159-191 | the running co-routine leaves its ready list and is filed by wake time |
| CoRoutines.Scheduler.Select | freertos/src/croutine.c:286-299 | the next in turn among the ready co-routines of the highest ready priority; none exactly when none is ready |
| CoRoutines.Scheduler.Schedule | freertos/src/croutine.c:278-305 | one pass of the scheduler, up to the call of the co-routine |

## Left out

- `tasks.c`: ready lists, context switches, priorities, priority inheritance and disinheritance.
  Taking a task off an event list and timing out are steps of the models.
- Blocking time: how long a task waits is not modelled; a blocked task may time out at any step.
- Heap: `vPortMemoryScan`, `vPortCheckIntegrity` and the owner field of block headers (output and raw
  memory reads); pointers passed to `vPortFree` that are no block address.
- Heap4.Heap.Free: addresses that head no block, live or free; among them is a block that its first free
  merged into the one before it, whose old header is still in memory but is no header any more.
- Heap4.Heap.ClientWrite: payload writes are raw memory writes seen through all header fields; the
  allocator's own header writes are kept in one map per field.
- Heap4.Heap.Malloc: the heap structure is stated at the points where the scheduler is resumed, not
  between single word writes, because the scheduler is suspended there.
- Timers: `xTimerPendFunctionCall` (compiled out), creation and deletion of timer memory, and the
  priorities of tasks that post commands.
- TimerDaemon.Daemon.ProcessTimerOrBlockTask: the wait is a returned value; the lock window inside
  vQueueWaitForMessageRestricted is one step.
- TimerDaemon.TimerList.constructor: the two timer lists are sequences inside list objects;
  `ListClients` shows that their ordered insertion is that of the intrusive list.
- Queues: `xQueueGenericReset` of a queue in use (it wakes only one sender), queue sets, the registry,
  co-routine queue calls, and the mutex holder outside `RecursiveMutex`.
- QueueProtocol: the copy inside a critical section is one step, because interrupts are masked there.
- Stream buffers: task notifications and trigger levels; a message writer interleaved inside a message
  with the reader, since the reader moves the tail and may put it back.
- StreamBuffer.Buffer.constructor: sizes that the heap refuses, or whose allocation sum wraps.
- StreamBuffer.Buffer.Send: the form that waits is covered by `StreamProtocol`, where the indices may
  be read afresh any number of times.
- Event groups: `vEventGroupDelete`, and setting or clearing bits from interrupts, which is deferred to
  the timer task.
- EventObject.EventGroup.SetBits: moving released tasks to the ready list is the returned sequence.
- Words of event groups are sets of bit numbers; `EventSpec.WordsAreNumbers` ties them to 32-bit values.
- CoRoutines.Scheduler.CheckPendingReadyList: the event lists of co-routines are not modelled.
- Static creation, tracing, list integrity bytes, ports and MPU wrappers.
