# Jiny kernel: a verified model of its core

This project models the hard parts of the Jiny kernel in Dafny and proves what they promise: the buddy page allocator,
the timer queues, the scheduler's wait and wakeup protocol, the recursive mutex, the network queues, the Internet
checksum and the frames built with it, both halves of a TCP connection, the page cache, the per-CPU buffer cache and the
list of memory areas. `dafny verify dfyconfig.toml` checks all of it.

Sequential code is modelled as classes whose methods change their fields step by step, each tied by its contract to a
function of the old state; what the code is for is then proved about those functions. Protocols that several CPUs run
at once are step machines in which one step is one access to a shared field (for the scheduler, one `_schedule`), and the
theorems are about every state that any run reaches.

| file | what it models |
|---|---|
| Common.dfy | what several modules share |
| Dyadic.dfy, FreeArea.dfy, Buddy.dfy | mm/memory.c: free lists, pair bits, splitting and merging |
| WaitQueue.dfy | kernel/ipc.cc: wait queues that store timeouts as differences |
| Scheduler.dfy | kernel/sched_task.cc and kernel/ipc.cc: run queues, wait, wakeup, `_schedule` |
| Mutex.dfy | kernel/ipc.cc: the recursive mutex |
| Ring.dfy | fs/socket.cc: the ring with one lock per side |
| SendQueues.dfy | kernel/network_sched.cc: the `sendqs_empty` protocol |
| Checksum.dfy, Packet.dfy | fs/tcp.cc: three checksum routines and the frames they seal |
| TcpReceive.dfy, TcpSend.dfy | fs/tcp.cc, fs/socket.cc: in-order delivery and the retransmit window |
| PageIndex.dfy, PageLists.dfy, PageCache.dfy | mm/pagecache.cc: the index of an inode, the LRU lists, housekeeping |
| PageBuckets.dfy | mm/jslab.c: network buffers cached per CPU, with reference counts |
| Vma.dfy | mm/vm.cc: mmap, brk, munmap, fork |

## Main results

- Buddy allocator: over every script of allocations and frees the free lists hold exactly the maximal aligned blocks of
  the free pages, so they depend on the set of free pages alone, and a session that gives everything back ends with the
  lists it started with. An allocation fails if and only if no aligned run of its size is free. One pair bit tells
  whether the buddy is free.
- Timer queues: the time left of a waiter drops by exactly the ticks that passed whatever other waiters do, nobody is
  woken early, and an overdue waiter leaves within its position plus one further ticks.
- Scheduler: over every interleaving each task is in exactly one place and no BUG() guard fires, and tasks run in turn:
  one with i tasks before it on a run queue is current after i + 1 calls of `_schedule` on its CPU. Were the lock
  released before `current_cpu` is cleared, a wakeup would hit a guard.
- Mutex: at most one holder, `count` plus holders is 1, and `recursive_count` is the owner's lock calls less its unlock
  calls; a lock of the free mutex and every nested call return in a fixed number of accesses.
- Ring and send queues: entries leave once and in order although full and empty are told by slot contents only, callers
  are told the truth, and neither side waits for the other; when nothing is in flight and the flag says empty, every
  packet has been sent exactly once, those of a CPU in order, and the second scan is what this needs. An undisturbed
  drain comes to an end with nothing left.
- Checksums: the 64-bit form and the add-with-carry chain return exactly what the 16-bit loop returns, and every
  generated frame verifies.
- TCP: what is read and what is still queued is exactly the accepted part of the peer's stream if and only if the input
  queue was never full when in-order data came. On the sending side, for every run with any ACKs and any wrap of the
  number, every byte at or above the highest ACK is held at all times if and only if no freeing pass meets a slot that
  is numbered below the ACK field and still needed; a held byte is in exactly one live slot.
- Page cache: the hash lists are a map, every page is in exactly one place, housekeeping crashes exactly in a starved
  state and its outcome is given list by list, and a request for a page fails exactly if no page could be reclaimed.
- Buffer cache: buckets are conserved, counters add up modulo 2^64, and a buffer goes back only with its last reference.
- Memory areas: always ordered and disjoint; linking succeeds if and only if the area fits.

Where the code does not meet what one would expect of it, the code is modelled as it is, with the input that shows it and
the exact condition:

- `TcpReceive.OverrunSkipsBytes` is the run, `TcpReceive.StreamDelivery` the condition (no in-order data on a full
  queue).
- `TcpSend.WrapLosesByte` gives, for every initial number, a run with sane ACKs that loses a byte at the wrap,
  `TcpSend.PartialAckLosesTail` one with an ACK inside a segment. `TcpSend.CoverageExactly` is the condition for whole
  runs, `TcpSend.FreshSurvives` the guard at a write, and `TcpSend.LostAcrossWrap` says what it means when ACKs lie
  between segments.
- `PageCache.TakeAll` reaches the state from a new cache of any size, `PageCache.StarvedExactly` is the condition.
- `WaitQueue.OvertakesExactly` says when a wait, read as a negative length, goes ahead of an overdue waiter.
- `Vma.AddressSpace.Link` turns an area away that ends exactly where the first one starts, and says so.

## Model

| member | source | states |
|---|---|---|
| `Dyadic.PairOf` | mm/memory.c:83-107 | a block is one of the two halves of its pair; the exclusive or with its size is the other half and the mask is the parent |
| `Dyadic.BuddyJoins` | mm/memory.c:83-107 | a block and its buddy are disjoint, share one bitmap index and together are the parent block |
| `Dyadic.Nest` | mm/memory.c:83-128 | aligned blocks that share a page are nested |
| `FreeArea.TakeCanonical` | mm/memory.c:56-63 | taking a free block and flipping its pair bit keeps the canonical form, for the pages that are left |
| `FreeArea.PutCanonical` | mm/memory.c:45-54 | adding a block whose buddy is not free and flipping the bit keeps the canonical form, with its pages added |
| `FreeArea.BitTellsBuddy` | mm/memory.c:94-100 | while a block is allocated the one bit of its pair is set exactly if its buddy is on the free list |
| `FreeArea.RunInBlock` | mm/memory.c:341-371 | an aligned run of free pages lies inside one listed block of at least its order |
| `FreeArea.ListsAreMaximalBlocks` | mm/memory.c:83-128 | a block is listed if and only if it is a maximal aligned block of the set of free pages |
| `Buddy.EmptyListsNoRun` | mm/memory.c:341-371 | with every list from the order up empty, no aligned run of that size is free |
| `Buddy.FreeApartFromLive` | mm/memory.c:331-389 | a block inside the free pages shares no page with any live block |
| `Buddy.PageAllocator.FreePagesOk` | mm/memory.c:83-107 | the merge loop keeps the lists canonical and adds exactly the freed block to the free pages |
| `Buddy.PageAllocator.Expand` | mm/memory.c:118-128 | splitting gives back everything but one block of the wanted order, keeps the canonical form and the page count |
| `Buddy.PageAllocator.TakeBlock` | mm/memory.c:341-371 | finds an aligned free block, or there is no free run of that order |
| `Buddy.PageAllocator.SetReferenced` | mm/memory.c:373-391 | marks exactly the pages of the block, each of which was unmarked |
| `Buddy.PageAllocator.ClearReferenced` | mm/memory.c:304-324 | unmarks exactly the pages of the block, each of which was marked |
| `Buddy.PageAllocator.HandOut` | mm/memory.c:118-128 | the fields of the pages of a block that is handed out; the assertion on PageReferenced holds |
| `Buddy.PageAllocator.GetFreePages` | mm/memory.c:331-399 | fails if and only if the order is out of range or no aligned free run exists; else returns an aligned block apart from every live one |
| `Buddy.PageAllocator.PutFreePages` | mm/memory.c:264-329 | a block freed by its own head and order becomes free, with the counts and assertions in order |
| `Buddy.PageAllocator.constructor` | mm/memory.c:141-193 | empty lists and clear bitmaps |
| `Buddy.PageAllocator.AdoptPage` | mm/memory.c:198-229 | one page that looks allocated is freed at boot |
| `Buddy.PageAllocator.InitMem` | mm/memory.c:198-229 | after boot exactly the unreserved pages are free and the lists are canonical |
| `Buddy.PageAllocator.Run` | mm/memory.c:264-399 | any script of order-matched requests leaves the lists canonical and the handles right |
| `FreeArea.SameLists` | mm/memory.c:83-128 | the free lists are a function of the set of free pages |
| `Buddy.PageAllocator.ReleaseAll` | mm/memory.c:264-329 | freeing everything, in any order, brings back exactly the free blocks of any time when nothing was allocated |
| `Buddy.PageAllocator.Session` | mm/memory.c:264-399 | whatever a client asks for and gives back, once all is given back the free lists hold the blocks they held at the start |
| `WaitQueue.InsertDue` | kernel/ipc.cc:546-580 | a new waiter is due after its own ticks and nobody else's due time moves |
| `WaitQueue.InsertValid` | kernel/ipc.cc:546-580 | insertion keeps every difference behind the head non-negative |
| `WaitQueue.DeleteDue` | kernel/ipc.cc:582-616 | taking one waiter out leaves every other due time as it was |
| `WaitQueue.DeleteValid` | kernel/ipc.cc:582-616 | deletion keeps every difference behind the head non-negative |
| `WaitQueue.TickDue` | kernel/ipc.cc:332-378 | a tick brings every waiter one tick closer and wakes the head exactly when it is then due |
| `WaitQueue.TickValid` | kernel/ipc.cc:332-378 | a tick keeps every difference behind the head non-negative |
| `WaitQueue.RunDue` | kernel/ipc.cc:332-378 | over any run the time left drops by exactly the ticks that passed |
| `WaitQueue.NeverEarly` | kernel/ipc.cc:332-378 | the timer wakes nobody before the requested ticks have passed |
| `WaitQueue.StaysUntilDue` | kernel/ipc.cc:332-378 | a waiter that nobody wakes or takes out is still there as long as fewer ticks have passed than it asked for, whatever the others do |
| `WaitQueue.StepActs` | kernel/ipc.cc:546-658 | a wait makes its task wait for its ticks, a deletion and a wakeup take the task out |
| `WaitQueue.OvertakesExactly` | kernel/ipc.cc:546-580 | a new waiter goes ahead of another if and only if it is due before it |
| `WaitQueue.OverdueMovesUp` | kernel/ipc.cc:546-580 | each tick moves an overdue waiter up, as long as nobody starts a wait that is due before it |
| `WaitQueue.LeavesInTime` | kernel/ipc.cc:332-378 | an overdue waiter that nobody overtakes leaves within its position plus one further ticks |
| `WaitQueue.UnsignedWaits` | kernel/ipc.cc:546-580 | waits of length 0 or more overtake no overdue waiter |
| `WaitQueue.WaitList.AddToMe` | kernel/ipc.cc:546-580 | the scan loop is the insertion function |
| `WaitQueue.WaitList.DelFromMe` | kernel/ipc.cc:582-616 | removes the waiter if it is there and says whether it was |
| `WaitQueue.WaitList.CheckTimeout` | kernel/ipc.cc:332-378 | one queue's share of a timer tick |
| `WaitQueue.WaitList.WakeTurn` | kernel/ipc.cc:630-649 | one locked turn of wakeup, with anything happening between turns: the head goes, or the queue is empty by then |
| `WaitQueue.WaitList.Wakeup` | kernel/ipc.cc:618-658 | undisturbed, wakes from the head, one waiter or all, in queue order |
| `Scheduler.Picks` | kernel/sched_task.cc:825-865 | `_schedule` passes its guards: it keeps the current task and changes nothing, or a proper switch is due |
| `Scheduler.ScheduleSwitches` | kernel/sched_task.cc:866-913 | the assignments of `_schedule` amount to one context switch that requeues, dequeues and releases the lock |
| `Scheduler.TakesTurn` | kernel/sched_task.cc:825-890 | the head of the run queue gets the CPU and the current task, if it can go on, goes behind all others; only an empty run queue lets the current task keep the CPU; no other CPU and no wait queue changes |
| `Scheduler.ScheduleInv` | kernel/sched_task.cc:786-913 | `_schedule` keeps every task in exactly one place |
| `Scheduler.CloneInv` | kernel/sched_task.cc:1357-1360 | so does the enqueue at the end of clone |
| `Scheduler.HeadWaits` | kernel/ipc.cc:618-658 | while the lock is free the head of a wait queue is not current anywhere |
| `Scheduler.WakeupInv` | kernel/ipc.cc:332-378 | so does a wakeup or timeout, whose guards do not fire |
| `Scheduler.WaitInv` | kernel/ipc.cc:660-689 | so does the first half of a wait |
| `Scheduler.WakeupAssigns` | kernel/ipc.cc:618-658 | the head of the wait queue goes to the back of the run queue of its own CPU, or of CPU 0 if that one is not active, and nothing else moves |
| `Scheduler.CloneAssigns` | kernel/sched_task.cc:1357-1360 | the same for a new task |
| `Scheduler.WaitJoins` | kernel/ipc.cc:660-689 | the current task joins the wait queue at its place, is no longer runnable, and its CPU holds the lock |
| `Scheduler.MovesUp` | kernel/sched_task.cc:75-158 | a queued task comes one place nearer with every `_schedule` of its CPU and keeps its place in every other step |
| `Scheduler.RunsInTurn` | kernel/sched_task.cc:825-890 | round robin: over every path, a task with i tasks before it is current after the (i+1)st `_schedule` of its CPU, and queued until then |
| `Scheduler.GuardsFire` | kernel/sched_task.cc:75-143 | in states that no run reaches the BUG() guards do fire |
| `Scheduler.RunInv` | kernel/sched_task.cc:75-158 | every reachable state meets the invariant |
| `Scheduler.Exclusive` | kernel/sched_task.cc:825-913 | over every run: no guard fired, and every task is current on one CPU, on its allocated CPU's run queue, or on one wait queue |
| `Scheduler.QueuedOnce` | kernel/sched_task.cc:75-143 | no queue lists a task twice |
| `Scheduler.EarlyReleaseIsFatal` | kernel/sched_task.cc:902-907 | if the lock were released before `current_cpu` is cleared, a wakeup would hit the guard in add_to_runqueue |
| `Mutex.StepShape` | kernel/ipc.cc:710-752 | `count` and the holder change together |
| `Mutex.OthersOk` | kernel/ipc.cc:753-798 | what a task may rely on survives every step of another |
| `Mutex.RunInv` | kernel/ipc.cc:710-798 | every reachable state meets the invariant |
| `Mutex.DepthIsCalls` | kernel/ipc.cc:753-798 | the nesting depth of a task is the number of its lock calls less its unlock calls, with the call under way accounted for |
| `Mutex.MutualExclusion` | kernel/ipc.cc:710-798 | over every interleaving `count` plus holders is 1; a task that is not inside a call holds the mutex if and only if it has made more locks than unlocks, and then `owner_pid` names it and `recursive_count` is the difference |
| `Mutex.OneAtATime` | kernel/ipc.cc:753-798 | two tasks are never both between acquiring and releasing |
| `Mutex.FreeLockReturns` | kernel/ipc.cc:719-776 | a lock of the free mutex returns with it after nine accesses, without sleeping |
| `Mutex.TakenLockSleeps` | kernel/ipc.cc:719-729 | a lock of a mutex that another task has goes to sleep |
| `Mutex.WokenLockReturns` | kernel/ipc.cc:719-776 | woken once the mutex is free, it returns with it |
| `Mutex.LastUnlockReturns` | kernel/ipc.cc:783-798 | the last unlock gives the mutex back after eight accesses |
| `Mutex.NestedLockReturns` | kernel/ipc.cc:753-761 | a nested lock takes four accesses and never waits |
| `Mutex.NestedUnlockReturns` | kernel/ipc.cc:783-789 | a nested unlock only lowers the count, and the mutex stays taken |
| `Ring.SlotsTell` | fs/socket.cc:83-120 | the slot at the producer index is taken exactly when the ring is full, the one at the consumer index exactly when it is not empty |
| `Ring.ProducerInv` | fs/socket.cc:83-120 | each field access of add_to_queue keeps the ring in shape |
| `Ring.ConsumerInv` | fs/socket.cc:136-198 | each field access of the two removals keeps the ring in shape |
| `Ring.RunInv` | fs/socket.cc:83-198 | every reachable state meets the invariant |
| `Ring.RefusalsAreJust` | fs/socket.cc:83-120 | an add is refused only with all slots taken, or for a null buffer or a length of zero; a remove finds nothing only when nothing is queued |
| `Ring.RunTold` | fs/socket.cc:83-198 | over every run each call is answered once, in order, about the entry it was called with, and the answers agree with what was published and taken out |
| `Ring.Linearizable` | fs/socket.cc:83-198 | over every interleaving, pairs (buf, len) leave exactly once and in acceptance order, with all slots usable; accepted is what adds said yes to, and the one under way; removed is what removes gave away, and the one under way |
| `Ring.CallersSee` | fs/socket.cc:83-198 | with nobody inside a call, what removes returned is, in order, the first part of what adds were told is queued, with at most the size of the ring outstanding |
| `Ring.WaitFree` | fs/socket.cc:83-198 | an add returns after at most seven of its own accesses and a remove after nine, whatever the other side does |
| `Ring.IndicesCoincide` | fs/socket.cc:199-213 | equal indices mean empty or full, and the slot tells which |
| `SendQueues.SenderInv` | kernel/network_sched.cc:189-210 | a sender that still has to clear the flag is accounted for |
| `SendQueues.DrainerInv` | kernel/network_sched.cc:212-258 | each access of the scan, the flag write (a step of its own between the two scans) and the rescan keeps the invariant |
| `SendQueues.OffsetAt` | kernel/network_sched.cc:212-258 | a scan starts with the queue behind the last one and passes every queue once |
| `SendQueues.RunInv` | kernel/network_sched.cc:292-330 | every reachable state meets the invariant and loses no packet |
| `SendQueues.StepConserved` | kernel/network_sched.cc:212-258 | every packet is in exactly one place after every step |
| `SendQueues.SentInOrder` | kernel/network_sched.cc:189-258 | over every run, what a CPU has queued is, one behind the other, what the driver got of it, what the driver's list and the drainer hold of it, and what is still queued |
| `SendQueues.RescanIsNeeded` | kernel/network_sched.cc:221-239 | from every reached state in which the first scan found nothing, a sender can run before the flag is written: then the flag says empty, a packet is queued, nobody is left to clear the flag, and only the second scan finds the packet |
| `SendQueues.RaceHappens` | kernel/network_sched.cc:221-239 | for every queue size, even on one CPU, a run reaches that state |
| `SendQueues.NoStrandedPacket` | kernel/network_sched.cc:189-330 | when nobody is mid-flight and the flag says empty, all queues and the driver's list are empty and every packet queued was sent, once, those of each CPU in the order they were queued |
| `SendQueues.SenderReturns` | kernel/network_sched.cc:189-198 | a sender is done after two accesses and leaves the flag cleared |
| `SendQueues.SetFlagReturns` | kernel/network_sched.cc:292-299 | with the flag set there is nothing to do, and the drainer returns |
| `SendQueues.BurstEnds` | kernel/network_sched.cc:318-322 | a burst that sends nothing ends net_bh_send |
| `SendQueues.ScanGoesOn` | kernel/network_sched.cc:240-250 | after a full list the next scan starts behind the queue the last one stopped at |
| `SendQueues.DrainFinishes` | kernel/network_sched.cc:292-330 | with no sender about and a driver that takes what it is given, net_bh_send terminates with the flag set and all queues and the driver's list empty |
| `Checksum.AddWord` | fs/tcp.cc:68-93 | adding with end-around carry |
| `Checksum.Chksum` | fs/tcp.cc:68-93 | the one's complement sum of the 16-bit words and the start value, for every length its parameter holds |
| `Checksum.WideVsWords` | fs/tcp.cc:94-132 | 256 times the sum of the 64-bit words is the sum of the 16-bit words modulo 0xffff, and both are zero together |
| `Checksum.Fold` | fs/tcp.cc:94-132 | folding 64 bits to 16 keeps what the sum stands for |
| `Checksum.Finish` | fs/tcp.cc:110-132 | the end of both wide forms, with the byte swap and the tail loop |
| `Checksum.ChecksumForLarge1` | fs/tcp.cc:94-132 | exactly what the 16-bit loop returns, for every buffer and start value |
| `Checksum.Adc` | fs/tcp.cc:133-184 | one add-with-carry of the chain |
| `Checksum.CarryChain` | fs/tcp.cc:133-184 | the assembly loop sums its words in one's complement of 64 bits |
| `Checksum.AdcZero` | fs/tcp.cc:133-184 | the final add of zero loses no carry |
| `Checksum.ChecksumForLarge2` | fs/tcp.cc:133-184 | exactly what the 16-bit loop returns, for every buffer and start value |
| `Packet.ComplementVerifies` | fs/tcp.cc:313-316 | the complement in a zeroed field makes the whole verify (section 1 of RFC 1071) |
| `Packet.PutComplement` | fs/tcp.cc:313-316 | the stored checksum word is the complement of the sum |
| `Packet.UpperLayerChksum` | fs/tcp.cc:191-212 | the sum over pseudo-header and segment, by either routine |
| `Packet.FillEther` | fs/tcp.cc:256-260 | the ten bytes before it cleared, the Ethernet header, and nothing else |
| `Packet.FillIp` | fs/tcp.cc:262-285 | the IPv4 header of section 3.1 of RFC 791, and nothing else |
| `Packet.FillTcp` | fs/tcp.cc:266-313 | the TCP header of section 3.1 of RFC 9293, and nothing else |
| `Packet.Bytes32` | fs/tcp.cc:285-299 | the four bytes of a number are its big-endian value |
| `Packet.FieldRules` | fs/tcp.cc:285-311 | by the bits of the flags: data sets PSH and nothing else, a SYN without data carries the number before, the acknowledgement goes out with ACK only |
| `Packet.FillChecksums` | fs/tcp.cc:313-318 | both checksums verify and the rest of the frame is kept |
| `Packet.GenerateTcpPkt` | fs/tcp.cc:247-319 | for every payload, flags and stale buffer: the frame has its fields and payload, and both checksums verify |
| `TcpReceive.Socket.constructor` | fs/tcp.cc:346-362 | the receiver expects the number after the SYN |
| `TcpReceive.Socket.TcpRead` | fs/tcp.cc:593-650 | accepts a segment's data if and only if its number is the expected one and it closes nothing |
| `TcpReceive.Socket.PktProcess` | fs/socket.cc:233-256 | accepted data is queued, or dropped if the queue is full |
| `TcpReceive.ReceivedCases` | fs/tcp.cc:604-642 | the ACK number is always taken, FIN or RST closes and brings no data, and in-order data moves the expected number on even if the queue is full |
| `TcpReceive.Socket.Read` | fs/socket.cc:306-366 | hands over the front of the first queued segment |
| `TcpReceive.ReadTakesFront` | fs/socket.cc:306-366 | bytes read followed by bytes still pending are the bytes pending before; a read with data waiting makes progress |
| `TcpReceive.NextBytes` | fs/tcp.cc:626-642 | an accepted segment carries exactly the bytes after the accepted ones |
| `TcpReceive.RunInv` | fs/tcp.cc:593-650 | every run keeps the count of accepted, delivered, pending and lost bytes |
| `TcpReceive.StreamDelivery` | fs/tcp.cc:593-650 | over any loss, duplication and reordering: `recv_seq_no` counts the accepted bytes modulo 2^32, and read plus pending is the accepted prefix of the stream if and only if nothing met a full queue |
| `TcpReceive.AcceptsExactlyNext` | fs/tcp.cc:626-642 | data is accepted if and only if its offset is the accepted length, up to whole wraps of the number |
| `TcpReceive.OverrunSkipsBytes` | fs/socket.cc:249-251 | for every queue length, a run in which a full queue makes the reads skip a byte |
| `TcpSend.TcpConnection.constructor` | fs/tcp.cc:346-360 | all slots free |
| `TcpSend.TcpConnection.TcpWrite` | fs/tcp.cc:521-572 | frees acknowledged slots up to the first one that was free, and fills that one with as many of the caller's bytes as fit; returns their number, or 0 if no slot was free |
| `TcpSend.TcpConnection.AckReceived` | fs/tcp.cc:604-606 | the ACK number is taken as it comes |
| `TcpSend.TcpConnection.Revisit` | fs/tcp.cc:404-436 | one turn of the housekeeper's loop: free, skip or send again |
| `TcpSend.TcpConnection.Housekeeper` | fs/tcp.cc:396-440 | frees exactly the slots numbered below the ACK and sends again exactly the live ones not sent in this tick, each of which keeps its number and bytes |
| `TcpSend.RunInv` | fs/tcp.cc:521-572 | every run, with any ACKs and any wrap: live slots hold distinct segments under the fields of their numbers, and `squeue_size` is at least their number |
| `TcpSend.CoveredBytes` | fs/tcp.cc:521-572 | coverage in segments is coverage in bytes |
| `TcpSend.PassExact` | fs/tcp.cc:408-412 | a freeing pass keeps the coverage if and only if it meets no slot numbered below the ACK field whose segment is still needed |
| `TcpSend.WriteExact` | fs/tcp.cc:530-534 | the same for the sweep of tcp_write up to the first free slot |
| `TcpSend.HousekeepExact` | fs/tcp.cc:404-412 | the same for a working pass of the housekeeper |
| `TcpSend.CoverageExactly` | fs/tcp.cc:396-572 | for every run, with any ACKs and any wrap: coverage holds throughout if and only if no pass loses a slot |
| `TcpSend.RetransmitCoverage` | fs/tcp.cc:521-572 | in a run in which no pass loses a slot, every byte sent and not below the highest ACK is in exactly one live slot, with the value that the caller wrote at that place of the stream |
| `TcpSend.OneHolder` | fs/tcp.cc:521-572 | live slots never overlap |
| `TcpSend.StreamSent` | fs/tcp.cc:521-557 | the segments of every run are consecutive pieces of the stream read off its writes alone |
| `TcpSend.SlotHoldsStream` | fs/tcp.cc:521-557 | in every run what a live slot holds for a number is the byte the caller wrote there |
| `TcpSend.SqueueSize` | fs/tcp.cc:530-556 | in every run `squeue_size` is the number of live slots plus the number of slots that the sweep of tcp_write has freed without counting them down |
| `TcpSend.EarlyExitIsSafe` | fs/tcp.cc:396-401 | in every run `squeue_size` is at least the number of live slots, so at zero none is live; if no pass lost a slot, everything sent is then acknowledged |
| `TcpSend.HousekeeperResends` | fs/tcp.cc:402-438 | in a new tick every byte not acknowledged goes out again, unless it did in this tick or the pass loses it |
| `TcpSend.LostAcrossWrap` | fs/tcp.cc:408-412 | when ACKs lie between segments, a needed slot is lost if and only if the ACK is from before a wrap that its number is behind, with the larger field |
| `TcpSend.SaneNeverLoses` | fs/tcp.cc:396-572 | with such ACKs and no number beyond 2^32 no run loses a slot |
| `TcpSend.PartialAckLosesTail` | fs/tcp.cc:408-412 | after an ACK inside a segment nothing holds the byte it names, unless the number wraps inside the segment below it |
| `TcpSend.FreshSurvives` | fs/tcp.cc:530-557 | in every run, a new segment survives the next working pass if and only if the ACK field did not exceed `send_seq_no` when it was written |
| `TcpSend.FreshLost` | fs/tcp.cc:530-557 | whenever that guard fails, a byte nobody has acknowledged is lost |
| `TcpSend.WrapLosesByte` | fs/tcp.cc:404-412 | from every initial number there is a run with sane ACKs that loses the unacknowledged byte behind the wrap |
| `PageIndex.Lookup` | mm/pagecache.cc:417-445 | the early exit agrees with a lookup of the page-aligned offset in the map |
| `PageIndex.PageStart` | mm/pagecache.cc:417-424 | the page boundary at or below the offset |
| `PageIndex.Insert` | mm/pagecache.cc:480-527 | succeeds if and only if the offset is within the file and not taken; the lists then stand for the extended map |
| `PageIndex.InsertRepresents` | mm/pagecache.cc:497-527 | insertion keeps every list strictly descending and the count equal to the map's size |
| `PageIndex.DeleteRepresents` | mm/pagecache.cc:335-337 | deletion likewise, for the map without the offset |
| `PageIndex.Canonical` | mm/pagecache.cc:480-547 | the lists are a function of the map alone |
| `PageIndex.ContainsExactly` | mm/pagecache.cc:499-511 | the scan stops at an entry with the offset if and only if the map has the offset |
| `PageIndex.RunRepresents` | mm/pagecache.cc:313-344 | every run of inserts and deletes, decided by the lists alone, agrees with the run on a plain map |
| `PageLists.AddValid` | mm/pagecache.cc:126-140 | adding keeps counters equal to lengths and list types right |
| `PageLists.UnlinkValid` | mm/pagecache.cc:98-125 | unlinking keeps counters equal to lengths and list types right |
| `PageLists.MoveValid` | mm/pagecache.cc:98-125 | a move puts the page on exactly the new list |
| `PageCache.ExactlyOnePlace` | mm/pagecache.cc:98-159 | a page that is not reserved is on exactly one list, once, or held by one caller; a cached one is dirty exactly on the dirty list |
| `PageCache.PageCache.constructor` | mm/pagecache.cc:275-311 | all pages behind the reserved ones are free |
| `PageCache.PageCache.SetInode` | include/vfs.h:95-99 | flags and size may change at any time |
| `PageCache.PageCache.GetInodePage` | mm/pagecache.cc:417-445 | finds the page of the offset and pins it, and changes nothing else |
| `PageCache.PageCache.PutPage` | mm/pagecache.cc:243-258 | drops a pin |
| `PageCache.PageCache.PageDirted` | mm/pagecache.cc:359-368 | any page goes to the tail of the dirty list and is dirty; the cache stays in order if and only if the page was a cached one |
| `PageCache.PageCache.PageCleaned` | mm/pagecache.cc:369-387 | the page goes to the active or inactive list by its file's flag and is clean |
| `PageCache.PageCache.PutFreePage` | mm/pagecache.cc:549-554 | a held page becomes free |
| `PageCache.PageCache.TakeFree` | mm/pagecache.cc:556-579 | the oldest free page, initialised, is held by the caller |
| `PageCache.PageCache.DeletePage` | mm/pagecache.cc:313-344 | succeeds if and only if the page is unpinned and its file is not executing; then it leaves its list and the index and becomes free |
| `PageCache.PageCache.InsertPage` | mm/pagecache.cc:480-547 | a held page enters index and list, or nothing changes |
| `PageCache.PageCache.DataSync` | fs/file.cc:1030-1066 | writes the oldest dirty pages, which go to the tails of the other lists in order, whichever writes fail on the way |
| `PageCache.PageCache.SyncDirty` | mm/pagecache.cc:588-592 | the sync loop writes one batch exactly when a limit is passed |
| `PageCache.PageCache.Demote` | mm/pagecache.cc:594-608 | the oldest tenth of the active pages become inactive, executing ones go to the tail |
| `PageCache.PageCache.ReclaimHead` | mm/pagecache.cc:615-624 | one turn of the reclaim loop |
| `PageCache.PageCache.Reclaim` | mm/pagecache.cc:610-632 | takes exactly as many turns as until enough is free or the turns outnumber the inactive pages; frees, in order, exactly the pages it comes past that are unpinned and of no executing file; the others go behind those not seen |
| `PageCache.NothingFreed` | mm/pagecache.cc:610-632 | nothing is freed if and only if enough is free already or every inactive page is in use |
| `PageCache.StarvedExactly` | mm/pagecache.cc:583-632 | the reclaim loop meets an empty inactive list if and only if the state was starved before the call |
| `PageCache.PageCache.Housekeep` | mm/pagecache.cc:583-632 | crashes if and only if starved; all four lists afterwards, computed from the state before; pages keep their file, offset and pins but for idle ones that are freed; nothing is freed if and only if enough is free or every candidate is in use |
| `PageCache.CandidatesAre` | mm/pagecache.cc:583-615 | which pages the reclaim loop starts with, and which stay active, from the state before the call |
| `PageCache.AllHeldStarves` | mm/pagecache.cc:612-617 | with every page held the state is starved |
| `PageCache.TakeAll` | mm/pagecache.cc:556-579 | callers that take every page of a new cache, of any size, leave it in a starved state |
| `PageCache.PageCache.GetFreePage` | mm/pagecache.cc:556-579 | the oldest free page, or the first one that housekeeping frees; no other caller holds it; fails if and only if none is free and every candidate for reclaim is in use |
| `PageBuckets.PageBuckets.constructor` | mm/jslab.c:522-544 | every CPU has one empty bucket, the others are on the empty list |
| `PageBuckets.PageBuckets.GetBucket` | mm/jslab.c:545-576 | an empty bucket is exchanged for a full one and a full one for an empty one, if and only if there is one |
| `PageBuckets.GetBucketOwned` | mm/jslab.c:545-576 | each bucket keeps exactly one owner; listed buckets are empty or full |
| `PageBuckets.PageBuckets.JpageDup` | mm/jslab.c:584-594 | one more reference, for network buffers only |
| `PageBuckets.PageBuckets.Pop` | mm/jslab.c:615-622 | the buffer leaves the cache with one reference; counters still add up |
| `PageBuckets.PageBuckets.Push` | mm/jslab.c:689-704 | the buffer enters the cache once; counters still add up |
| `PageBuckets.PageBuckets.JallocPage` | mm/jslab.c:595-648 | returns a buffer nobody has a reference to; goes to the buddy allocator if and only if the cache is not for it or the bucket and the full list are empty |
| `PageBuckets.PageBuckets.PutFree` | mm/jslab.c:719-727 | a block goes back with a count of one and without the NetBuf flag, as mm_putFreePages demands |
| `PageBuckets.PageBuckets.FreePage` | mm/jslab.c:657-729 | only the last reference lets the buffer go, and then to the buddy allocator if and only if it is no network buffer, the limit of the CPU is reached, or the bucket is full and no empty one is left |
| `PageBuckets.PageBuckets.BulkFree` | mm/jslab.c:650-729 | frees one reference per entry of the list |
| `PageBuckets.ReleasedTally` | mm/jslab.c:650-729 | a buffer is still referenced exactly if fewer entries named it than it had references |
| `PageBuckets.SumPop` | mm/jslab.c:615-618 | the per-CPU counts, which wrap, still sum to the buffers cached after one is taken |
| `PageBuckets.SumPush` | mm/jslab.c:689-693 | and after one is added |
| `Vma.OneArea` | mm/vm.cc:163-178 | an address belongs to at most one area of an ordered list |
| `Vma.AddressSpace.Link` | mm/vm.cc:103-160 | succeeds if and only if the area meets no other and, in front of the first, does not end exactly at its start; keeps the order |
| `Vma.AddressSpace.FindVma` | mm/vm.cc:163-178 | the first area that spans the range |
| `Vma.AddressSpace.FindOverlap` | mm/vm.cc:228-249 | after an end has grown, reports nothing if and only if the list is still ordered |
| `Vma.ClashIsMeeting` | mm/vm.cc:239-244 | the test misses only areas that start at the same address |
| `Vma.AddressSpace.GrowEnd` | mm/vm.cc:315-321 | grows if and only if there is room before the next area |
| `Vma.AddressSpace.LinkNew` | mm/vm.cc:338-348 | the new range was unmapped before and is all that is added; the area has the asked protection and flags |
| `Vma.AddressSpace.MmapAnonymous` | mm/vm.cc:307-336 | extends the area below `anonymous_addr` if there is room, else places a new one there |
| `Vma.AddressSpace.GrowAnonymous` | mm/vm.cc:310-322 | the area that reaches over the ten bytes a hundred below `anonymous_addr` grows if it has room |
| `Vma.AddressSpace.Mmap` | mm/vm.cc:253-349 | when it succeeds, which area it links or relabels, and exactly which addresses it adds |
| `Vma.AddressSpace.SetupBrk` | mm/vm.cc:385-403 | sets the heap up, even if its mapping fails |
| `Vma.AddressSpace.Brk` | mm/vm.cc:412-460 | every outcome, and exactly which addresses are added when the heap grows |
| `Vma.AddressSpace.Unlink` | mm/vm.cc:73-102 | one area leaves, the order stays |
| `Vma.AddressSpace.Munmap` | mm/vm.cc:463-493 | the restart loop terminates; an address is still mapped if and only if an area of the old list has it that starts below the range or ends above it; the return value |
| `Vma.UnmapMaps` | mm/vm.cc:463-493 | the same for the list that is left |
| `Vma.UnmapExact` | mm/vm.cc:463-493 | unmapping exactly the range of an area unmaps all of it |
| `Vma.PageAlign` | mm/vm.cc:385-392 | the next page boundary at or above the length, or 0 where it would not fit 64 bits |
| `Vma.NextPage` | mm/vm.cc:394 | the least page boundary above the address |
| `Vma.AddressSpace.DupVmaps` | mm/vm.cc:182-204 | never fails, and the copy has the same intervals in the same order; the same list unless empty areas coincide |

## Left out

- Drivers, descriptor tables, context-switch assembly, ELF loading and module relocation: hardware and foreign memory layout.
- vfork, exit, wait4, the NONPREEMPTIVE state, changes of a task's CPU and of the set of active CPUs, HP threads in the scheduler.
- Disk request table, tar and proc file systems, epoll, pipes, UDP, ARP, socket system calls, slab bitmaps, zero-page cache, vmalloc: simpler members of what is modelled, or I/O.
- Statistics, logging, commands and inter-processor interrupts.
- Hardware memory ordering: the step machines are sequentially consistent.
- Linked lists: queues, hash lists and area lists are sequences; their pointers are not modelled.
- Buddy: the bitmap of the largest order is flipped on allocation and never read, so the invariant does not mention it; CAN_DMA holds for every page; clearing pages and leak hooks are left out.
- WaitQueue.WaitList.Wakeup: its count is for a call that nobody disturbs; WakeTurn is one turn with anything between turns, and RunDue covers every interleaving of such turns.
- WaitQueue.LeavesInTime: for a waiter that nobody overtakes; OvertakesExactly and UnsignedWaits say when that is.
- Scheduler: a wait queue gives no position guarantee here (that is WaitQueue); the idle task is the absence of a task.
- Mutex.MutualExclusion: for tasks that unlock only what they have locked.
- Ring.Linearizable: one consumer is active at a time. remove_from_queue takes a lock for that, but in Bulk_remove_from_queue (fs/socket.cc:172-198) the lock calls are commented out, so it is an assumption there. Nothing is said about `flags`, which is written after the buffer is published; check_emptyspace, which reads without a lock, is left out.
- SendQueues.NoStrandedPacket: for one drainer at a time, which the guard of net_bh (kernel/network_sched.cc:162-184) is for; the driver takes any number of packets of a burst.
- Checksum.ChecksumForLarge2: takes the result of the assembly to be in the accumulator. That is an assumption about register allocation: the output constraint names no register and the accumulator is not declared as changed.
- Packet.GenerateTcpPkt: the IP identification field is whatever the buffer held, as in the code.
- TcpReceive.StreamDelivery: segments are the peer's and less than one wrap of the 32-bit number away; the guard on the buffer size, the search for the socket by ports and the ACKs sent in reply are left out, and a blocking read is a read on a queue that is not empty.
- TcpSend.RetransmitCoverage: for runs in which no freeing pass loses a slot, which CoverageExactly shows to be the exact condition. `squeue_size` is unbounded and each call runs alone.
- PageCache.PageCache.Housekeep: any finite pattern of failing writes (a failed one is tried again at once, so one that never succeeds would keep the loop running), and the limits of 10, 20 and 40 percent are exact fractions, not floating-point products.
- PageBuckets.PageBuckets.FreePage: a buffer is named by its first page, the per-CPU `inuse` flag is 0 because each call runs alone, and the zero-page cache is switched off.
- Vma.AddressSpace.Mmap: sums of addresses do not wrap. Page tables and the inode's list of areas are left out.
