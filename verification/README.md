# Resea: a verified model

Resea is a microkernel operating system. This project models the parts of it whose correctness is
hardest to see from the code, and proves what they guarantee over every input, every run or every
reachable state.

| file | models |
|---|---|
| `KernelSpec.dfy`, `KernelInvariant.dfy`, `KernelRuns.dfy`, `KernelScheduling.dfy`, `KernelTimeSlice.dfy`, `KernelDeafness.dfy`, `KernelImpl.dfy`, `KernelQueues.dfy`, `KernelWitness.dfy` | message passing, scheduling and task life cycle: `kernel/ipc.c`, `kernel/task.c`, the guards of `kernel/syscall.c` |
| `PageTable.dfy` | the four-level page tables of `kernel/arch/x64/vm.c` |
| `PageAccounting.dfy`, `VmServer.dfy` | the reference-counted pages of `servers/vm/page_alloc.c` and the retry loop of `servers/vm/page_fault.c` |
| `MallocModel.dfy`, `Malloc.dfy` | the heap of `libs/resea/malloc.c` |
| `Virtq.dfy` | the split virtqueue of `libs/virtio/virtio_legacy.c` (section 2.6 of VIRTIO 1.1) |
| `Mbuf.dfy`, `TcpSpec.dfy`, `Tcp.dfy` | buffer chains and the receiving side of TCP in `servers/tcpip` |
| `OolSpec.dfy`, `Ool.dfy` | out-of-line payloads between tasks: `servers/vm/ool.c` |
| `List.dfy` | the intrusive list of `libs/common/include/list.h`, on which `KernelQueues.dfy` builds |
| `Datetime.dfy` | the calendar conversions of `libs/resea/datetime.c` |
| `Common.dfy` | what several of the others need |

## How the models are built

**The kernel** is a step machine for one CPU. A state holds the task table, the run queues, the interrupt
owners and CURRENT. A C task that sleeps in `task_switch()` keeps its place on its kernel stack; here the
field `kont` says whether it sleeps in the send phase, in the receive phase, or for good, so that the code
behind `task_switch()` is a step of its own. Each entry into the kernel is a function on states, and
`KernelImpl.Kernel` is the same kernel as a class with loops over its queues, proved to compute these
functions. The fields `hist` and `switches` record what has happened; no step depends on them. A run starts at
boot and is any sequence of enabled events: system calls with any arguments, faults, timer and device
interrupts. Runs exclude only calls of `task_destroy` on a task that a resumed sender is about to deliver
to; `DestroyKeepsIff` proves that this is exactly the case in which the invariant breaks, and
`DestroyDuringHandoff` reaches such a state from boot. The other end of a handoff may be lost as well: a
receiver whose resumed sender is destroyed, or aborted, keeps the invariant and is deaf from then on.
`KernelDeafness.DeafIff` says exactly which steps do that, `HeardIff` which end it, and `DeafUntilCreated` how
long it lasts.
`KernelQueues.Queues` is the same queues as rings of links, as the C code keeps them.

**Page tables** are a map from page addresses to arrays of entries, one level-4 table per address space. The
page server's class owns the reference counts and areas of all tasks together with these tables; the ghost
field `lost` counts the references that stay behind when the server runs out of addresses. `Available` is the
set of unreferenced pages in the regions of memory, `Missing` that of the tables which a range of pages lacks;
their sizes decide whether a mapping succeeds.

**The heap** is one array of bytes with a map of chunk headers. Ghost fields say in which order the chunks lie
and which bin lists which chunk; a ledger records what the owner of each block has asked for last. A heap is
tame while each chunk in a small bin has the capacity the bin stands for and each block holds what is recorded
for it. It ceases to be so when malloc takes a misfit, that is a whole chunk that fits no bin. A `Moment` is the
heap with the ledger as a value; `Called` relates two of them by one request, which is a call of malloc, free or
realloc or a write to a block. `Heap.Serve` runs any program, request by request, and returns the moments in
between: the heap is tame at the end if and only if no request on the way has taken a misfit.

**The virtqueue** has a driver and a device side. The device takes offered chains in order and completes any
chain it holds, in any order. `Valid()` says that the free list and the chains in flight partition the
descriptors; `Sane()` leaves open what the free list runs through, which is all that is left after a reclaim
that has gone wrong.

**TCP**: one segment, or one read, is a function on the socket's value; `Tcp.TcpSocket` is the class over real
buffer chains that computes it. A peer is honest if its segments carry octets of one stream at their sequence
numbers; it may lose, repeat, reorder and re-cut them, and put anything into its SYN.

Where a promise of the code does not hold, the failing case is kept and the exact condition is proved:
`KernelRuns.FastpathRefinesSlowpath`, `KernelSpec.ErrorsChangeNothing`, `KernelInvariant.DestroyKeepsIff`,
`KernelDeafness.DeafIff`, `KernelDeafness.HeardIff`, `VmServer.Vm.AreaMappedIff`, `Malloc.Heap.Malloc`,
`Malloc.Heap.Realloc`, `Malloc.Heap.Serve`, `Virtq.EmptyTestIff`, `Virtq.Queue.Pop`, `Virtq.Queue.Reclaim`,
`Virtq.Queue.Push`, `TcpSpec.FinCompletesIff`, `TcpSpec.ActiveOpenIff`, `OolSpec.RecvKeepsIff`,
`Ool.InsideIffShort`, `Datetime.EndsIffBefore`, `Datetime.ToTimestamp`, `Datetime.DateRoundTrip`,
`Datetime.TimestampRoundTrip`.

## Model

| member | source | states |
|---|---|---|
| `KernelRuns.StepKeeps` | kernel/ipc.c:11-205 | every system call, fault and interrupt keeps the whole invariant: run queues, sender queues, handoffs, mailboxes, notification bits, interrupt owners and the pager forest |
| `KernelRuns.RunIsGood` | kernel/boot.c:124-166 | so it holds in every state of every run from boot |
| `KernelRuns.RunQueues` | kernel/task.c:187-233 | in every state of every run a task is in the run queue of its priority, and there once, exactly while it is runnable and not CURRENT |
| `KernelRuns.SenderQueues` | kernel/ipc.c:65-75 | whoever waits in a sender queue is blocked, accepts nobody and waits in no other; a task that is not in use has no senders |
| `KernelRuns.PagerTree` | kernel/task.c:91-105 | every task in use but init has a pager in use, pagers lead to init without a cycle, and reference counts are numbers of children |
| `KernelRuns.HandoffSafety` | kernel/ipc.c:62-94 | once a receiver has resumed a queued sender, it stays asleep and accepts that sender alone until the sender runs, whatever else happens |
| `KernelRuns.PointOfNoReturn` | kernel/ipc.c:84-94 | behind the point of no return the receiver is always ready for the unchecked copy |
| `KernelRuns.MailboxSafety` | kernel/ipc.c:84-134 | messages taken out of a task's buffer are those written into it, each once and in order, with at most one outstanding; a receive from one task only returns what that task sent |
| `KernelRuns.NotificationConservation` | kernel/ipc.c:192-205 | bits raised are bits received, pending, in the buffer, or the one eaten by an aborted send; none is lost |
| `KernelRuns.DestroyOrphansSenders` | kernel/task.c:145-149 | destroying a task marks its queued senders as aborted but leaves them asleep in no queue |
| `KernelRuns.OrphanSleepsForever` | kernel/ipc.c:72-81 | such a sender never runs again; only its own destruction ends its sleep |
| `KernelRuns.FastpathRefinesSlowpath` | kernel/ipc.c:149-185 | the fast path and the slow path reach the same state and result if and only if IPC_NOBLOCK is not given; with it the slow path returns an error after it has sent |
| `KernelRuns.CreatedPagers` | kernel/task.c:91-105 | creating a task keeps the pager relation a forest rooted at init, with reference counts equal to the number of children |
| `KernelRuns.DestroyedPagers` | kernel/task.c:116-143 | so does destroying one |
| `KernelRuns.BootGood` | kernel/boot.c:124-158 | the boot state meets the invariant, for any number of task slots and interrupt lines |
| `KernelInvariant.DestroyKeepsIff` | kernel/task.c:116-160 | task_destroy keeps the invariant if and only if no resumed sender is about to deliver to the task; what it does to a receiver whose resumed sender it destroys is not part of the invariant, and KernelDeafness.DeafIff states it |
| `KernelInvariant.IpcSlowpathKeeps` | kernel/ipc.c:47-137 | sending, sleeping in the send phase, receiving and sleeping in the receive phase keep the invariant |
| `KernelInvariant.IpcFastpathKeeps` | kernel/ipc.c:142-189 | so does the fast path |
| `KernelInvariant.HandoffKeeps` | kernel/ipc.c:11-43 | so does resuming a queued sender and going to sleep for it alone |
| `KernelInvariant.ContinueSendKeeps` | kernel/ipc.c:77-136 | so does the code behind the sleep of the send phase, aborted or not |
| `KernelInvariant.ContinueRecvKeeps` | kernel/ipc.c:121-136 | so does the code behind the sleep of the receive phase |
| `KernelInvariant.NotifyKeeps` | kernel/ipc.c:192-205 | notify keeps the invariant, whether it delivers at once or leaves the bits pending |
| `KernelInvariant.SwitchKeeps` | kernel/task.c:216-253 | task_switch keeps the invariant, also right after CURRENT has been blocked |
| `KernelInvariant.CreateKeeps` | kernel/task.c:46-113 | task_create keeps the invariant and disturbs no other task |
| `KernelInvariant.ScheduleKeeps` | kernel/task.c:201-213 | a new priority moves a queued task to the run queue of that priority and keeps the invariant, whatever number is given |
| `KernelInvariant.TimerIrqKeeps` | kernel/task.c:317-341 | the timer interrupt keeps the invariant over all its timeouts and its switch |
| `KernelInvariant.IrqKeeps` | kernel/task.c:344-352 | so does a device interrupt |
| `KernelInvariant.ExitKeeps` | kernel/task.c:163-184 | so does task_exit |
| `KernelInvariant.PageFaultKeeps` | kernel/task.c:355-371 | so does a page fault, with its call of the pager |
| `KernelScheduling.TimerCounts` | kernel/task.c:317-330 | a timer tick takes one off the timeout of every task in use, and raises the timer bit exactly for those whose timeout runs out |
| `KernelScheduling.SwitchPicksBest` | kernel/task.c:216-233 | the task picked has the best priority of all runnable tasks, CURRENT included; idle runs only if none is runnable |
| `KernelScheduling.StepAdvances` | kernel/task.c:20-22 | over any event a waiting task moves up by the number of switches, or is running |
| `KernelScheduling.RoundRobin` | kernel/task.c:216-253 | a task behind k others of its priority has run before k + 1 switches are over, as long as nothing better is runnable |
| `KernelTimeSlice.TickTakesOne` | kernel/task.c:332-340 | a tick switches, or takes one off a time slice that had one left |
| `KernelTimeSlice.SliceEnds` | kernel/task.c:237-253 | in every run, no more ticks than a time slice has pass without a switch |
| `KernelTimeSlice.FairInTicks` | kernel/task.c:216-340 | a task behind k others of its priority has run before (k + 1) * (TASK_TIME_SLICE + 1) ticks are over, whatever the others do, as long as nothing better is runnable |
| `KernelDeafness.DeafIff` | kernel/ipc.c:11-94 | a task becomes deaf, that is asleep in an open receive and waiting for one task that is not about to deliver, exactly by these steps: the sender it has resumed is destroyed, or goes on with its abort bit set without exiting towards it |
| `KernelDeafness.StepAttentive` | kernel/ipc.c:98-121 | a task that has just gone to sleep in an open receive is not deaf |
| `KernelDeafness.StepLeaves` | kernel/ipc.c:47-205 | over any event only CURRENT falls asleep or moves on in its code, and a task that neither CURRENT nor a notification may wake sleeps on, its buffer untouched and its notifications pending |
| `KernelDeafness.DeafStays` | kernel/ipc.c:192-205 | a deaf task stays deaf over any event in which the task it waits for does not run and it is not destroyed itself |
| `KernelDeafness.DeafLasts` | kernel/ipc.c:62-205 | so over every run: it receives nothing and every notification stays pending |
| `KernelDeafness.DeafUntilCreated` | kernel/task.c:116-160 | a task that waits for a destroyed one is deaf until a new task is created in that slot |
| `KernelDeafness.HeardIff` | kernel/ipc.c:47-205 | over any event, deafness ends if and only if the task is destroyed, or the one task it hears delivers to it: by a system call, or because it faults or exits and has this task for its pager |
| `KernelDeafness.TellsOrPasses` | kernel/ipc.c:11-134 | whatever the task it hears does, it either wakes the deaf task up at once or leaves its sleep, its buffer and its pending notifications as they are |
| `KernelWitness.DestroyDuringHandoff` | kernel/task.c:116-160 | a run from boot in which destroying a task inside a handoff breaks the invariant and makes a destroyed task runnable |
| `KernelWitness.DestroyDeafensReceiver` | kernel/task.c:116-160 | a run from boot in which destroying a resumed sender keeps the invariant and leaves its receiver deaf, so that a notification stays pending |
| `KernelSpec.ErrorsChangeNothing` | kernel/syscall.c:41-157 | a system call that returns an error at once has changed nothing, with one exception: a send and receive with IPC_NOBLOCK on the slow path has sent its message before it reports that it would block |
| `KernelImpl.Kernel.Handle` | kernel/syscall.c:306-366 | one entry into the kernel computes Step, keeps the invariant, and returns the specified error code, if it returns |
| `KernelImpl.Kernel.Ipc` | kernel/ipc.c:142-189 | ipc as it is written reaches the state and result of the specified step, about which the theorems above are proved |
| `KernelImpl.Kernel.IpcSlowpath` | kernel/ipc.c:47-137 | so does the slow path, with its two places to sleep |
| `KernelImpl.Kernel.ResumeSender` | kernel/ipc.c:11-43 | the search through the sender queue finds the first acceptable sender, resumes it and unlinks it alone |
| `KernelImpl.Kernel.Notify` | kernel/ipc.c:192-205 | so does notify |
| `KernelImpl.Kernel.Scheduler` | kernel/task.c:216-233 | the loop over the run queues picks and pops the head of the best one |
| `KernelImpl.Kernel.TaskSwitch` | kernel/task.c:237-253 | so does task_switch |
| `KernelImpl.Kernel.TaskCreate` | kernel/task.c:46-113 | state and error code of task_create |
| `KernelImpl.Kernel.TaskDestroy` | kernel/task.c:116-160 | state and error code of task_destroy, with its loops over senders and interrupt owners |
| `KernelImpl.Kernel.TaskSchedule` | kernel/task.c:201-213 | state and error code of task_schedule; a negative priority, which the code does not reject, is an access outside the array of run queues and stops the model |
| `KernelImpl.Kernel.HandleTimerIrq` | kernel/task.c:317-341 | the loop over all tasks, then the time slice |
| `KernelImpl.Kernel.SysIpc` | kernel/syscall.c:103-122 | the guards of the ipc system call, with their error codes, and what ipc returns |
| `KernelImpl.Kernel.SysTask` | kernel/syscall.c:41-101 | guards and error codes of the calls that create, destroy and schedule tasks, in the order of the code |
| `KernelQueues.Queues.PushBack` | kernel/task.c:20-22 | the ring of links gets the task as its last element, and no other ring is touched |
| `KernelQueues.Queues.Remove` | kernel/task.c:136-137 | list_remove, which does not know the queue, takes the task out of whatever ring it is in: all queues are as Without has them |
| `KernelQueues.Queues.Scheduler` | kernel/task.c:222-233 | the loop over the rings returns what Pick says and leaves what Popped says |
| `KernelQueues.Queues.TakeAccepted` | kernel/ipc.c:12-42 | the walk over the ring of senders finds the first acceptable one and unlinks it alone |
| `KernelQueues.Queues.Reschedule` | kernel/task.c:206-210 | a task moves from the ring it is in to the end of another |
| `KernelQueues.UnlinkTask` | kernel/task.c:136-137 | both links of a task are removed: the rings then hold the queues of Unlink |
| `PageTable.IndicesInjective` | kernel/arch/x64/vm.h:6-7 | the four indices determine a user page |
| `PageTable.EntryPacking` | kernel/arch/x64/vm.h:8-12 | address and attribute bits share one word without disturbing each other |
| `PageTable.MapRefines` | kernel/arch/x64/vm.c:37-59 | with all tables present, mapping changes the translation of its page in its address space and of nothing else |
| `PageTable.TryAgainRefines` | kernel/arch/x64/vm.c:7-35 | with a table missing, the page given becomes exactly that table, and no translation changes |
| `PageTable.EmptyRefines` | kernel/arch/x64/vm.c:51-54 | with a table missing and no page given for it, no table and no translation changes |
| `PageTable.TryAgainProgress` | kernel/arch/x64/vm.c:14-35 | each such attempt fills one missing level |
| `PageTable.UnmapRefines` | kernel/arch/x64/vm.c:61-70 | unmapping removes its own page and no other |
| `PageTable.InstallKeeps` | kernel/arch/x64/vm.c:16-25 | a fresh zeroed page hung into an empty entry keeps all tables of all spaces distinct pages of a forest |
| `PageTable.MapPresent` | kernel/arch/x64/vm.c:27-31 | after a map every level above the page carries its attributes |
| `PageTable.ClearRoot` | servers/vm/task.c:142-165 | an empty level-4 table drops all translations of its space and of no other |
| `PageTable.Mmu.TraversePageTable` | kernel/arch/x64/vm.c:7-35 | the walk over the levels finds the level-1 table exactly if all tables exist, and touches what the specification says |
| `PageTable.Mmu.ArchVmMap` | kernel/arch/x64/vm.c:37-59 | OK exactly if all tables were there; then the flat map gets one entry, else it does not change and the error says whether a page for the table was given; the tables stay a forest |
| `PageTable.Mmu.VmUnmap` | kernel/arch/x64/vm.c:61-70 | not found exactly if the page is unmapped; afterwards it is, and all else is as before |
| `PageTable.Mmu.VmResolve` | kernel/arch/x64/vm.c:72-75 | the translation of the flat map, without changing anything |
| `VmServer.Vm.PageIncref` | servers/vm/page_alloc.c:19-28 | one reference more for each page of the range, and the counter of unused pages stays the number of unreferenced ones |
| `VmServer.Vm.PageDecref` | servers/vm/page_alloc.c:30-40 | the same downwards |
| `VmServer.Vm.PageAlloc` | servers/vm/page_alloc.c:44-71 | the first run of unreferenced pages that fits, of the first region that has one; it fails if and only if no region has one; a request for no pages at all is met by the first page in use |
| `VmServer.Vm.TaskPageAlloc` | servers/vm/page_alloc.c:93-134 | each error code exactly under its condition: an unaligned or unmappable range; without a range, no run of so many free pages; with one, no more free pages than the range lacks tables; and for a free address, none left. On success the task has exactly one new area, at the address given or the next free one, and with a range one area for each new table; each page of the range resolves to its address, and no other translation of any task has changed; on every path the references of each page are those of the areas that cover it, plus the ones lost |
| `VmServer.Vm.TaskPageAllocAny` | servers/vm/page_alloc.c:99-131 | allocation of any pages: the first free run, which nobody has referenced; when it fails, which address the area gets, and nobody else's area changes |
| `VmServer.Vm.TaskPageAllocAt` | servers/vm/page_alloc.c:93-134 | allocation of given pages: one reference more for each, the address of the area, and the task is killed if and only if it wanted a free address and has none left |
| `VmServer.Vm.AreaMappedIff` | servers/vm/page_alloc.c:107-126 | the addresses of a new area resolve to the range that was mapped for it if and only if the caller gave an address, or the range was there before: the range is mapped before the free address is chosen |
| `VmServer.MapsAtZero` | servers/vm/main.c:238-248 | a concrete server on which a task that asks for a page gets an address at which there is nothing, while the page is mapped at address 0 |
| `VmServer.Vm.MapRange` | servers/vm/page_alloc.c:107-115 | the range is mapped if and only if the regions have more free pages than it lacks tables, and the task then owns one more area for each of these |
| `VmServer.Vm.PageDone` | servers/vm/page_fault.c:23-46 | mapping one page of a range reduces the number of tables the range lacks by those that the page lacked |
| `VmServer.Vm.VirtPageAlloc` | servers/vm/page_alloc.c:139-152 | addresses are handed out once, in order, until and only until the range is used up |
| `VmServer.Vm.TaskPageFree` | servers/vm/page_alloc.c:162-171 | the first area with that address goes, and exactly its references |
| `VmServer.Vm.TaskPageFreeAll` | servers/vm/page_alloc.c:174-178 | all areas of the task go, the accounting stays |
| `VmServer.Vm.TaskKill` | servers/vm/task.c:142-165 | so it does when a task is killed |
| `VmServer.Vm.MapPage` | servers/vm/page_fault.c:17-46 | succeeds if and only if the regions have at least four free pages less one for each table behind the root that is already there; the loop then ends after one retry per missing table, the page is mapped and no other translation of any task has changed, the task owns exactly the new tables, and the last page is free again; else no page is left |
| `VmServer.Vm.constructor` | servers/vm/page_alloc.c:182-219 | the initial state is accounted for |
| `Malloc.Heap.constructor` | libs/resea/malloc.c:206-208 | the heap starts as one free chunk in the last bin, tame, with intact redzones |
| `Malloc.Heap.GetBinIdx` | libs/resea/malloc.c:68-79 | the first bin whose size is enough |
| `Malloc.Heap.Malloc` | libs/resea/malloc.c:81-144 | fails exactly if no chunk fits; else an aligned block that was not in use, nothing else in use changed; large enough if and only if its bin's first chunk was; which chunk it is, its capacity, and the chunks and bins that are left; whether the heap stays tame |
| `Malloc.Heap.Search` | libs/resea/malloc.c:109-141 | the walk along the last bin stops at the first chunk that is large enough |
| `Malloc.Heap.TakeTail` | libs/resea/malloc.c:49-66 | split gives the tail of the chunk away and keeps the tiling |
| `Malloc.Heap.Free` | libs/resea/malloc.c:156-175 | succeeds exactly for blocks in use with intact redzones; the block goes to the front of its bin, all others keep their contents |
| `Malloc.Heap.CheckBufferOverflow` | libs/resea/malloc.c:12-28 | true exactly if all bytes of both redzones are intact |
| `Malloc.Heap.FreeThenMalloc` | libs/resea/malloc.c:92-107 | a freed small block is the next one handed out for a size of its bin, and the bins are as before |
| `Malloc.Heap.Realloc` | libs/resea/malloc.c:177-194 | for any pointer from malloc: whether the block stays, moves or cannot; one that moves keeps as many bytes as malloc recorded, and the bytes its owner asked for last exactly if these are no more or what lies there is the same by chance; all other blocks keep theirs; the copy leaves its blocks exactly if one is smaller than the recorded size, never on a tame heap; the heap stays tame exactly if no misfit is taken |
| `Malloc.Heap.Handle` | libs/resea/malloc.c:81-194 | how one request of any kind ends, and the relation between the heap before, its result and the heap after; nothing changes if it is stopped; on a tame heap whose blocks hold what was asked for, they still do, no copy or write leaves its block, and the heap is tame exactly if no misfit was taken; a heap that has once given out a misfit stays marked for good |
| `Malloc.Heap.Serve` | libs/resea/malloc.c:81-194 | for any program and any number of requests: the moments from the heap at the start to that at the end, each a request after the one before, with intact redzones throughout; if it stops, the last request is one that ends so; the heap is tame at the end if and only if no request on the way took a misfit, and then every block holds what its owner asked for and nothing was overrun |
| `MallocModel.MarredNotTame` | libs/resea/malloc.c:156-175 | a chunk in use or in a small bin whose capacity fits no bin makes the heap not tame |
| `MallocModel.MarredAfter` | libs/resea/malloc.c:97-138 | handing out a chunk never makes such a chunk disappear: it is not split and does not return to the last bin |
| `MallocModel.MarredPut` | libs/resea/malloc.c:162-175 | neither does putting one back |
| `MallocModel.TidyLonger` | libs/resea/malloc.c:81-194 | a longer run has taken a misfit exactly if the shorter one has or its last request does |
| `MallocModel.MovedInTwo` | libs/resea/malloc.c:190-194 | malloc, the copy and free together move a block: it keeps the bytes that were copied, and all others keep theirs |
| `Malloc.Heap.TameNeverOverruns` | libs/resea/malloc.c:190-192 | on a tame heap the copy of realloc stays within both blocks |
| `Malloc.LosesAskedBytes` | libs/resea/malloc.c:183-192 | a concrete heap on which malloc(48), realloc to 64 and realloc to 1000 lose the 64th byte |
| `Malloc.Heap.Store` | libs/resea/malloc.c:12-28 | a write within a block changes no other block, no redzone and no other byte |
| `Malloc.Heap.BlocksApart` | libs/resea/malloc.c:49-66 | two blocks in use are separated by a redzone and a header |
| `Malloc.ServesTooLittle` | libs/resea/malloc.c:118-128 | a concrete heap on which a block of capacity 80 serves a request for 128 bytes |
| `MallocModel.TilesCover` | libs/resea/malloc.c:30-66 | capacities and frames add up to the heap |
| `MallocModel.ChunksDisjoint` | libs/resea/malloc.c:30-66 | no two chunks overlap |
| `MallocModel.SplitTiles` | libs/resea/malloc.c:49-66 | a split chunk and its tail tile what the chunk covered |
| `MallocModel.CarvedRegular` | libs/resea/malloc.c:115-117 | what malloc carves out, free puts where the same request looks for it |
| `MallocModel.TameAfter` | libs/resea/malloc.c:97-138 | the bins stay tidy exactly if the chunk handed out fits a bin and the request |
| `MallocModel.TakeLater` | libs/resea/malloc.c:119-124 | unlinking a later chunk keeps every free chunk in exactly one bin |
| `MallocModel.TakeHead` | libs/resea/malloc.c:104-105 | so does taking the first chunk of a bin |
| `MallocModel.PutHead` | libs/resea/malloc.c:170-174 | so does putting a chunk in front |
| `Virtq.Queue.constructor` | libs/virtio/virtio_legacy.c:87-92 | all descriptors start in the free list, in order |
| `Virtq.Queue.Push` | libs/virtio/virtio_legacy.c:105-168 | reclaims completed chains if it must; then the chain takes the first free descriptors and is offered in the next slot, or there is no room and no chain in flight changes; the queue is sound afterwards if and only if every round of the reclaim loop leaves the free list whole |
| `Virtq.Queue.ReclaimOne` | libs/virtio/virtio_legacy.c:110-133 | after a round of the reclaim loop the free list is whole if and only if it was whole before, and was empty or descriptor 0 leads through all of it |
| `Virtq.Queue.Reclaim` | libs/virtio/virtio_legacy.c:108-134 | the loop gives back exactly the completed chains, and the queue is sound at its end if and only if each round on its own keeps it so: a broken free list is never repaired |
| `Virtq.BrokenStays` | libs/virtio/virtio_legacy.c:129-132 | a round that ends with a whole free list has started with one |
| `Virtq.Queue.ReclaimEndsIff` | libs/virtio/virtio_legacy.c:110-133 | the reclaim loop ends if and only if fewer than 65536 chains have completed |
| `Virtq.ClaimIff` | libs/virtio/virtio_legacy.c:141-160 | filling descriptors from a free list that is not whole never makes the queue sound, and from a whole one always |
| `Virtq.Queue.CountChain` | libs/virtio/virtio_legacy.c:115-127 | the loop counts the descriptors of the chain |
| `Virtq.Queue.Pop` | libs/virtio/virtio_legacy.c:174-217 | returns exactly the entries pushed for the chain completed first and frees its descriptors; too short a buffer changes nothing; it reports an empty ring exactly if the ring is empty and the counter has not wrapped; else an empty ring yields an old element, and a pop that succeeds counts descriptors as free once more and leaves the queue unsound |
| `Virtq.Queue.Fill` | libs/virtio/virtio_legacy.c:141-157 | the loop follows the links, ends the chain at the last descriptor, and changes no other link; if it meets no descriptor twice, the descriptors hold the chain and all others are as before |
| `Virtq.Queue.Collect` | libs/virtio/virtio_legacy.c:183-207 | from the head of a chain, the loop reads its entries back; from anywhere else it stays within the table |
| `Virtq.Queue.DeviceTake` | libs/virtio/virtio_legacy.c:162-166 | a slot of the avail ring still holds its chain when the device gets to it |
| `Virtq.Queue.DeviceComplete` | libs/virtio/virtio_legacy.c:180-184 | the device completes any chain it holds, and the used ring has room for it |
| `Virtq.Queue.FreeListIsWalk` | libs/virtio/virtio_legacy.c:87-92 | the free list is what the links spell out from free_head, and its length is num_free_descs |
| `Virtq.PushPartition` | libs/virtio/virtio_legacy.c:136-168 | free list and chains in flight still partition all descriptors |
| `Virtq.PopPartition` | libs/virtio/virtio_legacy.c:209-216 | and they do after a pop |
| `Virtq.SlotOfWrapped` | libs/virtio/virtio_legacy.c:162-166 | a ring whose size divides 65536 uses its slots in turn although the index wraps |
| `Virtq.EmptyTestIff` | libs/virtio/virtio_legacy.c:176-178 | the test for an empty used ring is right if and only if the 16-bit counter has not wrapped or something is waiting |
| `Virtq.ReclaimIff` | libs/virtio/virtio_legacy.c:129-132 | the links from the reclaimed chain spell out all free descriptors if and only if the free list was empty or descriptor 0 leads through all of it |
| `Virtq.ReclaimLosesDescriptors` | libs/virtio/virtio_legacy.c:105-168 | a queue of four, from its construction on, whose second push is accepted and puts four entries into one descriptor |
| `Virtq.PopsTwice` | libs/virtio/virtio_legacy.c:176-217 | a queue of one descriptor, from its construction on: after 65536 chains a pop succeeds with nothing in flight, and two descriptors count as free |
| `Mbuf.New` | servers/tcpip/mbuf.c:13-38 | any data is split into a chain of fresh nodes that stands for it |
| `Mbuf.Append` | servers/tcpip/mbuf.c:61-67 | chains without a common node are concatenated |
| `Mbuf.Prepend` | servers/tcpip/mbuf.c:57-59 | a node in front of a chain |
| `Mbuf.Len` | servers/tcpip/mbuf.c:91-98 | the length of what the chain stands for |
| `Mbuf.Read` | servers/tcpip/mbuf.c:100-125 | returns and removes exactly the first bytes, across node boundaries |
| `Mbuf.Discard` | servers/tcpip/mbuf.c:155-177 | removes exactly the first bytes |
| `Mbuf.SplitAndJoin` | servers/tcpip/mbuf.c:13-125 | what is split is read back unchanged |
| `TcpSpec.StreamInOrder` | servers/tcpip/tcp.c:298-437 | for every run with an honest peer: octets read, then buffered, are a prefix of the stream; the acknowledgement number counts them and the FIN; window and buffer add up to 8192 |
| `TcpSpec.RunInOrder` | servers/tcpip/tcp.c:298-437 | the same for every run from a state in which it holds |
| `TcpSpec.StepInOrder` | servers/tcpip/tcp.c:336-436 | every segment and every read keeps this |
| `TcpSpec.NextInLine` | servers/tcpip/tcp.c:336-340 | the only segment with data that is taken is the next one of the stream, although numbers wrap |
| `TcpSpec.DeliveredGrows` | servers/tcpip/tcp.c:186-190 | what has been delivered is never taken back |
| `TcpSpec.FinCompletesIff` | servers/tcpip/tcp.c:386-404 | a FIN that is taken completes the stream if and only if its payload fits the window |
| `TcpSpec.AfterFin` | servers/tcpip/tcp.c:386-404 | after a FIN nothing more is accepted, in any run |
| `TcpSpec.FinLosesData` | servers/tcpip/tcp.c:386-404 | a concrete connection that loses the octets sent with the FIN for good |
| `TcpSpec.ActiveOpenIff` | servers/tcpip/tcp.c:352-364 | an active open starts in order if and only if the segment it takes is the SYN |
| `TcpSpec.ActiveStreamInOrder` | servers/tcpip/tcp.c:336-437 | for every run of an actively opened connection with an honest peer: if the first segment it takes is the SYN, the stream is in order as for a passive one |
| `Tcp.TcpSocket.Passive` | servers/tcpip/tcp.c:321-333 | the socket made for a client's SYN |
| `Tcp.TcpSocket.Process` | servers/tcpip/tcp.c:336-437 | over buffer chains, a segment changes the socket as specified, for which the stream is in order |
| `Tcp.TcpSocket.Read` | servers/tcpip/tcp.c:186-190 | over buffer chains, a read takes from the front of the buffer and opens the window |
| `OolSpec.ServedInOrder` | servers/vm/ool.c:26-165 | with disciplined clients, after every run and for every receiver: requests are served in order, each once; each copy is verified once, in order; a buffer is never open while a sender waits |
| `OolSpec.RecvKeepsIff` | servers/vm/ool.c:26-62 | registering a buffer keeps this if and only if it is a real one with nothing left to verify, or none at all with at most one sender waiting |
| `OolSpec.RecvRotates` | servers/vm/ool.c:39-58 | registering no buffer sends the first waiting sender to the back |
| `OolSpec.FailedCopyLeavesOpen` | servers/vm/ool.c:122-125 | a sender that cannot be read from is killed and leaves the buffer open, whoever else waits |
| `OolSpec.KilledReceiverStrands` | servers/vm/ool.c:136-141 | a receiver that cannot be written to is killed, and whoever else waited for it then waits in no queue |
| `OolSpec.StepKeeps` | servers/vm/ool.c:26-165 | every request keeps the protocol's invariant, and the server stops exactly for a send to a task that does not exist |
| `OolSpec.SendKeeps` | servers/vm/ool.c:85-165 | so does a send, queued or copied |
| `OolSpec.VerifyKeeps` | servers/vm/ool.c:64-83 | so does a verification, right or wrong |
| `Ool.OolServer.Copy` | servers/vm/ool.c:109-154 | the page-by-page loop stops early exactly at the first page of either side that cannot be had; up to there the bytes have arrived, unless source and target overlap, and no other byte has changed |
| `Ool.OolServer.HandleSend` | servers/vm/ool.c:85-165 | queues the sender, or copies its bytes into the buffer as far as the pages go, kills whoever lacks one, and changes the protocol state as specified; a message that is no longer than the buffer changes no byte outside it; memory is as before in all other cases |
| `Ool.OolServer.HandleRecv` | servers/vm/ool.c:26-62 | opens the buffer and serves the first waiting sender as specified, and stops where that does: its bytes arrive in memory as for a send, and memory is as before if nobody is served |
| `Ool.InsideIffShort` | servers/vm/ool.c:104-107 | a copy that comes to its end stays inside the registered buffer if and only if the message is no longer than that |
| `Ool.OolServer.HandleVerify` | servers/vm/ool.c:64-83 | accepts a claim if and only if it is the receipt at hand, which is then cleared: that of the last copy once, and the all-zero one while there is nothing to verify |
| `List.Link.constructor` | libs/common/include/list.h:72-75 | the empty list |
| `List.IsEmpty` | libs/common/include/list.h:35-37 | true exactly for the empty list |
| `List.Len` | libs/common/include/list.h:39-48 | the number of elements |
| `List.Contains` | libs/common/include/list.h:50-60 | true exactly for an element of the list |
| `List.PushBack` | libs/common/include/list.h:98-101 | the element comes last |
| `List.PopFront` | libs/common/include/list.h:104-118 | the first element goes and is unlinked; null for the empty list |
| `List.Remove` | libs/common/include/list.h:84-95 | an element goes from wherever it is; a link in no list stays as it is |
| `Datetime.ToDate` | libs/resea/datetime.c:41-80 | for every day before the year in which the 32-bit day counter overflows, a valid date, and the only one, that many seconds after the epoch; the right day of the week |
| `Datetime.EndsIffBefore` | libs/resea/datetime.c:54-58 | the loop over the years ends in the right year if and only if the day is before that year |
| `Datetime.ToTimestamp` | libs/resea/datetime.c:9-39 | the seconds of the date if and only if the year is between 1970 and 2106; the exact value for later years, and a time after 2106 for earlier ones; always early enough for the way back |
| `Datetime.SecondsInjective` | libs/resea/datetime.c:9-80 | no two dates have the same number of seconds |
| `Datetime.SecondsSurjective` | libs/resea/datetime.c:41-80 | every number of seconds has a date |
| `Datetime.YearAndDays` | libs/resea/datetime.c:5-23 | the days before a year in closed form, by the Gregorian rule |
| `Datetime.DateRoundTrip` | libs/resea/datetime.c:9-80 | from any date of any 32-bit year to seconds and back is the identity if and only if the year is between 1970 and 2106 |
| `Datetime.TimestampRoundTrip` | libs/resea/datetime.c:9-80 | from seconds to a date and back is the identity if and only if they are below 4323283200 |

## Left out

- Kernel, several CPUs: the code panics on a second one before it schedules (`kernel/boot.c:162-164`).
- Kernel, faults while a message is copied to or from user memory: the copy is atomic here.
- Kernel, names, ABI emulation, `kdebug`, console and the run-time trace; `TASK_SCHED` and hypervisor tasks.
- KernelImpl.Kernel.TaskSchedule: what a negative priority does to the memory in front of the run queues is not modelled; the model stops, as it does for a panic, and does so at once, where the code does it when the task is next put into a run queue.
- KernelInvariant.ScheduleKeeps: for a negative priority, up to that stop.
- KernelImpl.Kernel.Handle: covers the system calls about tasks, messages, timers and interrupts, not `vm_map`, `vm_unmap` and the console.
- KernelImpl.Kernel.ResumeSender: works on sequences, as do the other methods of that class; KernelQueues.Queues has the same operations on rings of links.
- Page tables, TLB flushes and the kernel half of the address space; virtual addresses are page-aligned and below 2^47.
- PageTable.Mmu.ArchVmMap: without a page for a missing table the code also clears page 0, which holds no table and is not part of the model.
- PageTable.ClearRoot: stands for what the kernel does to a task's tables when the task is destroyed.
- VmServer.Vm.constructor: takes the regions of memory as given; `page_alloc_init` builds them from the boot loader's map.
- VmServer.Vm.TaskKill: the pages and tables of the task, not its services and the tasks that watch it.
- VmServer.Vm.TaskPageAlloc: without a range, for requests of at least one page, since an area of no pages covers none; with one, for ranges that lie in user space.
- VmServer.Vm.MapPage: maps one page; the pager's choice of pages (`servers/vm/page_fault.c:50-145`) is not part of this model.
- malloc, sizes near the end of the address space, where rounding up would wrap: sizes are unbounded here. `strdup` and `strndup`.
- Malloc.Heap.Free: for null and for addresses that malloc has returned at some time, freed or not; other pointers have no header to look at.
- Malloc.Heap.Serve: a run ends where a copy or a write leaves its block, or the program uses a pointer it has not got; what that overwrites is not modelled.
- Malloc.Heap.Realloc: for the same pointers. When the copy leaves its blocks that is the outcome, and what it overwrites is not modelled.
- Virtq.Queue.Push: when it has to reclaim, for fewer than 65536 completions; beyond, its loop does not end, as Virtq.Queue.ReclaimEndsIff proves.
- The device's memory accesses, barriers and notifications, and `virtio_modern.c`, which has the same algorithm.
- mbufs, `mbuf_peek`, `mbuf_append_bytes`, `mbuf_truncate` and `mbuf_clone`, which do not treat a chain as the bytes it stands for; nodes that are dropped are not freed here.
- TCP, the sending side, the socket table, lookup, backlog and retransmission; the peer's window, which is read with the wrong width (`servers/tcpip/tcp.c:342`).
- TcpSpec.StreamInOrder: for streams shorter than 2^32 - 2 octets.
- Out-of-line payloads: a failing map call in the middle of a copy, and the comparison of the length with the buffer's in debug builds.
- Ool.OolServer.Copy: takes the page behind each virtual page as given; which bytes arrive is stated for targets that overlap neither each other nor the source.
- OolSpec.StepKeeps: the lookup of a task that does not exist stops the server (`servers/vm/task.c:18-26`), so the branch that would return ERR_NOT_FOUND (`servers/vm/ool.c:90-92`) is never taken.
- Datetime.ToDate: from the year 11761191 on, its loop ends in a wrong year or not at all; Datetime.EndsIffBefore proves where that begins.
- DNS, DHCP, ARP, UDP, IPv4, the FAT driver, drivers, apps, the hypervisor and the build tools: plumbing, or easy next to the parts above.
