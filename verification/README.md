# PandOS kernel

A model of the PandOS kernel (phases 1 and 2) and proofs about it. The kernel keeps its processes in
one table of PCBs. Each PCB is threaded through `p_list` into at most one of many intrusive lists: the
free list, the ready queue, or the queue of a semaphore descriptor; through `p_sib` it sits in its
parent's child list. Semaphore descriptors are themselves on a free list or in a bucket of a hash table.
Two counters summarise where the processes are, and the scheduler decides by them whether to halt, to
wait or to panic.

The project has two layers.

* **Classes** take the form of the C code and update their fields in place. `Lists.Links` has the
  pointer rings of `list.h`, `HashLists.HashTable` the chains of `hlist` and `hashtable.h`,
  `Processes.ProcessTable` is `pcb.c`, `Ashes.Ash` is `ash.c`, `Namespaces.NamespaceTable` is `ns.c`,
  `Pools.Pool` puts the PCB table and the hash together, and `Kernels.Kernel` is the scheduler, the
  system calls, the interrupts and `initKernel`. Every method states its whole new state as a function
  of the old one.
* **The state machine** is the kernel as a value. `KernelState.K` is the state, `KernelSteps.Step` what
  one exception does to it and how the kernel leaves, and `KernelInvariant.Inv` what every step keeps.
  `Runs` has runs of any length from `initKernel`; the modules after it prove what holds over them.

The two meet in `Kernels.Kernel`: `InitKernel` builds exactly the first state, and `SyscallHandler` and
`InterruptHandler` take exactly a step. Their contracts also say what that is without naming the step:
`Kernels.Answers` for requests and `Interrupts.Attends` for interrupts. `Traces` puts this together: `Traces.Boot` leaves the state in which
runs begin, and after any sequence of requests, interrupts and direct calls `Traces.Live` leaves the pointer
structures in the state of the corresponding run. So what is proved of runs holds of them.

| module | contents |
|---|---|
| `Machine`, `Seqs`, `Trees` | the machine word; sequences without repetition and their filtering; the process forest and its postorder |
| `Lists`, `HashLists`, `Processes`, `Ashes`, `Namespaces`, `Pools`, `Kernels` | the classes |
| `DeviceRegisters` | device register addresses, interrupt lines, semaphore indices |
| `KernelState`, `KernelSteps`, `KernelInvariant`, `KernelFacts` | the state machine and its invariant |
| `Terminations`, `Subtrees` | taking a subtree apart child by child, and what that amounts to |
| `Runs`, `Losses`, `Verdicts`, `Bypass`, `Fifo`, `Histories`, `DeviceSemaphores`, `Identities`, `Reuse` | properties of whole runs |
| `Traces` | the classes over whole runs |
| `Effects`, `Interrupts` | what every request and every interrupt does to the state, field by field, in terms of the request and of the pending lines |
| `Recurrence`, `Creations` | runs that come back to where they began; the namespace and the PID of a new process |
| `Nulls`, `Miscounts` | terminations of NULL; PASSEREN and VERHOGEN on the kernel's own semaphores |
| `Strings` | `itoa`, `reverse`, `strlen`, `strcpy` |

Conventions. A pointer to a PCB or to a descriptor is its index in the table, with -1 for NULL. A
semaphore is its address, with 0 for NULL, and `mem` holds the words used as semaphores. The number of
PCBs is any positive number (below 2^32 where the words that count them matter), the hash any function into
the buckets, and the place of the kernel's own semaphores any that does not overlap. A read through NULL does
not trap: `getNamespace` reads a type through an empty slot and `__terminateProcess` reads `p_semAdd` through a
NULL process, and the words they then see are the parameters `nullWord` and `nullSem`; all claims hold for
all such words. `Tree.birth` is not in the C code: it stamps each process with its place in the order of
creation, which gives the forest its measure. Nor is `K.nulls`, which counts the terminations of NULL. PIDs and
the two counters are words; `Machine.Signed` is a word read as a C int. Queries of hardware (pending lines,
device bitmaps, terminal status, installed devices) are parameters of the step.

What the code does not do. Each of these is stated as it is, with the exact condition and, but for the last two, a
run from `initKernel` that meets it.

* `schedule` forgets the running process unless it has been queued, blocked or freed. Exactly four
  requests enter it otherwise (`Losses.StepLosses`): terminating a PID that `findPcb` does not find, terminating
  a process that the caller does not descend from, and I/O on a device that is missing or has interrupted
  before. Each of them loses the caller within two steps of the start: a process that merely terminates its own
  child is never scheduled again (`Losses.TerminatingChildLosesCaller`).
* TERMPROCESS hands NULL to `terminateProcess` exactly when the PID is not 0 and every live process that has it
  is the caller itself or a lost one, because `findPcb` looks at neither (`Identities.NullTargetWhen`).
  Everything it calls returns on NULL, but `process_count` is decremented, and so is the soft-blocked count if
  the word at `NULL->p_semAdd` is in range (`Identities.NullTargetEffect`). From then on the counters are wrong
  by the number of such requests (`Runs.EveryRun`), and right only if that is a multiple of 2^32
  (`Runs.CountIsRight`). A first process that names itself makes the kernel halt while it is live
  (`Losses.NullTargetLosesCaller`); and if its child does so, the kernel does not halt when everybody is gone
  (`Nulls.NobodyLeft`).
* A new process need not be in its creator's namespace. `resetPcb` leaves the namespaces of the previous
  process in the PCB, and `addNamespace` does nothing for NULL, so a process whose creator has no namespace
  keeps that of the PCB's former owner (`Creations.CreationSpaces`). Its creator then does not find it among
  its children, and that happens exactly when no namespace was requested, the creator has none and the PCB has
  one, or when one other than the creator's was requested (`Creations.ChildIsListed`). The first process gets
  there with its second child, if its first one had a namespace and is gone (`Creations.StaleNamespace`).
* `freeNamespace` leaves the descriptor in the slots of its processes. If no process is created before it is
  handed out again, it is handed out in use exactly if it was in use when freed (`Reuse.HandedOutInUse`); and one
  that was not is never handed out in use (`Reuse.HandedOutClean`). The first process can free the namespace of
  its own child and be handed it next (`Reuse.FreesInhabited`).
* PIDs need not be unique. A step keeps live PIDs distinct and nonzero exactly when it does not hand out a
  counter value that is 0 or that a live process has (`Identities.StepDistinct`, and `Identities.RunDistinct`
  for whole runs). So the counter may come round without harm; but there are runs that give a second live
  process the PID 1 and runs that give one the PID 0 (`Identities.PidsClash`).
* CREATEPROCESS returns the PID as an int, and -1 stands for failure. It reads failed exactly when the table is
  full or the PID is 2^32 - 1 (`Creations.CreateReadsFailed`), and in the second case the child is live
  (`Creations.ChildReadsFailed`).
* PASSEREN and VERHOGEN do not keep the count of soft-blocked processes when they are given a semaphore of the
  kernel's own: PASSEREN exactly when the semaphore is 0, VERHOGEN exactly when it is 1 or has a queue
  (`Miscounts.PassedMiscounts`, `Miscounts.RaisedMiscounts`). The kernel then declares a deadlock where it
  should wait (`Miscounts.FalseDeadlock`). This is shown of the functions of the kernel at the first state, not
  of a run: the steps of the state machine take words outside the kernel's own.
* `doIO` divides register offsets by constants that are not the register length; the index is right for
  every device exactly when registers are 16 or 17 bytes long (`DeviceRegisters.IndexAgrees`).

Where comments and code differ, the model follows the code: `P` is documented to decrement and sets the
semaphore to 0 (pandos/phase2/include/interrupt.h:16, pandos/phase2/interrupt.c:83-86); `V` is documented to
enqueue the current process and enqueues the one it wakes (pandos/phase2/include/interrupt.h:26-28);
`insertBlocked` is documented to return TRUE or FALSE and has four results (pandos/phase1/include/ash.h), and
puts a new descriptor at the head of its bucket where the comment says tail (pandos/phase1/ash.c:38-50);
`schedule` says that the running process has been put in the ready queue, which a blocked or terminated
one has not (pandos/phase2/scheduler.c:34-36); `getChildren` says that it returns how many PIDs it stored and
returns how many there are (pandos/phase2/syscall.c:255-279); `getNewPid` promises a PID not used before, which
holds until the counter wraps (pandos/phase2/include/scheduler.h).

## Model

| member | source | states |
|---|---|---|
| Lists.Links.InsertBetween | pandos/phase1/include/list.h:61-71 | linking an unlinked entry between two neighbours of a ring inserts it there in the sequence the ring holds; prev and next stay inverse everywhere and all other lists keep their contents |
| Lists.Links.Add | pandos/phase1/include/list.h:82-85 | the entry becomes the first of the list |
| Lists.Links.AddTail | pandos/phase1/include/list.h:95-98 | the entry becomes the last of the list |
| Lists.Links.Del | pandos/phase1/include/list.h:144-149 | the entry leaves the one list that holds it, whichever that is, its links become NULL, and the order of the rest is kept |
| Lists.Links.SafeDel | pandos/phase1/include/util.h:26-33 | the same, and nothing happens to an entry that is on no list |
| Lists.Links.LinkedHasPointers | pandos/phase1/include/util.h:28-28 | an entry is on no list if and only if both of its links are NULL, which is what the test relies on |
| Lists.Links.Contains | pandos/phase1/include/util.h:43-75 | the walk round the ring ends, and answers whether the list holds the entry |
| Lists.Links.Size | pandos/phase1/include/util.h:82-90 | the length of the list |
| Lists.Links.Empty | pandos/phase1/include/list.h:288-291 | true of an initialised header whose list is empty and of no other |
| HashLists.HashTable.AddHead | pandos/phase1/include/list.h:886-894 | the node becomes the first of its bucket; next and pprev of all chains stay right |
| HashLists.HashTable.Del | pandos/phase1/include/list.h:840-876 | the node leaves the bucket that holds it, through its own back pointer |
| HashLists.Hash32 | pandos/phase1/include/hash.h:57-61 | the bucket of every key is in the table |
| HashLists.ProductIsBijective | pandos/phase1/include/hash.h:52-61 | the wrapped multiplication maps words to words one to one, and the bucket is its high bits |
| HashLists.BucketsAreEven | pandos/phase1/include/hash.h:52-61 | of all words, exactly 2^20 go to each bucket |
| Processes.ProcessTable.InitPcbs | pandos/phase1/pcb.c:23-33 | the free list holds every PCB once, the last of the table first |
| Processes.ProcessTable.ResetPcb | pandos/phase1/util.c:3-35 | a PCB that is in no queue and in no child list comes out without parent or semaphore and with an empty child list, whatever its parent field held; its namespaces and PID stay; no effect for NULL |
| Processes.ProcessTable.AllocPcb | pandos/phase1/pcb.c:46-60 | the first free PCB, reset, whatever its parent field held; NULL and no change when there is none |
| Processes.ProcessTable.FreePcb | pandos/phase1/pcb.c:35-44 | the PCB leaves whatever list holds it for the front of the free list; no effect for NULL |
| Processes.ProcessTable.InsertProcQ | pandos/phase1/pcb.c:79-86 | the PCB moves from whatever list holds it to the tail of the queue; no effect for a NULL queue or process |
| Processes.MoveIsIdempotent | pandos/phase1/pcb.c:79-86 | inserting twice is inserting once |
| Processes.ProcessTable.OutProcQ | pandos/phase1/pcb.c:110-117 | the PCB leaves the queue if it is on it and is returned; otherwise, and for NULL, NULL and no change |
| Processes.ProcessTable.RemoveProcQ | pandos/phase1/pcb.c:98-108 | the first of the queue is removed and returned; NULL for an empty queue |
| Processes.ProcessTable.SearchPcbByPid | pandos/phase1/pcb.c:13-21 | the first PCB of the queue with the PID, and NULL exactly when none has it |
| Processes.ProcessTable.InsertChild | pandos/phase1/pcb.c:130-137 | any process without a parent becomes the last child of any process outside its subtree, the younger or the older of the two; parent pointers and child lists still describe one forest; no effect for NULL |
| Processes.ProcessTable.OutChild | pandos/phase1/pcb.c:147-155 | the process leaves its parent's list and has no parent; no effect without a parent or for NULL |
| Processes.ProcessTable.RemoveChild | pandos/phase1/pcb.c:139-145 | the first child is cut off and returned, NULL when there is none or for NULL |
| Trees.PostIsSubtree | pandos/phase2/syscall.c:70-79 | the recursion over children reaches exactly the processes whose chain of parents leads to the root of the subtree |
| Trees.PostNoDup | pandos/phase2/syscall.c:70-79 | and each of them once |
| Trees.WithinBirth | pandos/phase1/pcb.c:130-137 | no chain of parents returns to where it began |
| Ashes.Ash.Lookup | pandos/phase1/include/hashtable.h:155-156 | searching only the key's bucket finds the descriptor of a key exactly when the key is active anywhere, for any hash function |
| Ashes.Ash.InsertBlocked | pandos/phase1/ash.c:13-52 | the four results and when they occur; on success the process is last in the queue of the semaphore and its `p_semAdd` names it, and no other queue changes |
| Ashes.Ash.RemoveBlocked | pandos/phase1/ash.c:54-88 | the one that has waited longest leaves the queue, and an emptied semaphore is no longer active |
| Ashes.Ash.OutBlocked | pandos/phase1/ash.c:90-124 | the process leaves the queue that its `p_semAdd` names, wherever it is in it; NULL and no change if it is not blocked |
| Ashes.Ash.HeadBlocked | pandos/phase1/ash.c:126-150 | the first of the semaphore's queue, NULL when it is not active |
| Ashes.Ash.InitAsh | pandos/phase1/ash.c:152-165 | no semaphore is active and every descriptor is free |
| Ashes.Ash.FindPcb | pandos/phase1/ash.c:167-187 | scanning the ready queue and all buckets finds a process with the PID exactly when the ready queue or the queue of some active semaphore holds one |
| Ashes.Ash.NeverOutOfDescriptors | pandos/phase1/ash.c:35-37 | blocking a process that is in no queue always finds a free descriptor, so the result 3 never occurs there |
| Ashes.Ash.FreePlusActive | pandos/phase1/ash.c:39-50 | free and active descriptors add up to the whole table |
| Ashes.DescriptorsSuffice | pandos/phase1/ash.c:35-37 | with a process in no queue, some descriptor has an empty queue |
| Namespaces.NamespaceTable.InitNamespaces | pandos/phase1/ns.c:9-20 | all descriptors are free, in table order, and none is used |
| Namespaces.NamespaceTable.GetNamespace | pandos/phase1/ns.c:22-35 | the first slot whose descriptor has the type, whatever a NULL slot reads as |
| Namespaces.NamespaceTable.SetAllChildNamespace | pandos/phase1/ns.c:38-45 | the recursion ends and sets the slot of all proper descendants and of no other process |
| Namespaces.NamespaceTable.AddNamespace | pandos/phase1/ns.c:47-63 | the slot of the descriptor's type is set in the process and its descendants, and the descriptor moves to the tail of the used list; no effect for a NULL process or descriptor |
| Namespaces.NamespaceTable.AllocNamespace | pandos/phase1/ns.c:65-79 | the first free descriptor, off the list and with its type; NULL when there is none |
| Namespaces.NamespaceTable.FreeNamespace | pandos/phase1/ns.c:81-86 | the descriptor moves to the tail of the free list |
| Subtrees.NamespaceOfSubtree | pandos/phase1/ns.c:47-63 | exactly one slot changes, in exactly the processes of the subtree, and the descriptor is in the used list once and in no other |
| Subtrees.NamespaceIdempotent | pandos/phase1/ns.c:47-63 | adding the same namespace again changes nothing |
| Subtrees.NamespaceFound | pandos/phase1/ns.c:22-63 | afterwards getNamespace finds it throughout the subtree, and elsewhere what it found before |
| Kernels.Kernel.InitKernel | pandos/phase2/main.c:25-63 | one ready process with PID 1, every other PCB free, all kernel semaphores 0; the invariant holds |
| Kernels.Kernel.InitDevSems | pandos/phase2/devices.c:13-20 | every device semaphore and the pseudo clock are 0 and no other word changes |
| Kernels.Kernel.Schedule | pandos/phase2/scheduler.c:33-67 | the first ready process is dispatched, or the verdict of the counters on an empty queue |
| Kernels.Kernel.EnqueueReady | pandos/phase2/scheduler.c:74-78 | the process is last in the ready queue, once, and no longer current |
| Kernels.Kernel.CreateProcess | pandos/phase2/syscall.c:35-61 | the new process is live, ready, the last child of the caller, has the next PID, which is returned as an int, and the namespace loop leaves the namespaces as Creations.CreationSpaces says; -1 and no change when the table is full |
| Creations.CreateReadsFailed | pandos/phase2/syscall.c:35-61 | the result is -1 if and only if the table is full or the PID is the largest word |
| Creations.ChildReadsFailed | pandos/phase2/syscall.c:35-61 | a run after which the first process gets -1 for a child that is live |
| Creations.CreationSpaces | pandos/phase2/syscall.c:52-58 | the new process is in the namespace requested, else in its creator's, else in the one its PCB was left in by its former owner; no other process changes namespace |
| Creations.ChildIsListed | pandos/phase2/syscall.c:258-280 | getChildren counts the new child if and only if the creator's namespace was requested, or none was and the creator has one or the PCB has none |
| Creations.StaleNamespace | pandos/phase1/util.c:3-35 | a run in which the first process, in no namespace, has a child in the namespace of an earlier one, which getChildren does not count |
| Reuse.HandedOutInUse | pandos/phase1/ns.c:65-86 | a descriptor that is freed and handed out again with no process created in between is in a slot then if and only if it was in one when freed |
| Reuse.HandedOutClean | pandos/phase1/ns.c:65-86 | whatever happens in between, one that was in no slot when freed is in none for as long as it stays free |
| Reuse.FreesInhabited | pandos/phase1/ns.c:81-86 | a run after which the next descriptor to be handed out is the namespace of a live child |
| Kernels.Kernel.TerminateSubtree | pandos/phase2/syscall.c:70-95 | the loop and the recursion end, and free the subtree as Subtrees.TerminationFreesSubtree says; for NULL only the counters change |
| Kernels.Kernel.TerminateProcess | pandos/phase2/syscall.c:102-108 | the same after leaving the parent, then the scheduler's decision, for NULL too |
| Kernels.Kernel.Passeren | pandos/phase2/syscall.c:117-135 | for any word of memory: blocks at 0, wakes the longest waiting when there is a queue, else decrements |
| Kernels.Kernel.Verhogen | pandos/phase2/syscall.c:144-161 | for any word of memory: blocks at 1, wakes the longest waiting when there is a queue, else increments with wrap-around |
| Kernels.Kernel.P | pandos/phase2/interrupt.c:76-87 | blocks and counts the caller at 0, else sets the semaphore to 0 (Effects.WaitedEffect) |
| Kernels.Kernel.V | pandos/phase2/interrupt.c:89-103 | wakes and uncounts the longest waiting, else sets the semaphore to 1 |
| Kernels.Kernel.ServeDevice | pandos/phase2/interrupt.c:65-73 | V on the device's semaphore; making the woken process ready a second time has no effect |
| Kernels.Kernel.TickClock | pandos/phase2/interrupt.c:124-134 | the loop ends with everybody who waited for the clock ready |
| Kernels.Kernel.DoIo | pandos/phase2/syscall.c:173-226 | for the registers of a unit whose bit is set in the word of installed devices, ibitmap >> dev odd, P on the semaphore that the unit's interrupt signals; no effect for a missing one |
| DeviceRegisters.PowersOfTwo | pandos/phase2/syscall.c:189-189 | the powers that the bits stand for |
| DeviceRegisters.BitIsShift | pandos/phase2/syscall.c:189-189 | testing a bit is shifting it to the last place and looking whether the result is odd |
| Kernels.Kernel.FindPcb | pandos/phase1/ash.c:167-187 | a ready or blocked process with the PID, and NULL exactly when there is none |
| Kernels.Kernel.GetChildren | pandos/phase2/syscall.c:258-280 | the full number of children in the namespace, and exactly the first cells that fit are written, with the PIDs as ints; the rest of the array and the kernel are unchanged |
| Namespaces.CellsWritten | pandos/phase2/syscall.c:258-280 | each cell that is written holds the PID of its child as an int, and the others what they held |
| Kernels.Kernel.InterruptHandler | pandos/phase2/interrupt.c:107-198 | an interrupt is a step of the state machine, and that step is what the pending lines ask for: the running process goes last if its slice is over, then all that wait for the clock, then the first on the queue of every unit served; the semaphores of these units and no others get a V; the scheduler runs if nobody runs |
| Interrupts.ServedUnits | pandos/phase2/interrupt.c:27-73 | a unit is served if and only if its line is pending, its device has the highest number whose bit is set (0 if none is), and its half of a terminal has an operation to acknowledge |
| Interrupts.ServedInOrder | pandos/phase2/interrupt.c:135-191 | no unit is served twice, and they are served line by line, a transmitter before its receiver |
| Interrupts.ServedReady | pandos/phase2/interrupt.c:89-103 | serving several units makes the first of each of their queues ready, in that order |
| Interrupts.ServedWord | pandos/phase2/interrupt.c:89-103 | each of their semaphores loses the first of its queue or becomes 1 if it has none, and every other word and queue is untouched |
| Interrupts.InterruptEffect | pandos/phase2/interrupt.c:107-198 | every interrupt, from any state, does exactly this |
| Kernels.Kernel.SyscallHandler | pandos/phase2/syscall.c:282-381 | every request is a step of the state machine and keeps the invariant, and does what it is for: CREATEPROCESS adds one process or finds the table full; TERMPROCESS and a fatal trap end a process and its descendants, or nobody; PASSEREN blocks at 0 and VERHOGEN at 1, and else they wake or store; DOIO and CLOCKWAIT do P; all others change nothing; and the kernel returns to the caller or schedules as stated for each |
| Kernels.RequestEffect | pandos/phase2/syscall.c:282-381 | whatever steps a request is said to ask for have this effect |
| Effects.PasserenEffect | pandos/phase2/syscall.c:117-135 | at 0 the caller is last on the queue and the scheduler runs; else the first of a queue is last ready, or the word is one less, and the caller goes on |
| Effects.VerhogenEffect | pandos/phase2/syscall.c:144-161 | the same at 1, with the word one more, wrapped |
| Effects.DoIoEffect | pandos/phase2/syscall.c:173-226 | P on the unit's semaphore and the scheduler, or only the scheduler |
| Effects.ClockWaitEffect | pandos/phase2/syscall.c:348-352 | P on the clock and the scheduler |
| Effects.CreateEffect | pandos/phase2/syscall.c:35-61 | one process more, last ready and last under the caller, or no change; the caller goes on |
| Effects.TerminateEffect | pandos/phase2/syscall.c:70-108 | the process and its descendants are free and in no queue, the others as they were, and the scheduler takes the first that is still ready |
| Effects.CallsEffect | pandos/phase1/ns.c:65-86 | the first free descriptor leaves the list with its type; the freed one goes to the tail; nothing else changes |
| Effects.ReturnsWhen | pandos/phase2/syscall.c:376-380 | the kernel returns to the caller from exactly the steps that neither block nor end nor preempt it; and the outcome of any step names the process then running, or says that there is none |
| Kernels.Kernel.AllocNamespace | pandos/phase1/ns.c:65-79 | called by a program, it is a step of the state machine |
| Kernels.Kernel.FreeNamespace | pandos/phase1/ns.c:81-86 | called by a program, it is a step of the state machine |
| Traces.Boot | pandos/phase2/main.c:25-63 | initKernel and the first schedule leave the pointer structures in the state in which runs begin |
| Traces.EnterAll | pandos/phase2/syscall.c:282-381 | any sequence of requests, interrupts and calls takes the pointer structures along a run, event by event the ones asked for |
| Traces.Live | pandos/phase2/main.c:25-63 | so from initKernel on they are always in the state of a run |
| KernelInvariant.StepKeepsInv | pandos/phase2/syscall.c:282-381 | every request, interrupt and call keeps the invariant: places disjoint, queues and `p_semAdd` in agreement, the forest, both counters exact but for the terminations of NULL, device semaphores 0 or 1 with a queue only at 0, the clock at 0 |
| KernelInvariant.BootedInv | pandos/phase2/main.c:25-63 | the invariant holds of the state that initKernel leaves |
| Runs.FirstStep | pandos/phase2/main.c:25-63 | the first process runs, with PID 1; every other PCB is free, the last of the table first; nobody waits, has a parent or a namespace |
| KernelFacts.CountersInRange | pandos/phase2/scheduler.c:80-94 | put right for the terminations of NULL, the counters are in range: soft-blocked processes are live, and live ones fit the table; without any the unsigned words never wrap |
| KernelFacts.ServedAll | pandos/phase2/interrupt.c:135-191 | serving line after line is serving all signalled semaphores in order |
| KernelFacts.AlreadyReady | pandos/phase2/interrupt.c:98-101 | the repeated enqueueReady after V finds the process at the tail and leaves the queue as it is |
| Terminations.KillChild | pandos/phase2/syscall.c:75-79 | one turn of the loop takes the state with some children's subtrees freed to the state with one more |
| Terminations.KillLast | pandos/phase2/syscall.c:81-94 | when the children are gone, unblocking and freeing the process completes its subtree |
| Subtrees.TerminationFreesSubtree | pandos/phase2/syscall.c:70-108 | the free list grows by the reverse of the subtree's postorder; the ready queue and every semaphore queue lose exactly the subtree and keep their order; emptied semaphores are inactive; both counters drop by the exact amounts |
| Subtrees.TerminationSparesOthers | pandos/phase2/syscall.c:70-108 | processes outside keep semaphore, parent and children, but for the process leaving its parent's list |
| Runs.EveryRun | pandos/phase2/scheduler.c:33-94 | in every reachable state parent pointers and child lists describe one forest, a PCB is in at most one place, blocked exactly where its `p_semAdd` says, and the counters equal the numbers of live and of soft-blocked processes less the number of TERMPROCESS requests that found nobody |
| Runs.CountIsRight | pandos/phase2/scheduler.c:80-94 | the word that counts the processes is right if and only if the number of those requests is a multiple of 2^32 |
| Losses.StepLosses | pandos/phase2/scheduler.c:33-36 | a step loses a process if and only if it terminates a PID that findPcb does not find or a process the caller does not descend from, or does I/O on a device that is missing or whose semaphore is raised, and then it loses the caller |
| Losses.NobodyIsLost | pandos/phase2/scheduler.c:33-67 | a run keeps every live process reachable if and only if it avoids these four requests |
| Losses.LiveProcessesHavePlaces | pandos/phase2/scheduler.c:33-67 | along such runs from initKernel every live process is running, ready, or on the queue its `p_semAdd` names |
| Losses.NullTargetLosesCaller | pandos/phase2/syscall.c:309-314 | the first process terminating its own PID, or any other but 0, is lost, and the kernel halts with it live, whatever a read through NULL sees |
| Losses.MissingDeviceLosesCaller | pandos/phase2/syscall.c:189-195 | the first process asking for a device that is not installed is lost, and the kernel declares a deadlock |
| Losses.RaisedDeviceLosesCaller | pandos/phase2/interrupt.c:83-86 | a device that interrupts before it is asked raises its semaphore, and the next process to ask for it is lost |
| Losses.TerminatingChildLosesCaller | pandos/phase2/syscall.c:309-313 | a process that terminates its own child is lost, from the second request on |
| Verdicts.VerdictCounts | pandos/phase2/scheduler.c:40-59 | HALT, WAIT and deadlock are each chosen if and only if nobody is ready and the numbers of live and of soft-blocked processes differ or do not differ from those of the terminations of NULL, modulo the word |
| Verdicts.VerdictIsRight | pandos/phase2/scheduler.c:40-59 | without terminations of NULL, HALT, WAIT and deadlock are each chosen if and only if nobody is ready and: nobody is live; somebody waits for an interrupt; somebody is live and nobody waits for one |
| Nulls.NobodyLeft | pandos/phase2/scheduler.c:40-59 | a run with one termination of NULL after which nobody is live and the kernel panics, or waits if NULL reads as soft-blocked |
| Verdicts.WaitEnds | pandos/phase2/scheduler.c:46-51 | when the kernel waits, the interrupt that any soft-blocked process waits for dispatches a process |
| Verdicts.DeadlockIsForever | pandos/phase2/scheduler.c:53-58 | after a deadlock no sequence of interrupts ever makes a process ready or changes a queue |
| Verdicts.DeadlockIsStuck | pandos/phase2/scheduler.c:53-58 | a declared deadlock is such a state if and only if NULL has not been taken for a soft-blocked process, or a multiple of 2^32 times |
| Verdicts.TickOrder | pandos/phase2/interrupt.c:124-134 | a clock tick appends the waiting processes to the ready queue in blocking order, uncounts them, frees the clock's descriptor and changes no other queue |
| Verdicts.ClockWaitBlocks | pandos/phase2/syscall.c:348-352 | CLOCKWAIT always blocks the caller, last in the clock's queue |
| Bypass.StepNotPassed | pandos/phase2/scheduler.c:63-78 | no step moves a ready process away from the head of the queue |
| Bypass.BoundedBypass | pandos/phase2/scheduler.c:63-78 | a process with j others before it sees at most j dispatches before it is dispatched or freed, under any events |
| Fifo.StepFifo | pandos/phase1/ash.c:54-88 | in a step, a front part of a semaphore's queue leaves it alive, the freed ones leave it, the others keep their order, and at most the caller joins at the tail |
| Fifo.WokeIsFront | pandos/phase1/ash.c:54-88 | so those that a step wakes on a semaphore are exactly its longest waiting |
| Fifo.BoundedWakes | pandos/phase2/syscall.c:117-161 | a process with j others before it on a semaphore's queue sees at most j wakes on it before it is woken or freed, under any events, and each brings it closer |
| Miscounts.PassedMiscounts | pandos/phase2/syscall.c:117-135 | PASSEREN keeps the counters as they should be if and only if the semaphore is not the kernel's own or is not 0; otherwise it misses one process, and all else holds |
| Miscounts.RaisedMiscounts | pandos/phase2/syscall.c:144-161 | VERHOGEN keeps them exact if and only if the semaphore is not the kernel's own, or is not 1 and has no queue |
| Miscounts.FalseDeadlock | pandos/phase2/scheduler.c:40-59 | at the first state, PASSEREN on a device's semaphore and the scheduler after it declare a deadlock, where P on it makes the kernel wait |
| Histories.StepKeepsLaw | pandos/phase2/syscall.c:117-161 | value, completed operations and waiting processes stay in step, whichever event occurs, terminations of waiting processes included |
| Histories.BinarySemaphore | pandos/phase2/syscall.c:117-161 | a semaphore that starts at 0 or 1 is always 0 or 1, and equals its first value plus completed V minus completed P; whoever waits does so for P at 0 and for V at 1 |
| Histories.RunKeepsLaw | pandos/phase2/syscall.c:117-161 | for any first value the same equation holds modulo the word |
| DeviceSemaphores.RequestLowers | pandos/phase2/interrupt.c:76-87 | a request for an installed device leaves its semaphore at 0 and every other word as it was |
| DeviceSemaphores.OthersKeep | pandos/phase2/interrupt.c:76-103 | no other event but an interrupt changes the semaphore of a device |
| DeviceSemaphores.OthersKeepWord | pandos/phase2/syscall.c:117-161 | nor any word but the one the request is for |
| DeviceSemaphores.InterruptRaises | pandos/phase2/interrupt.c:89-103 | an interrupt raises it if and only if it signals the device more often than there are processes waiting |
| DeviceSemaphores.RaisedWhenUnclaimed | pandos/phase2/interrupt.c:76-103 | over any run it is 0 or 1, and 1 if and only if the last operation on it was a V that found nobody waiting; and nobody waits then |
| DeviceSemaphores.DeviceHistory | pandos/phase2/interrupt.c:76-103 | from initKernel on it is 1 exactly in that case |
| DeviceSemaphores.SoftWords | pandos/phase2/syscall.c:83-84 | what counts as soft-blocked is waiting for the clock or for one of the device semaphores |
| Identities.StepDistinct | pandos/phase2/scheduler.c:70-72 | a step keeps the live PIDs distinct and nonzero if and only if it does not create a process while the counter is 0 or a live PID |
| Identities.RunDistinct | pandos/phase2/scheduler.c:70-72 | PIDs are distinct all along a run if and only if no step of the run does that |
| Identities.RunPids | pandos/phase2/scheduler.c:70-72 | PIDs are distinct and below the counter after every run too short for the counter to wrap |
| Identities.StartedDistinct | pandos/phase2/main.c:25-63 | from initKernel on, PIDs are distinct for 2^32 - 3 exceptions |
| Identities.PidsClash | pandos/phase2/scheduler.c:70-72 | after that, one run gives two live processes the PID 1 and another gives a live process the PID 0 |
| Identities.NullTargetWhen | pandos/phase2/syscall.c:309-314 | TERMPROCESS terminates NULL if and only if the PID is not 0 and every live process with it is the caller or lost |
| Identities.NullTargetEffect | pandos/phase2/syscall.c:70-108 | it then frees nobody, changes no queue and no child list, counts one process less, one soft-blocked less if NULL reads as such, and loses the caller |
| Identities.NamingOneself | pandos/phase2/syscall.c:309-314 | so a process that terminates itself by its own PID is lost |
| Identities.FirstProcessNamesItself | pandos/phase2/syscall.c:309-314 | as the first process is with PID 1, upon which the kernel halts |
| Identities.FindIsUnique | pandos/phase1/ash.c:167-187 | what findPcb finds is the only live process with that PID, and never the caller |
| Subtrees.ChildrenListed | pandos/phase2/syscall.c:258-280 | at any point of any run getChildren lists exactly the children in the caller's namespace, oldest first |
| Subtrees.RunAged | pandos/phase1/pcb.c:130-137 | child lists are in the order of creation in every reachable state |
| DeviceRegisters.IndexAgrees | pandos/phase2/syscall.c:178-189 | the index and the installed bit computed from a register address are those of the unit, for every unit, if and only if registers are 16 or 17 bytes long |
| DeviceRegisters.IndexInjective | pandos/phase2/syscall.c:178-185 | a request and an interrupt meet at the same semaphore exactly when they are for the same unit |
| DeviceRegisters.IndexCovers | pandos/phase2/devices.c:9-10 | the device semaphores are exactly those of the units |
| DeviceRegisters.InterruptingDevice | pandos/phase2/interrupt.c:27-41 | the highest device whose bit is set, 0 for an empty bitmap |
| Strings.Itoa | pandos/stdlib/string.c:27-73 | the buffer holds the numeral and its NUL and is otherwise unchanged; nothing is written for a base out of range |
| Strings.NumeralReads | pandos/stdlib/string.c:27-73 | the numeral reads as the value in base 10 and as its absolute value in every other base |
| Strings.NumeralForm | pandos/stdlib/string.c:36-61 | only digits of the base after the sign, and no leading 0 but in "0" |
| Strings.NumeralTerminated | pandos/stdlib/string.c:27-80 | strlen of what itoa writes is the length of the numeral |
| Strings.NumeralInjective | pandos/stdlib/string.c:27-73 | different values have different decimal numerals |
| Strings.Reverse | pandos/stdlib/string.c:16-24 | the cells from i to j are reversed and the others kept |
| Strings.StrLen | pandos/stdlib/string.c:75-80 | the number of characters before the first NUL |
| Strings.StrCpy | pandos/stdlib/string.c:82-90 | the characters up to the first NUL are copied with it, and the cells after it kept, also within one buffer |

## Left out

- Device and timer hardware: command and status registers, LDST, LDCXT, WAIT, HALT, PANIC and the timers are only outcomes of a step; their definitions are in the umps library, which is not part of this model.
- Register length and base address come from the umps library too: they are parameters, and the number of lines and of devices on a line are 5 and 8, for the 40 devices and 8 terminal halves of report/phase2/report.md.
- Processor states, return registers, saved device status and pass-up contexts: copied data with no invariant of the kernel.
- CPU time (`p_time`, `start_time`): depends on the hardware clock.
- getProcessID: it reads one or two fields, through a NULL parent for the first process.
- printf, getBlockedProcesses, panic and assert output: terminal and debugging.
- The unused parts of list.h, hashtable.h and hash.h (splice, rotate, RCU, log2).
- Semaphore words written by programs: the model's semaphores are changed by the kernel only.
- Kernels.Kernel.SyscallHandler: in a step of the state machine PASSEREN and VERHOGEN are given words outside the device and clock semaphores, because the invariant does not survive otherwise; Miscounts says exactly when, and Kernels.Kernel.Passeren and Kernels.Kernel.Verhogen are stated for every word. A DOIO address is one of a unit's registers, as for DoIo.
- Processes.ProcessTable.ResetPcb: a PCB that still has children, or is still in a child list or a queue, is not modelled; the C code empties its links and leaves the other end pointing to it, and such lists are no longer lists.
- Processes.ProcessTable.AllocPcb: the same for a free PCB; no operation of the kernel frees one in that state.
- Strings.Itoa: does not model the least machine integer, whose absolute value overflows in the C code, which leaves the result undefined.
- Kernels.Kernel.DoIo: is stated for addresses of device registers and for register lengths with which the index is right; with others the C code indexes outside the semaphore array.
- Kernels.Kernel.InterruptHandler: the slice timer is taken to be off while nobody runs, as the scheduler sets it before it waits.
- Identities.RunPids: is for runs shorter than the counter's range; RunDistinct is for all runs.
