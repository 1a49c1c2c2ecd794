# A model of the Pintos kernel core and of a scheduling simulator

The project states and proves what the core of this Pintos kernel, and the simulator beside it, keep. It has no
dependencies; `dafny verify dfyconfig.toml` checks it.

Each part has two layers. A transition system or a set of functions over plain values says what the code does and
carries the theorems; classes and loops that change variables, arrays and links in place, as the C code does, are
proved to do exactly that.

| files | what they are about |
|---|---|
| `Donation`, `KernelTypes`, `KernelState` | threads, semaphores, locks and priority donation as one transition system (`synch.c`, `thread.c`, `timer.c`); a step is what a thread does between two scheduling points |
| `KernelPlacement`, `KernelLocks`, `KernelCounts`, `KernelInvariant` | the invariant, part by part, and that every step keeps it |
| `KernelRuns`, `KernelRotation` | whole runs from boot: conservation, wakeups, sleeping, rotation |
| `KernelTurns`, `KernelSlices` | what every step does to the running thread, the ready list and the waiters; time slices and round robin |
| `KernelDomination`, `KernelExact`, `KernelInversion` | when holders outrank waiters and when priorities are exactly the donated ones, over whole runs, and runs where they are not |
| `Kernel` | the kernel's functions, changing one machine in place |
| `Arithmetic` | 64-bit division from a 64-by-32-bit instruction (`arithmetic.c`) |
| `ListSort`, `Lists` | the natural merge sort, and the linked list it runs on (`list.c`) |
| `Bits`, `Hash` | bit tricks, and the hash table against a finite set (`hash.c`) |
| `Bitmap`, `Arenas`, `MallocInvariant`, `MallocMeaning`, `MallocSteps`, `Malloc`, `MallocRuns` | the allocator: arenas over a page pool over a bitmap, and sequences of calls (`malloc.c`, `palloc.c`, `bitmap.c`) |
| `InodeIO`, `Ownership`, `Volume`, `VolumeRuns`, `VolumeLosses`, `VolumeOutcomes`, `FileSys` | file contents through sectors, which file owns which sector, which sectors and names are lost, and when calls succeed (`inode.c`, `free-map.c`, `filesys.c`, `directory.c`) |
| `SimSteps`, `SimBursts`, `SimTrace`, `Simulator` | the CPU scheduling simulator (`scheduling.ipynb`) |
| `Ustar`, `UstarHeader` | archive headers (`ustar.c`, `stdio.c`) |
| `Tokens`, `Arguments` | tokens and the argument stack of a new process (`string.c`, `process.c`) |

How the system is read:

- Interrupts are off inside every scheduling primitive, so each is one step up to where it gives up the processor; what
  the thread does when it runs again is a later step, after any steps of others. A woken thread may therefore find the
  semaphore taken and wait again.
- Donation is enabled from the start, `thread_set_priority` is one step although it does not disable interrupts, and a
  thread that exits has no lock records.
- A comment in `thread_set_priority` says that lowering the priority of a thread that has lock records leaves it at the
  highest donated priority. The code leaves the old effective priority, which after an earlier raise can be higher:
  `PriorityCanBeStale` is a run where it is, and `PrioritiesExactIff` says exactly which runs keep priorities exact.
- A holder does not always outrank the waiters of its lock: a woken thread takes a free lock without looking at the
  waiters left behind, and with the record it made when it began to wait. `DominationStep` says exactly when this goes
  wrong, and `HoldersDominateIff` for which runs from boot it never does; `TakeoverCanBeUnfair` and
  `HolderCanBeOutranked` are runs from boot where it does. From there on the argument for stopping a donation early
  fails too: `EarlyStopExactIff` and `DonationCanStopShort`.
- Where memory may be short or a disk write may fail, an argument of the operation says so, and every theorem holds for
  all its values.
- A failed read of a directory entry ends a directory scan as if the directory ended there. So names stay unique only
  over runs whose directory reads succeed; `AddedNames` has the exact condition and `NameCreatedTwice` a run. The scan
  for a free slot can write over an entry in use in the same way; `EntryStaysIff` says exactly when an entry goes.
- Sectors can be lost: marked used, and nobody's. `StepLeaksIff` says exactly which steps do that, `RunLeaksIff` that it
  is never repaired; `FailedAddLeaks`, `OverwriteLeaks` and `CloseLeaks` are runs, one for each way.
- `malloc` computes size plus header in 32 bits. `BigEnough` says exactly for which sizes a block is as large as asked,
  and `HugeRequestGetsOnePage` is a size where it is not. A realloc to such a size can copy more than the new block
  holds; `CopyFitsIff` says exactly when, and `ReallocCopyCanOverrun` is a case. The test of `calloc` for a product that
  is too large misses some; `CallocEnoughIff` says when the block is large enough, and `CallocCanFallShort` is a case.
- A simulated task that begins no CPU burst runs up to its quantum and then asks for a burst again, so the I/O it does
  can depend on the quanta; `IoFixedIff` says exactly when it does not.
- The bursts of a simulated task are functions of the time it has run; a task never asks twice at the same time, so
  random bursts are covered.

## Model

| member | source | states |
|---|---|---|
| Donation.DonationCorrect | pintos/src/threads/synch.c:242-309 | When a thread joins the waiters of a held lock and every other waiter is outranked by the holder and its record of the lock, recursive donation leaves nobody outranked by a waiter, and gives the same priorities and records as walking the whole chain of holders without the early stop |
| Donation.EarlyStopIsExact | pintos/src/threads/synch.c:272-309 | Where no holder along a finite chain outranks the holder, or the record, it waits for, stopping at the first holder that is not raised changes nothing: the recursion equals the full walk |
| Donation.EarlyStopExactIff | pintos/src/threads/synch.c:272-309 | On any graph the recursion equals the full walk along a finite chain if and only if behind every holder that is not below the donated priority everybody, and everybody's record, has that priority already |
| Donation.DonationRestores | pintos/src/threads/synch.c:242-309 | From a state where only waiters of the lock, up to the donated priority, may outrank its holder, donation restores that no holder is outranked, on any graph, cycles included |
| Donation.DonationRaises | pintos/src/threads/synch.c:242-266 | Donation never lowers a priority, keeps every thread at least as high as its records, and leaves threads without records alone |
| Donation.DonationGives | pintos/src/threads/synch.c:242-309 | Donation raises priorities and records that are below what is donated to exactly that, changes no other, and gives nothing to a thread that holds no lock |
| Donation.DonationKeepsShape | pintos/src/threads/synch.c:242-309 | Donation changes record priorities only: which locks a thread has records of, in which order and whether it waits, stays |
| Donation.DonationProgress | pintos/src/threads/synch.c:272-309 | Each recursive call has strictly fewer threads below the donated priority |
| Donation.CallsBounded | pintos/src/threads/synch.c:272-309 | On every wait-for graph, deadlocked cycles included, the number of calls is at most one more than the number of threads below the donated priority |
| Donation.ChainExists | pintos/src/threads/synch.c:272-309 | Where waiting goes strictly down some ranking of threads, the chain the full walk follows exists and is finite |
| KernelTypes.FirstMax | pintos/src/lib/kernel/list.c:504-517 | The element list_max picks by thread priority has the greatest priority and is the earliest such |
| KernelTypes.FindRec | pintos/src/threads/synch.c:218-236 | The record found is the first of that lock, and none is missed |
| KernelTypes.MaxPriority | pintos/src/threads/synch.c:430-504 | The priority a release computes is the greatest of the base priority and the records left, and is one of them |
| KernelPlacement.ExactlyOnePlace | pintos/src/threads/thread.c:312-342 | A thread other than idle is in exactly one place, and its status says which: running, the ready list, one waiter list, or the sleep list; no list has it twice |
| KernelPlacement.SchedulePlaces | pintos/src/threads/thread.c:696-710 | Picking the next thread and switching to it keeps every thread in its one place |
| KernelPlacement.ReadiedLists | pintos/src/threads/thread.c:330-342 | Making a waiting thread ready keeps every thread in its one place |
| KernelPlacement.WakePlaces | pintos/src/threads/synch.c:147-175 | sema_up moves one thread from the waiter list to the ready list and keeps every thread in its one place |
| KernelLocks.RecordsMirrorLocks | pintos/src/threads/synch.c:347-404 | A lock has no holder exactly if its semaphore is 1; a thread has a non-waiting record of a lock exactly if it holds it, a waiting one exactly if it is inside lock_acquire for it, and the waiting one is in front |
| KernelLocks.LocksGiveHolders | pintos/src/threads/synch.c:218-266 | Every holder has a record of its lock, so the lookup in donate_priority always finds one |
| KernelInvariant.StepKeeps | pintos/src/threads/synch.c:99-504 | Every step of the kernel that its ASSERTs allow keeps thread placement, locks and records, priorities, wakeups and wakeup times consistent |
| KernelInvariant.AcquireKeeps | pintos/src/threads/synch.c:347-404 | lock_acquire, with its donation, up to holding the lock or blocking, keeps all of that |
| KernelInvariant.ReleaseKeeps | pintos/src/threads/synch.c:430-504 | lock_release, up to its end or to where it is preempted inside sema_up, keeps all of that |
| KernelInvariant.DownLoopKeeps | pintos/src/threads/synch.c:99-117 | One round of the loop of sema_down keeps all of that, whoever got in between |
| KernelInvariant.SetPriorityKeeps | pintos/src/threads/thread.c:437-461 | thread_set_priority, as one step, keeps all of that |
| KernelInvariant.TickKeeps | pintos/src/threads/thread.c:146-187 | The timer interrupt keeps all of that |
| KernelInvariant.CreateKeeps | pintos/src/threads/thread.c:223-310 | Creating a thread keeps all of that |
| KernelInvariant.ExitKeepsIff | pintos/src/threads/thread.c:379-400 | The exit of a thread keeps all of that if and only if the thread has no lock records |
| KernelRuns.Exec | pintos/src/threads/synch.c:99-504 | Every state that a run of allowed steps reaches satisfies the whole invariant |
| KernelRuns.BootInv | pintos/src/threads/thread.c:92-125 | The kernel at boot satisfies the whole invariant |
| KernelRuns.ReachablePriorities | pintos/src/threads/synch.c:242-504 | In every state reachable from boot a thread runs at no less than its base priority and each of its records, and at exactly its base priority if it has no records and is not inside lock_release |
| KernelRuns.NoLostWakeup | pintos/src/threads/synch.c:99-175 | In every state reachable from boot value plus completed downs is initial value plus ups, and while a semaphore has waiters at least as many woken threads as its value counts are on their way to it |
| KernelRuns.RunConserves | pintos/src/threads/synch.c:99-175 | Over every run value plus downs minus ups of every semaphore is constant |
| KernelRuns.SleepStarts | pintos/src/devices/timer.c:92-111 | timer_sleep(n) with n > 0 at tick T blocks the thread with wakeup tick T+n |
| KernelRuns.SleepsThroughout | pintos/src/threads/thread.c:146-187 | Over every run, until that tick the sleeper stays blocked on the sleep list |
| KernelRuns.TickWakes | pintos/src/threads/thread.c:164-181 | The handler of that tick takes the sleeper off the list and makes it ready |
| KernelRuns.WakesExactlyAt | pintos/src/devices/timer.c:186-191 | Over every run a sleeper is blocked before the handler of its wakeup tick and not after |
| KernelRotation.YieldRotates | pintos/src/threads/thread.c:402-416 | When the running thread is of the top priority, a yield moves it to the end of the ring of threads of that priority and runs the next |
| KernelRotation.YieldsRotate | pintos/src/threads/thread.c:402-416 | N yields rotate the ring N times |
| KernelRotation.StrictRotation | pintos/src/threads/thread.c:626-636 | With only yields, the i-th thread of the ring runs after exactly i schedules, and all before it are different |
| KernelTurns.StepTurn | pintos/src/threads/synch.c:99-504 | Every step: the running thread gives up the processor exactly if it has to wait, wakes or creates a thread of more priority, lowers its priority, asks to sleep, yield or exit, or has its fourth tick; then the ready thread of greatest priority that has been ready longest begins a time slice; threads made ready join the ready list at its end, the running thread, if it stays ready, behind them, and the others keep their order |
| KernelTurns.StepUnoutranked | pintos/src/threads/synch.c:147-175 | From a state where no ready thread has more priority than the running one every step but a timer tick leads to such a state |
| KernelTurns.StepWaiters | pintos/src/threads/synch.c:99-175 | An up or a release wakes exactly one waiter, if there are any: of those with the greatest priority the one that has waited longest; who has to wait joins at the end; nothing else happens to the waiters of a semaphore |
| KernelTurns.WokenOutranks | pintos/src/threads/synch.c:160-171 | Who stops waiting for a semaphore has at least the priority of everybody who goes on waiting, and more than everybody who has waited longer |
| KernelTurns.StepSemas | pintos/src/threads/synch.c:99-504 | An up or a release counts the semaphore up by one; who gets past sema_down counts it down and, for a lock, holds it; a release leaves the lock without a holder; nothing else changes semaphores and holders |
| KernelTurns.AcquireRecord | pintos/src/threads/synch.c:347-404 | lock_acquire leaves in front a record of the lock with the priority the thread has, waiting exactly if the lock is taken, and raises other threads to that priority or not at all |
| KernelTurns.StepPriority | pintos/src/threads/synch.c:242-504 | A step changes the priority of no thread but the running one, except that lock_acquire can raise threads below the running one to its priority |
| KernelTurns.StepThreads | pintos/src/threads/thread.c:223-400 | Threads come with thread_create and go with thread_exit, and only so |
| KernelTurns.StepBase | pintos/src/threads/thread.c:437-461 | The priority of its own that a thread has is the one it was created with until it sets another; a new thread has no other |
| KernelTurns.StepSleepers | pintos/src/threads/thread.c:146-187 | Who goes to sleep joins the sleep list at its end, a tick takes exactly those off whose tick has come, and the order stays |
| KernelTurns.TickWakesInOrder | pintos/src/threads/thread.c:164-186 | Exactly the sleepers whose tick has come join the ready list, in the order in which they went to sleep, and on the fourth tick of a slice, behind them, the running thread |
| KernelSlices.ReachableSlices | pintos/src/threads/thread.c:183-186 | In every reachable state the running thread has had fewer than four ticks since it was picked, and a ready thread has more priority than it only if it has had a tick |
| KernelSlices.FourthTick | pintos/src/threads/thread.c:183-186 | The fourth tick begins a new slice with a thread that nobody ready outranks, and it is the same thread exactly if it has more priority than everybody ready or due, or there is nobody |
| KernelSlices.NeverFourTicks | pintos/src/threads/thread.c:183-186 | Over every run from boot: as long as a thread runs and a ready thread has at least its priority, fewer than four ticks come |
| KernelSlices.RoundRobin | pintos/src/threads/thread.c:183-186 | While nobody sleeps and nothing but the timer interferes, the threads of greatest priority run four ticks each, in turn: the k-th of them runs after 4k ticks |
| KernelDomination.DominationStep | pintos/src/threads/synch.c:347-504 | A step keeps every holder and its record at least as high as the waiters of its lock, except that taking over a free lock keeps it if and only if no other waiter has more than the taker and than the priority the taker began to wait with |
| KernelDomination.DominatedThroughoutIff | pintos/src/threads/synch.c:347-504 | From a state where that holds, it holds before and after every step of a run if and only if all takeovers of the run are of that kind |
| KernelDomination.HoldersDominateIff | pintos/src/threads/synch.c:347-504 | Along a run from boot every holder and its record is at least as high as the waiters of its lock if and only if all takeovers of the run are of that kind |
| KernelDomination.HolderOutranksWaiters | pintos/src/threads/synch.c:347-504 | In such a run from boot a holder never has less priority than a thread waiting for its lock |
| KernelInversion.TakeoverCanBeUnfair | pintos/src/threads/synch.c:391-401 | A run from boot reaches a takeover that is not of that kind, and after it a holder's record is below a waiter |
| KernelInversion.HolderCanBeOutranked | pintos/src/threads/synch.c:347-504 | A run from boot reaches a state where the holder of a lock has less priority than a thread waiting for the lock |
| KernelInversion.DonationCanStopShort | pintos/src/threads/synch.c:272-309 | A run from boot reaches a lock_acquire whose donation is not the full walk and leaves the last holder of the chain below the donor |
| KernelExact.DonationExact | pintos/src/threads/synch.c:242-309 | Donation keeps a thread's priority the greatest of its base priority and its records |
| KernelExact.RebaseExactIff | pintos/src/threads/thread.c:437-461 | After thread_set_priority the priority is the greatest of the new base priority and the records if and only if the old one was not above the new, there are no records, or a record has the old one |
| KernelExact.StepExactIff | pintos/src/threads/synch.c:99-504 | Where every priority outside lock_release is the greatest of base priority and records, a step keeps it so if and only if it is not a thread_set_priority that keeps an old priority no record has |
| KernelExact.PrioritiesExactIff | pintos/src/threads/synch.c:99-504 | Along a run from boot every priority outside lock_release is exactly the greatest of base priority and records if and only if no thread_set_priority of the run keeps an old priority that no record has |
| KernelExact.PriorityCanBeStale | pintos/src/threads/thread.c:437-461 | A run from boot where main takes a lock at 31, asks for 40 and then for 5: it goes on at 40 with base priority 5 and one record of 31 |
| KernelExact.ExitCanBreak | pintos/src/threads/thread.c:379-400 | A run from boot where main takes a lock and then exits: the invariant is broken |
| Kernel.Machine.constructor | pintos/src/threads/thread.c:92-125 | At boot the main thread runs, the idle thread is blocked, all locks are free |
| Kernel.Machine.ListMax | pintos/src/lib/kernel/list.c:504-517 | The scan of list_max finds the earliest element of greatest priority |
| Kernel.Machine.FindLockPriority | pintos/src/threads/synch.c:218-236 | The scan finds the first record of the lock |
| Kernel.Machine.HighestPriority | pintos/src/threads/synch.c:430-504 | The scan finds the greatest of base priority and records |
| Kernel.Machine.Schedule | pintos/src/threads/thread.c:696-710 | Does what the transition system calls scheduling: the earliest ready thread of greatest priority, or idle, runs next |
| Kernel.Machine.ThreadYield | pintos/src/threads/thread.c:402-416 | Does the yield of the transition system |
| Kernel.Machine.ThreadBlock | pintos/src/threads/thread.c:312-322 | Does the block of the transition system |
| Kernel.Machine.SemaDown | pintos/src/threads/synch.c:99-117 | Does one round of the waiting loop and, for a lock, the end of lock_acquire |
| Kernel.Machine.SemaWake | pintos/src/threads/synch.c:147-175 | Wakes exactly one waiter, if there are any: of those with the greatest priority the one that has waited longest; counts up; and says exactly whether a waiter outranks the running thread |
| Kernel.Machine.SemaUp | pintos/src/threads/synch.c:147-175 | Does sema_up in thread context: another thread runs afterwards exactly if a waiter had more priority than the running one, and if nobody ready outranked the running thread before, nobody does after |
| Kernel.Machine.DonatePriority | pintos/src/threads/synch.c:242-266 | Raises holder and record, and says whether the holder was raised |
| Kernel.Machine.DonateRecursively | pintos/src/threads/synch.c:272-309 | Does the recursive donation of the transition system, and ends on every graph |
| Kernel.Machine.LockAcquire | pintos/src/threads/synch.c:347-404 | Does lock_acquire up to holding the lock or blocking |
| Kernel.Machine.LockRelease | pintos/src/threads/synch.c:430-504 | Does lock_release up to its end or its preemption inside sema_up |
| Kernel.Machine.FinishRelease | pintos/src/threads/synch.c:430-504 | Does the part of lock_release after sema_up |
| Kernel.Machine.ThreadSetPriority | pintos/src/threads/thread.c:437-461 | Does thread_set_priority as one step |
| Kernel.Machine.ThreadCreate | pintos/src/threads/thread.c:223-310 | Does thread_create, with its yield to a thread of higher priority |
| Kernel.Machine.ThreadExit | pintos/src/threads/thread.c:379-400 | Removes the thread and schedules |
| Kernel.Machine.TimerSleep | pintos/src/devices/timer.c:92-111 | Does timer_sleep and thread_sleep |
| Kernel.Machine.TimerInterrupt | pintos/src/devices/timer.c:186-191 | Does timer_interrupt with thread_tick |
| Kernel.Machine.WakeSleepers | pintos/src/threads/thread.c:164-181 | Wakes exactly the sleepers whose tick has come, in list order, and keeps the others in order |
| Kernel.Machine.EndTick | pintos/src/threads/thread.c:183-186 | Counts the first three ticks of a slice; on the fourth somebody begins a new one whom nobody ready outranks, and it is another thread if a ready one has at least the same priority |
| Kernel.Machine.Resume | pintos/src/threads/synch.c:99-117 | A thread that runs again goes on where it gave up the processor |
| Kernel.Machine.Perform | pintos/src/threads/synch.c:99-504 | Any allowed step of the machine is that of the transition system and leaves the whole invariant |
| Kernel.WakeLoop | pintos/src/threads/thread.c:164-181 | The loop that removes while it iterates splits the sleep list into those due and those kept, both in order |
| Arithmetic.Divl | pintos/src/lib/arithmetic.c:25-37 | The instruction as its comment describes it: floor division, demanded only where the quotient fits 32 bits |
| Arithmetic.NlzStep | pintos/src/lib/arithmetic.c:39-73 | One step shifts by its amount or not and leaves the word above the next limit |
| Arithmetic.Nlz | pintos/src/lib/arithmetic.c:39-73 | The word shifted by the result has its top bit set |
| Arithmetic.NlzUnique | pintos/src/lib/arithmetic.c:39-73 | There is only one such shift |
| Arithmetic.UdivByWord | pintos/src/lib/arithmetic.c:78-112 | A divisor below 2^32: two word divisions, neither of which overflows, give the floor quotient |
| Arithmetic.Estimate | pintos/src/lib/arithmetic.c:115-123 | A divisor from 2^32 on: one word division of the normalized operands, which does not overflow, gives an estimate |
| Arithmetic.EstimateCorrect | pintos/src/lib/arithmetic.c:115-124 | The estimate is the quotient or one more |
| Arithmetic.Correction | pintos/src/lib/arithmetic.c:124-124 | The test that corrects the estimate is right, with its unsigned wrap-around |
| Arithmetic.Udiv64 | pintos/src/lib/arithmetic.c:76-127 | The result is the floor quotient, for every dividend and nonzero divisor |
| Arithmetic.Umod64 | pintos/src/lib/arithmetic.c:129-135 | The result is the remainder modulo 2^32, exact if and only if it fits, and for every divisor up to 2^32 |
| Arithmetic.Sdiv64 | pintos/src/lib/arithmetic.c:137-146 | The result is the quotient truncated toward zero, except for the least number divided by -1, where it wraps to the least number |
| Arithmetic.Smod64 | pintos/src/lib/arithmetic.c:148-154 | The result is the truncated remainder wrapped to 32 bits, exact if and only if it fits, and for every divisor of magnitude up to 2^31 |
| Arithmetic.TruncRemainder | pintos/src/lib/arithmetic.c:148-154 | The truncated remainder is smaller in magnitude than the divisor and has the sign of the dividend |
| ListSort.RunIsLongest | pintos/src/lib/kernel/list.c:350-373 | find_end_of_run ends the longest sorted start of the range |
| ListSort.MergeSorted | pintos/src/lib/kernel/list.c:374-399 | Merging sorted ranges gives a sorted range, for any strict weak order |
| ListSort.MergeKeeps | pintos/src/lib/kernel/list.c:374-399 | Merging keeps the elements |
| ListSort.MergeStable | pintos/src/lib/kernel/list.c:374-399 | Merging keeps equivalent elements in order, those of the left range first |
| ListSort.OutputsHalve | pintos/src/lib/kernel/list.c:421-451 | A pass puts out half as many runs as there were, rounding up |
| ListSort.PassRuns | pintos/src/lib/kernel/list.c:421-451 | After a pass there are at most as many natural runs as it put out |
| ListSort.PassStablePermutation | pintos/src/lib/kernel/list.c:421-451 | A pass is a stable permutation |
| ListSort.SortCorrect | pintos/src/lib/kernel/list.c:413-454 | list_sort leaves a sorted stable permutation, for any strict weak order |
| ListSort.PassesLogarithmic | pintos/src/lib/kernel/list.c:413-454 | A list of at most 2 * 2^n runs takes at most n + 1 passes |
| Lists.List.constructor | pintos/src/lib/kernel/list.c:60-68 | A new list is head and tail linked to each other |
| Lists.Insert | pintos/src/lib/kernel/list.c:165-178 | The element is in the chain in front of the given one, and all links agree in both directions |
| Lists.Remove | pintos/src/lib/kernel/list.c:222-255 | The element is out of the chain, its successor is returned, and its own links still name its old neighbours |
| Lists.Splice | pintos/src/lib/kernel/list.c:180-204 | The range is out of its list and in front of the given element, which may be anywhere else in that list, its tail included, or in another list; all links of both lists agree in both directions |
| Lists.FindEndOfRun | pintos/src/lib/kernel/list.c:350-373 | Returns the element behind the longest sorted start of the range |
| Lists.InplaceMerge | pintos/src/lib/kernel/list.c:374-399 | The chain holds the stable merge of the two ranges in their place |
| Lists.MergePair | pintos/src/lib/kernel/list.c:431-447 | One iteration merges the next two runs, or finds the last one |
| Lists.MergeRuns | pintos/src/lib/kernel/list.c:430-448 | The inner loop does one pass and counts the runs it puts out |
| Lists.SortList | pintos/src/lib/kernel/list.c:413-454 | The loop ends, and the chain holds a sorted stable permutation of what it held, links consistent |
| Lists.Max | pintos/src/lib/kernel/list.c:500-517 | Returns the earliest of the greatest elements, or the tail of an empty list |
| Bits.PowersOf2 | pintos/src/lib/kernel/hash.c:328-340 | is_power_of_2 holds exactly of the powers of two |
| Bits.TurnOffKeepsTop | pintos/src/lib/kernel/hash.c:328-333 | Turning off the lowest bit of a number that is not a power of two makes it smaller and keeps its top bit |
| Bits.AndMask | pintos/src/lib/kernel/hash.c:304-310 | Masking with a power of two less one is taking the remainder |
| Hash.BucketIsRemainder | pintos/src/lib/kernel/hash.c:304-310 | The bucket of an element is its hash modulo the number of buckets |
| Hash.NewBucketCnt | pintos/src/lib/kernel/hash.c:364-372 | The new number of buckets is the greatest power of two that is at most half the elements, and at least 4 |
| Hash.Redistribute | pintos/src/lib/kernel/hash.c:394-410 | The loops put every element, once, into its own one of the new buckets |
| Hash.FoundIsEqual | pintos/src/lib/kernel/hash.c:312-326 | At most one element of the table is equal to a given one |
| Hash.HashInit | pintos/src/lib/kernel/hash.c:24-74 | Fails exactly if there is no room for the buckets; otherwise the new table is empty and has 4 buckets |
| Hash.Table.FindElem | pintos/src/lib/kernel/hash.c:312-326 | Finds the element equal to the given one in its bucket exactly if the table has one |
| Hash.Table.Rehash | pintos/src/lib/kernel/hash.c:347-413 | Keeps the elements, their number and the bucket rule; the number of buckets is the ideal one or, if memory is short, what it was |
| Hash.Table.Insert | pintos/src/lib/kernel/hash.c:94-110 | Returns the equal element if there is one, and adds the new one exactly if there is none |
| Hash.Table.Replace | pintos/src/lib/kernel/hash.c:112-127 | Returns the equal element if there is one, and puts the new one in its place |
| Hash.Table.Find | pintos/src/lib/kernel/hash.c:129-135 | Returns the equal element exactly if there is one |
| Hash.Table.Delete | pintos/src/lib/kernel/hash.c:137-154 | Returns the equal element if there is one, and removes it |
| Hash.Perform | pintos/src/lib/kernel/hash.c:94-154 | Every sequence of operations returns what it returns on a finite set keyed by equality under less, and leaves that set, whichever allocations succeed |
| Bits.MaskTest | pintos/src/lib/kernel/bitmap.c:196-203 | Testing a word against the mask of a bit is testing the bit |
| Bitmap.OneFlag | pintos/src/lib/kernel/bitmap.c:33-47 | Changing one bit of one word changes one flag of the bitmap |
| Bitmap.BitmapCreate | pintos/src/lib/kernel/bitmap.c:78-94 | Fails exactly if there is no room for the bitmap, or none for its bits and it has some; otherwise all flags are off |
| Bitmap.Map.Test | pintos/src/lib/kernel/bitmap.c:196-203 | Returns the flag |
| Bitmap.Map.Mark | pintos/src/lib/kernel/bitmap.c:155-166 | Sets that flag and no other |
| Bitmap.Map.Reset | pintos/src/lib/kernel/bitmap.c:168-179 | Clears that flag and no other |
| Bitmap.Map.Flip | pintos/src/lib/kernel/bitmap.c:181-194 | Flips that flag and no other |
| Bitmap.Map.SetMultiple | pintos/src/lib/kernel/bitmap.c:216-228 | Sets exactly the flags of the range |
| Bitmap.Map.Contains | pintos/src/lib/kernel/bitmap.c:248-263 | Says whether a flag of the range has the value |
| Bitmap.Map.Scan | pintos/src/lib/kernel/bitmap.c:291-310 | Returns the first group at or after the start exactly if there is one |
| Bitmap.Map.ScanAndFlip | pintos/src/lib/kernel/bitmap.c:312-326 | Returns that group and flips exactly its flags |
| Bitmap.FillBack | pintos/src/lib/kernel/bitmap.c:216-228 | Taking a group and giving it back changes nothing |
| Arenas.BlocksDisjoint | pintos/src/threads/malloc.c:284-294 | Different blocks, of one arena or of two, never overlap |
| Arenas.PageTaken | pintos/src/threads/palloc.c:91-122 | Pages that were free become the pages of a new arena and of nothing else |
| Arenas.PageGiven | pintos/src/threads/palloc.c:138-163 | All pages of an arena are in use, and giving them back frees exactly them |
| MallocInvariant.StepCarve | pintos/src/threads/malloc.c:124-146 | Cutting up a new arena keeps lists, headers, blocks and pages in agreement |
| MallocInvariant.StepPop | pintos/src/threads/malloc.c:148-153 | Handing out a block keeps them in agreement |
| MallocInvariant.StepBig | pintos/src/threads/malloc.c:105-120 | Handing out a big block keeps them in agreement |
| MallocInvariant.StepPush | pintos/src/threads/malloc.c:236-242 | Taking back a block keeps them in agreement |
| MallocInvariant.StepDismantle | pintos/src/threads/malloc.c:241-253 | Taking an arena apart keeps them in agreement |
| MallocInvariant.StepBigFree | pintos/src/threads/malloc.c:257-262 | Taking back a big block keeps them in agreement |
| MallocMeaning.LiveDisjoint | pintos/src/threads/malloc.c:87-154 | Live blocks overlap neither each other nor free blocks |
| MallocMeaning.FreeCountIsListed | pintos/src/threads/malloc.c:49-55 | The free count of an arena is the number of its blocks on the free list |
| MallocMeaning.AllFreed | pintos/src/threads/malloc.c:216-264 | When every block has been freed there is no arena, and the page bitmap marks exactly the pages of others |
| MallocMeaning.LiveUntouched | pintos/src/threads/malloc.c:49-61 | No byte of a live block is a byte of a header or of a free block's links |
| MallocMeaning.BigEnough | pintos/src/threads/malloc.c:105-113 | A big block is as large as asked if and only if size plus header does not exceed 2^32 |
| MallocSteps.ReleaseKeeps | pintos/src/threads/malloc.c:216-264 | free keeps the invariant, ends that one block and leaves the capacity of the others |
| Malloc.MallocInit | pintos/src/threads/malloc.c:70-85 | There are seven descriptors, of 16 to 1024 bytes, with as many blocks as fit behind a header |
| Malloc.AllocKeeps | pintos/src/threads/malloc.c:87-154 | malloc keeps the invariant; it returns null exactly for size 0 or when the smallest descriptor that serves the size has no free block and there is no page, or there are not enough pages in a row; otherwise it returns a new block of the right capacity |
| Malloc.AskedFor | pintos/src/threads/malloc.c:87-154 | A block returned is at least as large as asked, for every size that with a header does not exceed 2^32 |
| Malloc.HugeRequestGetsOnePage | pintos/src/threads/malloc.c:105-113 | A request for 2^32 - 1 bytes, while a page is free, is answered with a block of 4084 bytes |
| Malloc.CopyFitsIff | pintos/src/threads/malloc.c:204-211 | The bytes realloc copies fit the block it got if and only if the new size with a header does not exceed 2^32 or the old block is no larger than a page less a header |
| Malloc.CallocEnoughIff | pintos/src/threads/malloc.c:157-175 | A block that calloc returns holds a times b bytes if and only if these with a header do not exceed 2^32 |
| MallocRuns.CallocCanFallShort | pintos/src/threads/malloc.c:162-166 | With 33 free pages in a row calloc(65537, 65537) passes its test for overflow and gives a block of 135156 bytes |
| Malloc.FreeKeeps | pintos/src/threads/malloc.c:216-264 | Wiping the freed block and the pages given back changes no byte of a block that is left |
| Malloc.Allocator.GetPages | pintos/src/threads/palloc.c:91-122 | Takes the first group of free pages that is large enough |
| Malloc.Allocator.FreePages | pintos/src/threads/palloc.c:138-163 | Gives back exactly those pages, which must be in use |
| Malloc.Allocator.OthersGet | pintos/src/threads/palloc.c:91-122 | Another user of the pool takes pages between calls: the allocator's invariant stays, with those pages as the other's |
| Malloc.Allocator.OthersFree | pintos/src/threads/palloc.c:138-163 | Another user gives pages of its own back: the invariant stays, and no byte of a live block changes |
| Malloc.Allocator.SmallBlock | pintos/src/threads/malloc.c:122-153 | Does malloc for a size that a descriptor serves, with the loop that cuts up an arena |
| Malloc.Allocator.Malloc | pintos/src/threads/malloc.c:87-154 | Does malloc, keeps the invariant, and keeps the bytes of all live blocks |
| Malloc.Allocator.Free | pintos/src/threads/malloc.c:216-264 | Does free, keeps the invariant, and keeps the bytes of all blocks that are left |
| Malloc.Allocator.Calloc | pintos/src/threads/malloc.c:157-175 | Null exactly if the product in 32 bits is less than a factor or malloc finds no room for it; otherwise a new block for the product, cleared, and all other blocks keep their bytes |
| Malloc.Allocator.Realloc | pintos/src/threads/malloc.c:188-214 | The new block is large enough, unless its size with a header exceeds 2^32, and starts with the bytes of the old one as far as they fit; all others keep theirs; on failure nothing changes; size 0 frees |
| Malloc.Allocator.Dismantle | pintos/src/threads/malloc.c:241-253 | The loop takes every block of the arena off the free list, and the page is given back |
| MallocRuns.Perform | pintos/src/threads/malloc.c:87-264 | Any call of malloc, calloc, free or realloc, and of another user of the page pool, keeps the invariant; afterwards the live blocks are those it did not free or replace, with their bytes and sizes, and the new one, which is as large as asked unless its size with a header exceeds 2^32 |
| MallocRuns.BlockLasts | pintos/src/threads/malloc.c:87-264 | Over every sequence of such calls a block keeps all its bytes and its size until a call frees or replaces it |
| MallocRuns.ReallocCopyCanOverrun | pintos/src/threads/malloc.c:194-214 | With three free pages in a row, malloc of 5000 bytes gives a block of 8180, the malloc of 2^32 - 1 bytes that realloc then makes gives one of 4084, and the bytes to copy do not fit |
| InodeIO.ChunkStep | pintos/src/filesys/inode.c:207-246 | A round of the loop transfers its chunk, or stops for want of bytes or of a bounce buffer, and nothing is lost count of |
| InodeIO.TransferredIs | pintos/src/filesys/inode.c:200-250 | With a bounce buffer a call transfers all that is asked up to the end of the file; without one all whole sectors of that, and nothing if it begins inside a sector |
| InodeIO.Disk.ReadAt | pintos/src/filesys/inode.c:200-250 | The buffer gets exactly that slice of the file's bytes, the count is exact with and without a bounce buffer, and the rest of the buffer stays |
| InodeIO.Disk.WriteAt | pintos/src/filesys/inode.c:257-318 | The disk changes in exactly the bytes written and in no other byte of any sector, and the count is exact with and without a bounce buffer |
| InodeIO.Disk.WriteZeros | pintos/src/filesys/inode.c:93-100 | The loop clears exactly the data sectors |
| InodeIO.FlatWritten | pintos/src/filesys/inode.c:257-318 | In terms of the file alone a write replaces a slice of its bytes |
| VolumeRuns.WriteTouchesNoOther | pintos/src/filesys/inode.c:257-318 | In the file system a write through an open file changes no byte of any other linked or open file, and no inode |
| Ownership.OwnAdd | pintos/src/filesys/inode.c:72-106 | A file made on free sectors shares none with any other, and its sectors are marked used |
| Ownership.OwnDrop | pintos/src/filesys/inode.c:170-183 | The sectors of a file are all marked used, as free_map_release asserts, and giving them back frees exactly them and leaves all other files theirs |
| Volume.OpenedKeeps | pintos/src/filesys/inode.c:111-142 | inode_open keeps the file system's invariant |
| Volume.ClosedKeeps | pintos/src/filesys/inode.c:163-186 | inode_close keeps it |
| Volume.MarkedKeeps | pintos/src/filesys/directory.c:204-211 | Erasing the entry and marking the inode keeps it |
| Volume.FindName | pintos/src/filesys/directory.c:91-112 | Finds the first entry in use with the name among those it can read, and misses none of them |
| Volume.AddedNames | pintos/src/filesys/directory.c:141-179 | After dir_add names are unique if and only if no entry that its lookup could not read, other than the one overwritten, has the name |
| VolumeRuns.CreateKeeps | pintos/src/filesys/filesys.c:45-59 | filesys_create keeps the invariant, whichever of its steps fails |
| VolumeRuns.RemoveKeeps | pintos/src/filesys/filesys.c:83-91 | filesys_remove keeps the invariant, whichever of its steps fails |
| VolumeRuns.OpenFileKeeps | pintos/src/filesys/filesys.c:66-77 | filesys_open keeps the invariant, whichever of its steps fails |
| VolumeRuns.FormattedInv | pintos/src/filesys/filesys.c:94-103 | A formatted disk satisfies the invariant |
| VolumeRuns.Exec | pintos/src/filesys/filesys.c:45-91 | Every run of create, open, remove and close keeps the invariant |
| VolumeRuns.NoSharing | pintos/src/filesys/inode.c:72-195 | No two linked or open files share a sector, and all their sectors are marked used |
| VolumeRuns.CreatedIsFound | pintos/src/filesys/filesys.c:45-59 | A file that was created is in the directory under its name, with the size asked for and an inode that no file had |
| VolumeOutcomes.CreateSucceedsIff | pintos/src/filesys/filesys.c:45-59 | filesys_create succeeds if and only if the directory opens, there is memory, the free map can be written, there is a free sector and beside it room for the data, the name has 1 to 14 characters, no entry that is read has it, the scan for a slot ends inside the directory and the entry can be written; otherwise directory, files and open inodes are as they were |
| VolumeOutcomes.CreatedIsZero | pintos/src/filesys/inode.c:93-100 | A file just created reads as zeros from end to end, and every other file as before |
| VolumeOutcomes.OpenSucceedsIff | pintos/src/filesys/filesys.c:66-77 | filesys_open succeeds if and only if the directory opens, an entry that is read has the name, its inode is open already or there is memory for it, and there is memory for the file; then the inode has one more opener, and otherwise nothing has changed |
| VolumeOutcomes.RemoveSucceedsIff | pintos/src/filesys/filesys.c:83-91 | filesys_remove succeeds if and only if the directory opens, an entry that is read has the name, its inode is open already or there is memory for it, and the entry can be erased; then the name is gone and an open file is marked and keeps its sectors, and otherwise nothing has changed |
| VolumeRuns.OpenedIsNamed | pintos/src/filesys/filesys.c:66-77 | The file opened is the one of that name |
| VolumeRuns.RemoveFrees | pintos/src/filesys/directory.c:184-216 | Removing takes the name away, frees exactly the file's sectors at once if nobody has it open, and otherwise marks it and frees nothing |
| VolumeRuns.CloseFrees | pintos/src/filesys/inode.c:163-186 | Closing frees exactly the file's sectors if the file was removed and this is the last close, and nothing otherwise |
| VolumeRuns.StaysOpen | pintos/src/filesys/inode.c:163-195 | Over every run up to its last close, whoever else opens, closes or removes it, an open file keeps its inode, its sectors and its mark, and its count is what the openings and closings make it |
| VolumeRuns.NextCloseFrees | pintos/src/filesys/inode.c:163-186 | The close after such a run gives the sectors back if and only if the file is marked and the openings and closings so far leave one opener |
| VolumeRuns.ReleasedAtLastClose | pintos/src/filesys/inode.c:163-195 | A removed file that n openers have keeps all its sectors over every run with fewer than n closes of it, nobody opens it again, and exactly the n-th close gives them back |
| VolumeLosses.StepLoses | pintos/src/filesys/filesys.c:45-91 | After create, open, remove or close a sector is marked used without belonging to any linked or open file exactly if it was before or the step loses it: it was data of a new file whose entry could not be added, or belonged to a file that nobody has open and whose entry was written over, or to a file whose last opener closes it while no entry leads to it and it was not removed |
| VolumeLosses.StepLeaksIff | pintos/src/filesys/filesys.c:45-91 | After a step every used sector belongs to a file if and only if this was so before and none of those three cases has happened |
| VolumeLosses.RunLeaksIff | pintos/src/filesys/filesys.c:45-91 | After any run every used sector belongs to a file if and only if this was so at first and no step of the run was one of those cases: what is lost stays lost |
| VolumeLosses.FormattedLeaksIff | pintos/src/filesys/filesys.c:94-103 | From a formatted disk every used sector belongs to a file at the end of a run if and only if no step of it was one of those cases |
| VolumeLosses.FailedAddLeaks | pintos/src/filesys/filesys.c:50-55 | A run from a formatted disk: a file of one byte gets no entry, its inode's sector is given back and its data sector is lost |
| VolumeLosses.OverwriteLeaks | pintos/src/filesys/directory.c:160-176 | A run from a formatted disk: the scan for a free slot cannot read the entry of a file that nobody has open, writes a new one over it, and the first file's sectors are lost |
| VolumeLosses.CloseLeaks | pintos/src/filesys/inode.c:163-186 | A run from a formatted disk: the same with the first file open, whose sectors are lost when it is closed |
| VolumeLosses.EntryStaysIff | pintos/src/filesys/directory.c:141-216 | An entry in use survives a step unchanged if and only if the step neither removes its name nor writes a new entry over it, which happens only where the scan for a free slot cannot read it |
| VolumeLosses.NameStaysIff | pintos/src/filesys/directory.c:141-216 | Over every run an entry is there throughout if and only if no step does either; and then its file is there at the end, with the same inode |
| VolumeRuns.NamesStayUnique | pintos/src/filesys/directory.c:141-179 | Over every run whose directory reads all succeed names stay unique |
| VolumeRuns.NameCreatedTwice | pintos/src/filesys/directory.c:101-112 | From a formatted disk with two free sectors, two creations of one name both succeed and leave it twice if the second cannot read the directory |
| FileSys.FileSystem.FreeMapAllocate | pintos/src/filesys/free-map.c:27-41 | Takes the first group of free sectors, and takes it back if the map cannot be written |
| FileSys.FileSystem.FreeMapRelease | pintos/src/filesys/free-map.c:44-50 | Gives back exactly those sectors, which must be in use |
| FileSys.FileSystem.InodeCreate | pintos/src/filesys/inode.c:72-106 | Takes data sectors and writes the inode, or changes nothing |
| FileSys.FileSystem.InodeOpen | pintos/src/filesys/inode.c:111-142 | Succeeds exactly if the inode is open already or there is memory for it, and then there is one more opener, or the first |
| FileSys.FileSystem.InodeClose | pintos/src/filesys/inode.c:163-186 | One opener less, and after the last of a removed file its sectors are given back |
| FileSys.FileSystem.Lookup | pintos/src/filesys/directory.c:91-112 | The scan finds the first entry with the name |
| FileSys.FileSystem.DirAdd | pintos/src/filesys/directory.c:141-179 | Writes the entry into the first free slot, or fails |
| FileSys.FileSystem.FilesysCreate | pintos/src/filesys/filesys.c:45-59 | Does filesys_create with its rollback, keeps the invariant, and succeeds exactly under the conditions of CreateSucceedsIff |
| FileSys.FileSystem.FilesysOpen | pintos/src/filesys/filesys.c:66-77 | Does filesys_open, keeps the invariant, and succeeds exactly if the name is found, its inode is open already or there is memory for it, and there is memory for the file |
| FileSys.FileSystem.FilesysRemove | pintos/src/filesys/filesys.c:83-91 | Does filesys_remove with dir_remove, keeps the invariant, and succeeds exactly if the name is found, its inode is open already or there is memory for it, and the entry can be erased |
| SimSteps.RunThread | schedlab/scheduling.ipynb:137-175 | A slice is the least of the quantum, if positive, the CPU burst left or begun, if positive, and what remains; what is left of the burst afterwards is the rest of it; the thread asks for I/O, for as long as its task says at that point, exactly if the slice ends a burst; and it is done exactly if nothing remains |
| SimBursts.SliceIo | schedlab/scheduling.ipynb:137-175 | Over a slice of a task that settles the I/O to come falls by exactly what the slice asks for |
| SimBursts.IoFixedIff | schedlab/scheduling.ipynb:137-175 | The I/O that a task waits for up to its end is the same for all sequences of quanta if and only if, running from burst to burst, it comes to its end or to a point from which on no burst ends with I/O |
| SimBursts.PositiveSettles | schedlab/scheduling.ipynb:137-175 | A task all of whose CPU bursts are positive is such a task |
| SimTrace.BackgroundIff | schedlab/scheduling.ipynb:1066-1069 | With two levels a ready thread is in the background if and only if the last of its arrival, wakeups and slices is a slice that did not end a CPU burst; with one level none is |
| SimTrace.EnteredTracks | schedlab/scheduling.ipynb:235-242 | An arrival keeps threads and queues as the log says: every thread as far in its burst, on the right level, and both queues in the order in which their threads last became ready |
| SimTrace.WokenTracks | schedlab/scheduling.ipynb:244-250 | So does a wakeup |
| SimTrace.DispatchedTracks | schedlab/scheduling.ipynb:356-358 | So does running a thread |
| SimTrace.RequeuedTracks | schedlab/scheduling.ipynb:1066-1069 | So does putting it back on the queue of its level |
| SimTrace.IoStartedTracks | schedlab/scheduling.ipynb:227-233 | So does an I/O wait |
| SimSteps.EnteredKeeps | schedlab/scheduling.ipynb:235-242 | An arrival keeps the books |
| SimSteps.WokenKeeps | schedlab/scheduling.ipynb:244-250 | A wakeup keeps the books |
| SimSteps.DispatchedKeeps | schedlab/scheduling.ipynb:356-358 | Taking a thread off its queue and running it keeps the books |
| SimSteps.IoStartedKeeps | schedlab/scheduling.ipynb:227-233 | Starting an I/O wait keeps the books |
| SimSteps.IdledKeeps | schedlab/scheduling.ipynb:254-266 | Idling keeps the books |
| Simulator.Machine.constructor | schedlab/scheduling.ipynb:202-212 | The machine starts at time 0 with the tasks that have arrived, and with its books in order |
| Simulator.Machine.Arrivals | schedlab/scheduling.ipynb:235-250 | Takes in everything that is due, leaves nothing behind, and keeps the books |
| Simulator.Machine.NextStart | schedlab/scheduling.ipynb:217-225 | Returns the earliest arrival or wakeup to come, or none exactly if there is none |
| Simulator.Machine.Pick | schedlab/scheduling.ipynb:323-326 | Takes the oldest thread; or the one with least left to run and of these the newest; or the oldest interactive one before the oldest in the background |
| Simulator.Machine.Shortest | schedlab/scheduling.ipynb:799-809 | The reduction finds the thread with least left to run, the newest of these |
| Simulator.Machine.Dispatch | schedlab/scheduling.ipynb:356-358 | The thread leaves its queue, waits up to now, and runs for its slice while the machine takes in what is due |
| Simulator.Machine.RunNext | schedlab/scheduling.ipynb:352-362 | One round with a thread to run keeps the books and leaves less to do |
| Simulator.Machine.IdleUntil | schedlab/scheduling.ipynb:254-266 | One round without a thread to run keeps the books and takes something in |
| Simulator.Scheduler | schedlab/scheduling.ipynb:347-364 | For every workload and every quantum the FIFO, shortest-remaining-time and two-level schedulers end; every task has got its CPU time; from arrival to finish is waiting plus CPU plus I/O time; the clock is total idling plus total demand; the log has the arrivals in order; in every state in which something is decided threads and queues are as the log says; every slice in the log is of the thread the policy chooses among those ready at that time, and every idling is with nobody ready and exactly until the next arrival or wakeup; and every task whose I/O does not depend on the quanta has waited for exactly what its bursts ask for |
| Simulator.DecidedByLog | schedlab/scheduling.ipynb:323-326 | By log and tasks alone: round robin serves the thread that has been ready longest; shortest remaining time first the one with least to run and of these the last that became ready; two levels the longest ready of the first level and, if that is empty, of the second; and the slice is the least of the quantum of the level, the burst and what remains |
| Simulator.ResponseIsFinishLessArrival | schedlab/scheduling.ipynb:1236-1264 | For a completed run the log alone gives, for every task, finish less arrival, which is what the thread's own totals give |
| Simulator.ResponseTimes | schedlab/scheduling.ipynb:1236-1264 | One number for each task that the log says arrived, in the order of first arrival, and for no other: what the log says it ran, waited and spent on I/O |
| Simulator.Trial | schedlab/scheduling.ipynb:1312-1318 | For a run of a scheduler the list has one number for each task, in order of arrival: its finish less its arrival |
| Ustar.StripIdempotent | pintos/src/lib/ustar.c:65-73 | Stripping a stripped name changes nothing, and a stripped name is not empty |
| Ustar.StripIsSocial | pintos/src/lib/ustar.c:65-73 | A stripped name starts with none of the prefixes and is not ".." |
| Ustar.StripDropsPrefixes | pintos/src/lib/ustar.c:65-73 | What is taken away is made of the prefixes "/", "./" and "../" only, what is left starts with none of them, and becomes "." if it is empty or ".." |
| Ustar.StripPrefixes | pintos/src/lib/ustar.c:65-73 | The loop ends and returns the stripped name |
| Ustar.FormatOctal | pintos/src/lib/stdio.c:469-547 | The digit, precision, padding and output loops put out the zero-padded octal digits |
| Ustar.OctalValue | pintos/src/lib/stdio.c:496-508 | The digits put out have the number's value, and fill a field of w exactly if the number is below 8^w |
| Ustar.OctalFields | pintos/src/lib/ustar.c:129-162 | A field is accepted with value v if and only if it begins with at least one octal digit, its leading digits have value v, at most 2^32 - 1, and a space or null byte ends them |
| Ustar.ParseOctal | pintos/src/lib/ustar.c:129-162 | The loop accepts exactly those fields, with that value |
| Ustar.OctalRoundTrip | pintos/src/lib/ustar.c:129-160 | What the octal conversion writes parse_octal_field reads |
| UstarHeader.CalculateChksum | pintos/src/lib/ustar.c:35-54 | The sum of all bytes with the checksum field as spaces |
| UstarHeader.ChksumIs | pintos/src/lib/ustar.c:35-54 | That sum is the sum of the bytes in front of the field and behind it and of eight spaces |
| UstarHeader.MakeHeader | pintos/src/lib/ustar.c:82-119 | Fails exactly if the stripped name is longer than 99 bytes, and otherwise fills all 512 bytes of the header, with a negative size put out as the unsigned number of the same bits |
| UstarHeader.MadeFields | pintos/src/lib/ustar.c:99-117 | The fields of a header read as the name, the type, mode 0644 for a file and 0755 for a directory, user and group 0, named root, the size and the modification time 1136102400 |
| UstarHeader.ParsedFile | pintos/src/lib/ustar.c:178-227 | A header taken as a file's has a non-empty name of at most 99 bytes that starts with none of the prefixes and is not "..", a size from 0 to the greatest int, and a checksum field with the right sum |
| UstarHeader.AcceptedIff | pintos/src/lib/ustar.c:178-227 | A header is taken as that of a file if and only if it has the magic, the version, the right checksum, names that end inside their fields, and is of a directory or of a regular file with a size that is an int; the result is its stripped name, type and size |
| UstarHeader.ParseHeader | pintos/src/lib/ustar.c:178-227 | Checks in this order: end of archive, magic, version, checksum field, checksum, name length, type, size; a file it returns has all those properties |
| UstarHeader.RoundTrip | pintos/src/lib/ustar.c:75-227 | Parsing a header gives back the stripped name, the type, and the size or, for a directory, 0; the header of a regular file with a negative size is refused as too large |
| Tokens.TokensAreStretches | pintos/src/lib/string.c:234-276 | The tokens strtok_r yields are exactly the longest stretches without delimiters |
| Tokens.TokenCount | pintos/src/lib/string.c:234-276 | A string of n bytes has at most (n + 1) / 2 tokens |
| Tokens.CountTokens | pintos/src/lib/string.c:278-317 | strtok_c counts the tokens that strtok_r yields |
| Tokens.NextToken | pintos/src/lib/string.c:234-276 | Returns the next token, puts a null byte behind it and changes nothing else |
| Arguments.PushTokens | pintos/src/userprog/process.c:715-725 | The loop leaves in argv the address of every token, in order, then null, and every token as a string of its own |
| Arguments.AlignedBelow | pintos/src/userprog/process.c:737-741 | The stack pointer leaves room for three words and is 4 bytes below a multiple of 16 |
| Arguments.LoadArguments | pintos/src/userprog/process.c:660-753 | Fails exactly for a line of 1023 bytes or more; otherwise the process finds a null return address, argc, argv with exactly the tokens and a final null, at a stack pointer 4 bytes below a multiple of 16, and every write is inside the page below the start |

## Left out

- Condition variables, `lock_try_acquire`, `sema_try_down`, and `sema_up` from an interrupt handler.
- The page of 204 lock-record slots: a thread's records are a list without a bound.
- Interrupt gates, context switches, device drivers, page tables and every other use of inline assembly; `divl` and the
  atomic bitmap instructions are taken to do what their comments say.
- KernelRuns.Exec: a run has no exit of a thread that still has lock records, because the lock then names a thread that is
  gone; `ExitKeepsIff` shows that such an exit, and no other, breaks the invariant, and `ExitCanBreak` is a run to
  one.
- Thread stacks and process start-up and exit, except for the argument stack.
- `list_reverse`, `list_unique`, `list_insert_ordered`, `list_min` and iteration over a hash table: easy members.
- Hash tables hold their buckets as sequences of elements; the links of a bucket are those of `Lists`.
- Elements of a hash table are counted modulo 2^32, as `elem_cnt` is.
- The user page pool, `PAL_ZERO` and `PAL_ASSERT`; locks of pools and descriptors: a call of the allocator runs alone.
- Malloc.Allocator.Realloc: a size that with a header exceeds 2^32, for an old block larger than a page less a header, is
  not covered, because the copy then leaves the new block; `CopyFitsIff` shows that it does so exactly then, and
  `ReallocCopyCanOverrun` is a case.
- Malloc.Allocator.Calloc: a product that with a header exceeds 2^32 is not covered, because the clearing then leaves the
  block.
- MallocRuns.Perform: calls of realloc and calloc are those that `Malloc.Allocator` covers.
- Headers and free-list links are kept as values beside the bytes of memory; the bytes they occupy may become anything.
- The bytes of the free map's and the directory's own files: a directory is its entries, and a failed write of the free
  map is an argument. The root directory is opened and closed within a call.
- Opened inodes are found by sector, not by their place in the list of open inodes.
- `file.c`'s positions and deny-write counters beyond whether a write is denied; `fsutil`, system calls, `descriptor.c`
  and `partition.c`.
- Simulator.Machine.constructor: the tasks are given in order of arrival, as Python's `sorted` returns them.
- The queue lengths and weights that log entries of the simulator also carry, its plots and its utilization figure.
- The parts of `printf` that octal fields do not use: signs, grouping, precision, other bases.
- Arguments.LoadArguments: a command line without a token is not covered, because the code asserts there is one.
