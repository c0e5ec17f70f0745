# Model of the two-core µT-Kernel 3.0 core

This project models the scheduling, locking, waiting, memory and time code of a µT-Kernel 3.0
(IEEE 2050-2018) port to the two processors of an RP2040, and proves what that code keeps over
every run. `dafny verify dfyconfig.toml` checks all of it.

## What is modelled

* **Scheduling** (`CoreMask`, `Matcher`, `Urgency`, `Scheduler`, `Ownership`, `Undisturbed`, `Settling`,
  `SplitInstall`). The greedy choice of ready tasks under affinity masks is shown to be the most
  urgent matching for two processors, the in-place code is proved to compute it, and its publication
  to the per-core slots is followed step by step together with dispatchers that do not take the
  lock: one context never has two owners, and with fixed inputs the selection settles.
* **Task lives and waits** (`TaskLife`, `TaskStates`, `Rings`, `WaitLine`). A stack is never freed
  or rebuilt under a running context; every control block is in exactly the ring its state calls
  for; every wait is ended by exactly one event whose code is in place before the task can run.
* **Mutexes** (`Mutex`, `MutexSteps`, `MutexRounds`, `MutexWaves`, `MutexTheory`, `MutexKernel`,
  `MutexDeadlock`). A priority equation for every task survives every call but two calls inside a
  deadlock, for which the exact condition is proved; it is transitive inheritance exactly for the
  tasks on no cycle of waits that holds itself up.
  `Mutex` holds the equation, `MutexSteps` and `MutexWaves` the single steps, `MutexRounds` what
  comes round a deadlock, `MutexKernel` the calls, `MutexTheory` their meaning, `MutexDeadlock` runs.
* **The kernel lock** (`KernelLock`) and **the fast lock** (`FastLock`), as step-interleaving
  protocols for any number of processors or tasks.
* **Memory** (`HeapSpec`, `HeapLinks`, `HeapTheory`, `Heap`, `Pool`). The best-fit allocator with
  joined neighbours, its links and flags, and the memory pool that uses the same lists.
* **Message buffers** (`MessageRing`, `MessageBuffer`), **semaphores** (`Semaphore`) and **event
  flags** (`EventFlag`).
* **Time** (`Timer`, `TimerQueue`, `HandlerQueue`). The 32-bit timer queue refines a queue of true
  times, and routed handlers are neither lost nor run twice.

## How it is modelled

A `class` stands for an object the kernel changes in place; its methods follow the source's
branches and loops and are proved against functions and predicates on values, about which the
theorems are stated. A list is a sequence in the order of its links (`Lists`); `Rings` and `HeapLinks`
prove the link operations against sequences. Where processors interleave, a state and its atomic
steps take the place of a class. An `Option` stands for a result that may be NULL, an `Ercd` for error codes.
Ghost state (a history, the messages stored, the areas) is what the invariants speak about.

Assumptions:

* BEGIN/END_CRITICAL_SECTION are enter and leave of the kernel lock, so a call under it is atomic,
  except where a module says that the lock is dropped or not taken.
* The dispatcher is two atomic steps per processor, save (clear the current slot, then release) and
  install (load the published task, store it as current). `SplitInstall` and `TaskLife` take the
  install apart into load and store, and show exactly when the results still hold and a run in
  which they do not.
* The hardware spinlock, the atomic operations and the interrupt request between processors do what
  their names say. Time comes from the tick only.
* At most 2^31 tasks call `Lock` at once, and their waits are not released by force.

## Where code and promises differ

* A timeout for which `tmout + TIMER_PERIOD` exceeds 2^31 is admitted by the parameter checks but
  spoils the timer queue, also an empty one: `TimeoutLimit` is the exact condition, `LongTimeoutSpoils`
  and `LongTimeoutBlocks` say what follows.
* The rounding of a request above MAX_ALLOCATE turns negative; `RoundedFits` is the exact limit.
* With a deadlock the mutex equation does not determine priorities (`DeadlockKeepsStalePriority`,
  reached by `MutexDeadlock.Deadlock`); `TransitiveUnlessHeld` says for which tasks. In it,
  terminating a task can put that task, dormant, back into a queue, and deleting a mutex can leave
  its former holder too high, because the change of priorities runs round the cycle while the call
  has taken part of it apart (mutex.c:66-103, 306-328). `TerTsk` and `DelMtx` say exactly when,
  `TerminateInDeadlock` and `DeleteInDeadlock` are such calls.
* Load and store of the install are two instructions; `SteadyIffSafe`, `RescheduleSplit`, `StoreSafe`
  and `DeleteSafe` are the exact conditions, `StaleGrantRuns` and `DeletedWhileLoaded` the runs from
  power-up that violate them.
* tk_del_tsk asks whether the task is still loaded and marks the deletion as deferred in two steps,
  while the dispatcher tests for the mark without the lock (task_manage.c:161-213). A test between the
  two loses the deletion: `DeletionLosesIff` is the exact condition before the call, `DeferredOnItsWay`
  the one over a run, `DeletionCanBeLost` such a run.

## Model

| member | source | states |
|---|---|---|
| `CoreMasks.ClearLowest` | kernel/tkernel/ready_queue_smp.c:99-108 | Clearing the lowest one bit of any word takes exactly one bit away, the step the popcount loop relies on |
| `CoreMasks.PopCount` | kernel/tkernel/ready_queue_smp.c:99-108 | The loop of `knl_popcount` returns the number of one bits of any 32-bit word |
| `CoreMasks.MaskIsWord` | kernel/tkernel/ready_queue_smp.c:184-193 | The mask operations of the model are the AND, OR, AND NOT and popcount of the 32-bit words the kernel keeps |
| `Matcher.PlaceableIffHall` | kernel/tkernel/ready_queue_smp.c:179-193 | Two candidates can run at once exactly when each mask is non-empty and the union has two processors: the feasibility test is Hall's condition, both ways |
| `Matcher.PlaceableIffSeats` | kernel/tkernel/ready_queue_smp.c:184-241 | A set is accepted by the feasibility test exactly when some placement of its tasks on distinct allowed processors exists |
| `Matcher.AssignSeats` | kernel/tkernel/ready_queue_smp.c:195-241 | The placement gives every chosen task one processor of its mask, and no processor two tasks |
| `Matcher.ChoiceDominates` | kernel/tkernel/ready_queue_smp.c:243-305 | Against every placeable set of ready tasks listed by rank, the scheduler chose at least as many and its k-th choice ranks no later |
| `Matcher.NoneOvertaken` | kernel/tkernel/ready_queue_smp.c:243-305 | A ready task not chosen has no allowed processor that is idle or given to a task ranked after it |
| `Matcher.ChoiceOrdered` | kernel/tkernel/ready_queue_smp.c:251-305 | The tasks are chosen in rank order and once each |
| `Urgency.ScannedIffReady` | kernel/tkernel/ready_queue_smp.c:258-278 | A task is scanned exactly when it is somewhere in the ready queue |
| `Urgency.RankByUrgency` | kernel/tkernel/ready_queue_smp.c:258-278 | Of two ready tasks the scan meets first: a holder of an object lock before everybody else, among holders as among the others the one of higher priority, and within one priority the one earlier in its queue; said on the queue's own indices, both ways |
| `Urgency.ChosenAtLeastAsUrgent` | kernel/tkernel/ready_queue_smp.c:243-305 | Against every list of ready tasks that can run at once, the more urgent first, the scheduler chose at least as many, each the same task or a more urgent one |
| `Urgency.SelectionByUrgency` | kernel/tkernel/ready_queue_smp.c:243-305 | The selection is the most urgent one and passes nobody over: a ready task left out finds every processor its mask allows given to a more urgent task |
| `Urgency.MaskIffAllowed` | kernel/tkernel/ready_queue_smp.c:117-177 | A processor is in a task's mask exactly when it is online and is the one the task is on, or is due on, or, for a task that is on none, is in its affinity and has dispatching enabled |
| `Urgency.SelectionLowestFirst` | kernel/tkernel/ready_queue_smp.c:195-241 | Where both processors would do, the lower one goes to a task that can only run there or to the more urgent task |
| `Scheduler.PassesAssign` | kernel/tkernel/ready_queue_smp.c:195-241 | The three passes of `knl_assign_cores` arrive at the placement the theorems are about, and seat every candidate |
| `Scheduler.PassesSeat` | kernel/tkernel/ready_queue_smp.c:195-241 | Whenever the masks were read, and whatever the second pass sees of processors that dispatch meanwhile, the passes seat every chosen task on a processor of its mask, and no processor gets two |
| `Scheduler.SmpScheduler.TaskCoreMask` | kernel/tkernel/ready_queue_smp.c:110-177 | The two loops over the slots compute the mask: affinity and online set, cut to the processor that already holds the task, without masked processors |
| `Scheduler.SmpScheduler.Scan` | kernel/tkernel/ready_queue_smp.c:258-302 | One half of the scan extends the candidates exactly by the greedy choice over that half of the ready queue |
| `Scheduler.SmpScheduler.Consider` | kernel/tkernel/ready_queue_smp.c:263-300 | One task of the scan is added exactly when it is new and feasible beside those chosen |
| `Scheduler.SmpScheduler.AssignCores` | kernel/tkernel/ready_queue_smp.c:204-241 | The in-place passes fill the output slots with the specified placement of the candidates |
| `Scheduler.SmpScheduler.ReadyQueueAssign` | kernel/tkernel/ready_queue_smp.c:251-305 | The method computes, for every ready queue and every state of the slots, a selection by urgency: object-lock holders, then priority, then waiting time decide, nobody is passed over, and the lower processor goes first |
| `Scheduler.SmpScheduler.RescheduleAll` | kernel/tkernel/ready_queue_smp.c:315-375 | One call installs the most urgent selection in the online slots, holding back exactly a task the guards refuse, which with ownership intact is nobody, and interrupts exactly the other processors whose slot changed |
| `Scheduler.MaskRespectsHolder` | kernel/tkernel/ready_queue_smp.c:117-177 | A task's mask only allows the processor that already holds it, and never leaves its affinity |
| `Scheduler.GuardsSilent` | kernel/tkernel/ready_queue_smp.c:322-352 | With ownership intact the bad-assign and duplicate-publish guards change nothing |
| `Scheduler.RescheduleOwned` | kernel/tkernel/ready_queue_smp.c:315-375 | A reschedule keeps: no task held by two processors, none outside its affinity |
| `Ownership.StepSafe` | kernel/tkernel/ready_queue_smp.c:117-375 | Every atomic step of the system (each read of one of the slots behind a mask, the decision, each slot written, each save and install) keeps ownership, although the dispatchers do not take the lock |
| `Ownership.OneContextOneProcessor` | kernel/tkernel/ready_queue_smp.c:124-167 | In every run, at every moment, no task is current or published on two processors or outside its affinity, although the slots behind each mask, and the masks, are read one by one while dispatchers move; the decision is the code's three passes, and the guards never fire |
| `Ownership.UndisturbedMask` | kernel/tkernel/ready_queue_smp.c:117-177 | Undisturbed, the reads of one task's slots give the mask the matching theorems are about |
| `Ownership.AssignDecides` | kernel/tkernel/ready_queue_smp.c:251-305 | Undisturbed, the passes over the masks read give the greedy choice and its placement |
| `Undisturbed.UndisturbedReschedule` | kernel/tkernel/ready_queue_smp.c:243-375 | Read by read and slot by slot, a reschedule nobody disturbs is over after a bounded number of steps, and the slots then hold the specified, most urgent selection |
| `Undisturbed.AloneGoesOn` | kernel/tkernel/ready_queue_smp.c:243-375 | Until it is over some step of it can be taken |
| `Undisturbed.DispatchRuns` | kernel/sysdepend/cpu/core/armv6m/dispatch.S:123-170 | A processor that dispatches undisturbed then runs what is published for it, or its idle context, and touches nothing of the other |
| `Ownership.NewTaskUnheld` | kernel/tkernel/task_manage.c:29-128 | A control block that task creation can take is current and published on no processor |
| `Ownership.MirrorsKept` | kernel/sysdepend/cpu/core/armv6m/dispatch.S:123-170 | The save, install and publication steps of the ownership model and of the task-life model change the slots alike |
| `Ownership.RescheduleImproves` | kernel/tkernel/ready_queue_smp.c:251-375 | With inputs fixed a further reschedule never selects a worse set, and if the sum of ranks stays so do both slots |
| `Settling.ChangesPay` | kernel/tkernel/ready_queue_smp.c:251-375 | A selection made on masks read at different moments lowers the sum of the ranks in the slots by at least the number of slots it changes |
| `Settling.StepPays` | kernel/tkernel/ready_queue_smp.c:117-375 | With fixed inputs every single read, decision, slot write, save and install keeps the invariant and pays in ranks for each slot it changes |
| `Settling.SelectionSettles` | kernel/tkernel/ready_queue_smp.c:117-375 | However the single reads and writes of reschedules interleave with dispatches, with fixed inputs the number of steps that change a slot is at most the initial sum of ranks |
| `SplitInstall.RescheduleSplit` | kernel/sysdepend/cpu/core/armv6m/dispatch.S:153-170 | With the install taken as the two instructions it is, a reschedule keeps one owner per context if and only if it gives no processor a task the other has loaded and not yet stored |
| `SplitInstall.SteadyIffSafe` | kernel/sysdepend/cpu/core/armv6m/dispatch.S:158-170 | A condition on the present state alone: every reschedule, whatever becomes ready, keeps one owner per context if and only if each loaded task is still in the slot it was loaded from, or affinity, online set, dispatch state and the rest of the system leave it no place on the other processor |
| `SplitInstall.SteadyRunIsSafe` | kernel/sysdepend/cpu/core/armv6m/dispatch.S:123-170 | A run of dispatcher steps and reschedules in which every reschedule meets that condition keeps one owner per context |
| `SplitInstall.DispatchSplit` | kernel/sysdepend/cpu/core/armv6m/dispatch.S:123-170 | The dispatcher's own steps (clear, load, store) keep split ownership unconditionally |
| `SplitInstall.StoresWhatItLoaded` | kernel/sysdepend/cpu/core/armv6m/dispatch.S:123-170 | What a dispatch loaded it stores as current, however often the slots are published in between |
| `SplitInstall.FreshIsEnough` | kernel/sysdepend/cpu/core/armv6m/dispatch.S:153-170 | Over every run in which no slot is republished between a load from it and the store, one owner per context is kept |
| `SplitInstall.StaleGrantRuns` | kernel/sysdepend/cpu/core/armv6m/dispatch.S:158-170 | A run from power-up of reschedules, loads and stores that leaves one task current on both processors: atomic install cannot be dropped as an assumption |
| `TaskLife.StepInv` | kernel/tkernel/task_manage.c:138-399 | Every create, start, exit, delete, terminate, dispatch and reclaim step keeps the control-block invariant |
| `TaskLife.LastCallDecides` | kernel/tkernel/task_manage.c:138-399 | In every run a task's state is the one the last call about it (create, start, exit, terminate, delete) put it in |
| `TaskLife.StackSafe` | kernel/tkernel/task_manage.c:138-178 | In every run, whenever a step frees a stack or rebuilds a context, no processor has the task as current before or after it |
| `TaskLife.FreedStaysOff` | kernel/tkernel/task_manage.c:138-178 | From the step that frees its stack until its block is created again a task is current nowhere, at every moment of every run |
| `TaskLife.EndedStaysOff` | kernel/tkernel/task_manage.c:184-256 | A task that ended and was let go by its processor is current nowhere until it is started again |
| `TaskLife.ReturnedOncePerCreation` | kernel/tkernel/task_manage.c:138-178 | In every run a control block has come back to the free list at most once per creation |
| `TaskLife.DeferredIsReclaimed` | kernel/tkernel/task_manage.c:161-178 | Over every run, a deferred deletion that is on its way has its block returned at the latest when its dispatchers have made the steps still to come, at most six; each of their steps brings it nearer and no other step takes it back |
| `TaskLife.WayIsOpen` | kernel/tkernel/task_manage.c:161-178 | While a deferred deletion is on its way, and none is half made, a step that brings it nearer can be taken |
| `TaskLife.DeferredOnItsWay` | kernel/tkernel/task_manage.c:161-213 | Over every run, with the two halves of a deletion by another task at i and j: the deferred deletion is on its way if and only if some processor that had not finished with the task at i makes no unlocked test for it between i and j |
| `TaskLife.DeletionLosesIff` | kernel/tkernel/task_manage.c:161-213 | Before the call, for every state that keeps the invariant: some timing of the dispatchers during it loses the block if and only if the task is current and no dispatcher is about to reclaim it in any case |
| `TaskLife.OwnDeletionOnItsWay` | kernel/tkernel/task_manage.c:327-355 | A task that deletes itself is on its way, at most six dispatcher steps before its block is returned |
| `TaskLife.LostStaysLost` | kernel/tkernel/task_manage.c:161-213 | A deferred deletion that is not on its way is never made: the block is never returned and never created again |
| `TaskLife.DeletionCanBeLost` | kernel/tkernel/task_manage.c:161-213 | A run from power-up in which the dispatcher tests for a deferred deletion between the decision to defer and the mark, so that the block is lost |
| `TaskLife.StoreSafe` | kernel/sysdepend/cpu/core/armv6m/dispatch.S:158-170 | The store of a loaded task keeps the invariant exactly when its block was not freed meanwhile |
| `TaskLife.DeleteSafe` | kernel/tkernel/task_manage.c:184-213 | With tasks loaded and not yet stored: a step keeps loaded tasks off the free list exactly when it is not a deletion of a task that is loaded and not current, nor its reclamation |
| `TaskLife.DeletedWhileLoaded` | kernel/tkernel/task_manage.c:184-213 | A run from power-up in which a task loaded but not yet stored is terminated and deleted, its stack freed, and then made current |
| `MutexCalls.MutexKernel.constructor` | kernel/tkernel/mutex.c:33-51 | No task and no mutex exists, every control block is on the free list, every equation holds |
| `MutexCalls.MutexKernel.CreMtx` | kernel/tkernel/mutex.c:211-262 | Error codes; the first free control block becomes a mutex nobody holds; every equation still holds |
| `MutexCalls.MutexKernel.CreTsk` | kernel/tkernel/task_manage.c:29-128 | A new task is dormant at its first priority, and every equation still holds |
| `MutexCalls.MutexKernel.StaTsk` | kernel/tkernel/task_manage.c:223-256 | Error codes; exactly a dormant task no longer loaded becomes runnable, and every equation still holds |
| `MutexCalls.MutexKernel.QueueInsertTpri` | kernel/tkernel/wait.h:78-96 | The loop inserts a task in front of the first waiter of lower priority |
| `MutexCalls.MutexKernel.ChangeTaskPriority` | kernel/tkernel/task.c:294-319 | Setting one task's priority and running its hook restores every task's equation, only priorities and queue orders change, all in one direction, and the recursion ends; inside a deletion or a termination it comes round to what that call took apart exactly when a path of waits from the present tables says so |
| `MutexCalls.MutexKernel.MtxChgPri` | kernel/tkernel/mutex.c:306-328 | The hook puts the task behind the waiters of its new priority, reorders nobody else, and passes the change to the holder until every equation holds; every further task that moves goes behind its equals too |
| `MutexCalls.MutexKernel.MtxRelWai` | kernel/tkernel/mutex.c:333-346 | After a waiter left, the holder is recomputed when its priority may have come from it, and every equation holds |
| `MutexCalls.MutexKernel.EffectiveOf` | kernel/tkernel/mutex.c:66-95 | The loop over the held mutexes computes exactly the priority the equation asks for without the released mutex |
| `MutexCalls.MutexKernel.ReleaseMutex` | kernel/tkernel/mutex.c:61-103 | Taking a mutex off the list and recomputing leaves every equation holding, unless the change comes round, which is said exactly |
| `MutexCalls.MutexKernel.LocMtx` | kernel/tkernel/mutex.c:358-437 | Error codes; a free mutex gets the caller as its holder, with nothing else changed but the caller's list and priority; else the caller is queued behind its equals; the equations; and blocking creates a deadlock exactly when the mutex's holder already waits, in the end, for the caller |
| `MutexCalls.MutexKernel.UnlMtx` | kernel/tkernel/mutex.c:442-494 | Error codes; the mutex goes to the first waiter with its ceiling applied, or becomes free; the equations hold and no deadlock arises |
| `MutexCalls.MutexKernel.ChgPriMutex` | kernel/tkernel/mutex.c:158-205 | E_ILUSE exactly when the new base priority is above a ceiling the task holds or waits for; otherwise the result is the priority the equation asks for |
| `MutexCalls.MutexKernel.ChgPri` | kernel/tkernel/task_manage.c:408-453 | The base priority changes exactly when that is legal, and every equation holds afterwards; in its queue the task stands behind all of its new priority, except at most deadlocked ones, and who did not move keeps its order |
| `MutexTheory.FellowsBehind` | kernel/tkernel/wait.c:192-236 | After a change of base priority every waiter behind the task in its queue has a lower priority, unless that waiter is deadlocked |
| `MutexTheory.FellowUnshifted` | kernel/tkernel/mutex.c:306-328 | Two tasks that wait for the same mutex do not move each other: outside a deadlock the other's priority stays |
| `MutexCalls.MutexKernel.RelWai` | kernel/tkernel/task_manage.c:546-566 | Ending a wait from outside removes the task from its queue and lowers holders as the equation asks, and nothing else |
| `MutexCalls.MutexKernel.DelMtx` | kernel/tkernel/mutex.c:268-299 | Deletion takes the mutex from its holder and releases its waiters; the invariant survives if and only if the holder's fall does not come round to a waiter of the mutex; when it does, the holder, and nobody else, keeps a priority above its equation |
| `MutexCalls.MutexKernel.ReleaseAll` | kernel/tkernel/wait.c:164-174 | The deletion loop empties the queue and makes exactly its waiters runnable |
| `MutexCalls.MutexKernel.SignalAll` | kernel/tkernel/mutex.c:111-145 | Every mutex of a terminated task goes to its first waiter or becomes free, only new holders are raised, and all other equations hold |
| `MutexCalls.MutexKernel.TerTsk` | kernel/tkernel/task_manage.c:262-283 | Termination leaves the task dormant, holding nothing, each mutex with its first waiter or, in a queue by priority, with one nobody who waited is above; the invariant survives, and the task is in no queue, if and only if it was not on a cycle of waits whose tasks are held at their priority by each other alone |
| `MutexState.EffectiveUnique` | kernel/tkernel/mutex.c:61-103 | The equation determines a task's priority from what it holds and who waits for it |
| `MutexTheory.InheritsAlongChains` | kernel/tkernel/mutex.c:306-328 | In every state between calls nobody runs below a task it keeps waiting, however long the chain, deadlocked or not |
| `MutexTheory.TransitiveInheritance` | kernel/tkernel/mutex.c:61-205 | For every task that is not itself deadlocked, the priority is exactly the highest base priority or held ceiling among the tasks that wait for it through any chain, itself included |
| `MutexTheory.TransitiveUnlessHeld` | kernel/tkernel/mutex.c:61-205 | In every state between calls, deadlocked or not, that holds of a task if and only if it is not on a cycle of waits whose tasks are held at their priority by each other alone: the same condition under which its termination goes wrong |
| `MutexTheory.DeadlockTraps` | kernel/tkernel/mutex.c:358-437 | A deadlocked task waits, in the end, for deadlocked tasks only |
| `MutexTheory.DeadlockKeepsStalePriority` | kernel/tkernel/mutex.c:306-328 | With a deadlock the local equations do not determine priorities: two tasks can keep each other at a priority neither has |
| `MutexTheory.TerminationHeld` | kernel/tkernel/mutex.c:306-346 | The fall set off by a termination comes round to the terminated task if and only if that task is on a cycle of waits in which nothing but its predecessor holds each task at its priority |
| `MutexTheory.HeldOnCycle` | kernel/tkernel/mutex.c:306-346 | Only the termination of a deadlocked task can come round |
| `MutexTheory.DeletionOnCycle` | kernel/tkernel/mutex.c:268-299 | Only the deletion of a mutex whose holder is deadlocked can come round |
| `MutexDeadlock.Deadlock` | kernel/tkernel/task_manage.c:408-453 | From power-up, calls that create, start, lock, wait and change one base priority reach the deadlock in which two tasks keep each other at a priority neither has |
| `MutexDeadlock.DeleteInDeadlock` | kernel/tkernel/mutex.c:268-299 | There, deleting the first mutex leaves its former holder, with base priority 10 and no mutex, above 10 |
| `MutexDeadlock.TerminateInDeadlock` | kernel/tkernel/task_manage.c:262-283 | There, terminating the second task leaves it dormant in the wait queue of the first mutex |
| `MutexTheory.JoinAcyclic` | kernel/tkernel/mutex.c:358-437 | Blocking a task behind a holder deadlocks exactly when the holder already waits, in the end, for the task |
| `MutexTheory.TamerAcyclic` | kernel/tkernel/mutex.c:442-494 | A step after which nobody newly waits and new holders run creates no deadlock |
| `Rings.HoldsUnique` | include/sys/queue.h:29-35 | The links of a ring determine its entries and their order |
| `Rings.InsertHolds` | include/sys/queue.h:58-64 | The four link writes of an insertion before any place give the ring with the entry inserted there |
| `Rings.RemoveHolds` | include/sys/queue.h:71-77 | The two link writes of a removal give the ring without the entry |
| `Rings.OtherRing` | include/sys/queue.h:58-77 | A ring none of whose nodes was written is what it was |
| `Rings.Links.QueInit` | include/sys/queue.h:40-44 | The ring of that head becomes empty, and links of other nodes stay |
| `Rings.Links.IsQueEmpty` | include/sys/queue.h:49-52 | The test of one link says exactly whether the ring has entries |
| `Rings.Links.QueInsert` | include/sys/queue.h:58-64 | In place: the sequence gains the entry at that place, and links of other nodes stay |
| `Rings.Links.QueRemove` | include/sys/queue.h:71-77 | In place: the sequence loses the entry; a self-linked node is left alone |
| `Rings.Links.QueRemoveNext` | include/sys/queue.h:85-98 | The first entry leaves the ring, or nothing changes when it is empty |
| `TaskStates.Tasks.constructor` | kernel/tkernel/task.c:172-213 | All control blocks are in the free list, in order |
| `TaskStates.OneRing` | kernel/tkernel/task.c:254-319 | No control block is in two rings, and the one it is in is the one its state calls for |
| `TaskStates.TopIsFirst` | kernel/tkernel/ready_queue.h:84-100 | While a task is ready the top field names a non-empty queue whose head is ready and before which no ready task comes |
| `TaskStates.Tasks.CalcTopPriority` | kernel/tkernel/ready_queue.h:54-62 | The loop finds the first bit set from a place on, or the number of priorities |
| `TaskStates.Tasks.ReadyQueueInsert` | kernel/tkernel/ready_queue.h:109-129 | The task is last in its priority's queue, and bitmap and top field stay exact |
| `TaskStates.Tasks.ReadyQueueDelete` | kernel/tkernel/ready_queue.h:162-202 | The task is gone from its queue, and bitmap and top field stay exact |
| `TaskStates.Tasks.Rotate` | kernel/tkernel/ready_queue.h:208-217 | The head of the queue goes to its end, and nothing else changes |
| `TaskStates.Tasks.MakeReady` | kernel/tkernel/task.c:259-270 | The task is ready and last in its queue |
| `TaskStates.Tasks.ChangeTaskPriority` | kernel/tkernel/task.c:294-319 | A ready task moves to the end of its new queue, a task in a line by priority to its new place; every ring stays exact |
| `TaskStates.Tasks.MakeWait` | kernel/tkernel/wait.c:132-204 | The running task, suspended or not, leaves the ready queue, joins the line at the given place, and its return code reads E_TMOUT before the wait begins |
| `TaskStates.Tasks.EndWait` | kernel/tkernel/wait.h:143-160 | The wait ends with the code in place at that moment; the task is ready, or stays suspended; exactly its line and its ready queue change |
| `TaskStates.Tasks.WaitRelease` | kernel/tkernel/wait.c:79-108 | The wait is ended once, by this event, with this code, written before the task is runnable |
| `TaskStates.Tasks.WaitReleaseTmout` | kernel/tkernel/wait.c:110-117 | A timeout ends the wait once with the code written before it began |
| `TaskStates.Tasks.WaitDelete` | kernel/tkernel/wait.c:164-174 | Every wait of the line ends with E_DLT, in order, and no other task changes |
| `TaskStates.Tasks.SlpTsk` | kernel/tkernel/task_sync.c:190-215 | A kept wakeup is used up, or a poll fails, with nothing else changed; or a sleep begins, and the task leaves its ready queue; with the codes of the source |
| `TaskStates.Tasks.WupTsk` | kernel/tkernel/task_sync.c:222-249 | A sleep ends with E_OK and the task is last in its ready queue or stays suspended, or the wakeup is kept, with the codes of the source |
| `TaskStates.Tasks.SusTsk` | kernel/tkernel/task_sync.c:28-84 | Error codes; the suspension count and the state move together; a ready task leaves the ready queue; no wait ends |
| `TaskStates.Tasks.RsmTsk` | kernel/tkernel/task_sync.c:91-176 | The last resumption, or a forced one, makes the task ready, last in its queue, or leaves it waiting, with the codes of the source |
| `TaskStates.Tasks.TerTsk` | kernel/tkernel/task_manage.c:362-399 | Error codes; the task is dormant, and its wait, if any, is given up once |
| `TaskStates.Tasks.EndTask` | kernel/tkernel/task_manage.c:262-355 | Wherever the task was linked, that link is gone, a wait is given up once, and no other ring changes |
| `TaskStates.Tasks.DelTsk` | kernel/tkernel/task_manage.c:184-213 | Error codes; the block goes to the end of the free list, or waits for the dispatch while loaded |
| `TaskStates.Tasks.DispatchRelease` | kernel/tkernel/task_manage.c:161-178 | Exactly a deleted task that is no longer loaded has its block put on the free list |
| `TaskStates.Tasks.CreTsk` | kernel/tkernel/task_manage.c:29-128 | A new task takes the first free control block, and there is none exactly when the free list is empty |
| `TaskStates.Tasks.StaTsk` | kernel/tkernel/task_manage.c:223-256 | Error codes; only a dormant task that is no longer loaded becomes ready, last in its queue |
| `TaskStates.LogStep` | kernel/tkernel/wait.c:79-174 | Each wait begun is ended by exactly one event before the next begins, kept by every step |
| `KernelLock.StepInv` | kernel/tkernel/smp_lock.c:89-268 | Every single step of enter, leave, abandon, suspend and resume of any processor keeps the lock invariant |
| `KernelLock.MutualExclusion` | kernel/tkernel/smp_lock.c:89-194 | After any schedule of any number of processors at most one is inside, with interrupts masked and the lock word naming it, and depth is non-zero only there |
| `KernelLock.NestedPair` | kernel/tkernel/smp_lock.c:92-107 | An inner enter and leave, with anything from the others in between, change nothing for their processor |
| `KernelLock.LevelsCount` | kernel/tkernel/smp_lock.c:89-194 | Under every schedule, however enters and leaves nest inside a section, the processor is as deep as they leave it, still holds the word, and nothing else of it changes |
| `KernelLock.ExitRuns` | kernel/tkernel/smp_lock.c:171-250 | A leave at depth 1, an abandon or a suspend at any depth begins to give the word up, and under every schedule the processor is still doing so or is out at depth 0 with the word given up; a leave has then restored the mask saved on acquisition, a suspend has put the depth aside |
| `KernelLock.ExitCompletes` | kernel/tkernel/smp_lock.c:171-250 | It does come out: with anything from the others between its three steps the word is 0 at its clear and the processor is as the exit promises |
| `KernelLock.SectionRestores` | kernel/tkernel/smp_lock.c:89-194 | A whole section, contended or not, with as many leaves as enters in any nesting and any interference: at its outermost leave the word is given up, and the processor is as before, with the interrupt mask it came with |
| `KernelLock.OnlyOutermostReleases` | kernel/tkernel/smp_lock.c:171-194 | In every run the lock word leaves a processor only at that processor's own clear, which ends an outermost leave, an abandon, a suspend or a dying acquisition begun while it held the word |
| `KernelLock.AcquireSamplesMask` | kernel/tkernel/smp_lock.c:89-169 | A first enter, contended or not: under every schedule the processor is still acquiring, or inside at depth 1 with the mask sampled at that enter saved and nothing else changed |
| `KernelLock.AcquiringWins` | kernel/tkernel/smp_lock.c:109-169 | Under every schedule a processor that spins is either still acquiring with the mask and depth it came with, or inside with exactly these |
| `KernelLock.WinsWhenFree` | kernel/tkernel/smp_lock.c:109-169 | With the word and the hardware lock free, four steps of its own bring it inside |
| `KernelLock.SectionKeeps` | kernel/tkernel/smp_lock.c:227-268 | Whatever a detached section calls, the depths put aside before it stay and interrupts stay masked |
| `KernelLock.ResumeRestoresDepth` | kernel/tkernel/smp_lock.c:227-268 | Suspend, a detached section with any enters, leaves, further suspends and resumes and any interference, then a contended resume: once inside, the depth is that before the suspend, and interrupts were masked throughout |
| `KernelLock.KilledNeverEnters` | kernel/tkernel/smp_lock.c:109-169 | A task killed while spinning for a first acquisition is never inside, whatever happens, until its context is discarded |
| `KernelLock.KilledWhileAcquiring` | kernel/tkernel/smp_lock.c:146-169 | A kill reaches a task however far its acquisition has come: under every schedule it is never inside until its context is discarded |
| `KernelLock.KilledWinnerGivesBack` | kernel/tkernel/smp_lock.c:146-169 | If the acquisition of a killed task wins the word, it gives it back and waits for its dispatcher, whatever the others do between its steps |
| `HeapSpec.RoundedFits` | kernel/tkernel/memory.h:53-73 | Rounding in 32 bits gives room for the request if and only if it is at most MAX_ALLOCATE; above, it turns negative |
| `HeapSpec.RoundedLeast` | kernel/tkernel/memory.h:53-73 | What is searched for is the least size the allocator can give that holds the request |
| `HeapSpec.OversizePasses` | kernel/tkernel/memory.c:160-206 | A request above MAX_ALLOCATE is satisfied by any free area, however small: callers must check first |
| `HeapSpec.Conserved` | kernel/tkernel/memory.c:160-287 | The areas and the headers between them are all the memory there is |
| `HeapSpec.TiledOrder` | kernel/tkernel/memory.c:131-146 | Areas lie apart in address order, a header between them |
| `HeapSpec.FirstFitUnique` | kernel/tkernel/memory.c:29-55 | There is one place of smallest adequate size, so both search directions find the same |
| `HeapSpec.FirstFitIsBest` | kernel/tkernel/memory.c:29-55 | What is found there is no larger than any listed area that would do |
| `HeapSpec.InsertedListed` | kernel/tkernel/memory.c:77-106 | Queueing an area adds exactly it to what the free queue lists |
| `HeapSpec.RemovedListed` | kernel/tkernel/memory.c:111-125 | Removing an area takes exactly it from what the free queue lists |
| `HeapSpec.RemovedSorted` | kernel/tkernel/memory.c:111-125 | Removing an area keeps sizes strictly increasing and no chain empty |
| `HeapLinks.LinkedInsert` | kernel/tkernel/memory.c:131-137 | Inserting a header keeps links and flags exact for the area cut in two |
| `HeapLinks.LinkedRemove` | kernel/tkernel/memory.c:142-146 | Removing a header keeps links and flags exact for the two areas made one |
| `HeapLinks.HeaderPlace` | kernel/tkernel/mempool.c:60-80 | Headers next to their areas and headers kept in the control block give the same beginnings and ends |
| `HeapTheory.AllocatedApart` | kernel/tkernel/memory.c:160-206 | A block handed out has the bytes asked for, lies in the region, and shares no byte with a block in use |
| `HeapTheory.AllocatedTiled` | kernel/tkernel/memory.c:160-206 | After an allocation the areas still tile the region |
| `HeapTheory.AllocatedBlocks` | kernel/tkernel/memory.c:160-206 | The blocks in use are those before and this one; the free areas lose the one it came from and gain its rest |
| `HeapTheory.AllocatedCoalesced` | kernel/tkernel/memory.c:160-206 | Allocation creates no two free neighbours |
| `HeapTheory.FreedBlocks` | kernel/tkernel/memory.c:261-287 | Freeing takes exactly that block from the blocks in use |
| `HeapTheory.FreedTiled` | kernel/tkernel/memory.c:261-287 | After freeing and joining the areas still tile the region |
| `HeapTheory.FreedCoalesced` | kernel/tkernel/memory.c:261-287 | Freeing leaves no two free neighbours |
| `HeapTheory.AllocateFreeRoundTrip` | kernel/tkernel/memory.c:160-287 | Freeing a block just handed out brings back the areas as they were |
| `HeapKernel.Heap.constructor` | kernel/tkernel/memory.c:295-332 | One free area fills the region |
| `HeapKernel.Heap.SearchFreeArea` | kernel/tkernel/memory.c:29-55 | Both loops return the first group of at least the wanted size, or the queue head |
| `HeapKernel.Heap.AppendFreeArea` | kernel/tkernel/memory.c:77-106 | The area is marked free and listed under its size |
| `HeapKernel.Heap.AppendFreeAreaBound` | kernel/tkernel/mempool.c:60-104 | The same for a pool's first and last area, whose bounds come from the control block |
| `HeapKernel.Heap.RemoveFreeQue` | kernel/tkernel/memory.c:111-125 | The area leaves its chain, or the next of its size takes its place, or its size disappears |
| `HeapKernel.Heap.InsertAreaQue` | kernel/tkernel/memory.c:131-137 | The area is cut in two by a new header |
| `HeapKernel.Heap.RemoveAreaQue` | kernel/tkernel/memory.c:142-146 | Two neighbouring areas become one |
| `HeapKernel.Heap.GetBlk` | kernel/tkernel/mempool.c:111-144 | It fails exactly when no free area is large enough, changing nothing; otherwise the block is cut from the smallest that is; tiling, joined free areas and the exact free queue are kept |
| `HeapKernel.Heap.Imalloc` | kernel/tkernel/memory.c:160-206 | The same for the rounded request; a request of zero or less is refused |
| `HeapKernel.Heap.Free` | kernel/tkernel/memory.c:261-287 | The block is freed and joined with its free neighbours; all invariants are kept |
| `HeapKernel.Heap.RelBlk` | kernel/tkernel/mempool.c:149-186 | A block already free is refused and nothing changes; otherwise as freeing |
| `MemoryPool.MaxFreeIsLargest` | kernel/tkernel/mempool.h:54-60 | A request exceeds the value exactly when every free area is too small |
| `MemoryPool.AllocatedNoLarger` | kernel/tkernel/mempool.c:111-144 | Handing out a block leaves no larger free area than before |
| `MemoryPool.Pool.Wakeup` | kernel/tkernel/mempool.c:194-216 | Waiters are served from the head, each with a block large enough, never without one, until the head's request exceeds the largest free area; the blocks in use grow by exactly those granted |
| `MemoryPool.Pool.GetMpl` | kernel/tkernel/mempool.c:410-455 | Error codes; served exactly when nobody comes before and some free area is large enough; otherwise queued in its place; the head still exceeds the largest free area |
| `MemoryPool.Pool.RelMpl` | kernel/tkernel/mempool.c:460-495 | Error codes; the block is freed and waiters are served; blocks in use change by exactly that |
| `MemoryPool.Pool.RelWai` | kernel/tkernel/mempool.c:396-399 | When a wait ends without a block the new head is served while possible |
| `MemoryPool.Pool.ChgPri` | kernel/tkernel/mempool.c:378-391 | A changed priority reorders the line and serves its head while possible |
| `MessageRing.RoundIsMasking` | kernel/tkernel/messagebuf.h:61-62 | The rounding used is adding three and clearing two bits, and what it calls aligned are the multiples of four |
| `MessageRing.FitsRounded` | kernel/tkernel/messagebuf.h:62-71 | The unrounded free-space test is enough, because the free size is a multiple of four |
| `MessageRing.AppendHolds` | kernel/tkernel/messagebuf.c:59-86 | Header and bytes written at the tail, split at the end of the buffer or not, lay the message out behind those stored, which stay |
| `MessageRing.FirstMessage` | kernel/tkernel/messagebuf.c:345-375 | The header and bytes read at the head, across any wrap, are the first message |
| `MessageRing.DropHolds` | kernel/tkernel/messagebuf.c:345-375 | Moving the head leaves the other messages laid out and the free size exact |
| `MessageBuffers.MessageBuffer.CopyWrapped` | kernel/tkernel/messagebuf.c:66-84 | The split copy writes the bytes round the end of the buffer, nothing else, and returns where the ring continues |
| `MessageBuffers.MessageBuffer.MsgToMbf` | kernel/tkernel/messagebuf.c:59-86 | The stored messages gain this one at the end; the free size drops by its rounded extent |
| `MessageBuffers.MessageBuffer.MbfToMsg` | kernel/tkernel/messagebuf.c:345-375 | The first stored message is returned, byte for byte, and removed |
| `MessageBuffers.MessageBuffer.Wakeup` | kernel/tkernel/messagebuf.c:94-110 | Blocked messages move into the ring while the first fits; the logical queue is unchanged |
| `MessageBuffers.MessageBuffer.Send` | kernel/tkernel/messagebuf.c:282-336 | A waiting receiver gets the message; otherwise the logical queue gains it, behind the stored messages or at the turn of its sender (arrival or priority), or the poll fails; with the exact conditions |
| `MessageBuffers.MessageBuffer.Receive` | kernel/tkernel/messagebuf.c:380-431 | The head of the logical queue is returned and removed whenever there is one; otherwise the caller waits or the poll fails |
| `MessageBuffers.MessageBuffer.ReleaseSender` | kernel/tkernel/messagebuf.c:268-271 | A sender whose wait ends takes exactly its message out of the logical queue, and those behind move up |
| `MessageBuffers.MessageBuffer.ChgPri` | kernel/tkernel/messagebuf.c:248-266 | A sender whose priority changed moves its message to the new turn in the logical queue, and those that now fit move up |
| `TimerKernel.Before32Exact` | kernel/tkernel/timer.c:89-100 | Across any number of wraps the 32-bit comparison is the comparison of the true times |
| `TimerKernel.ReachedExact` | kernel/tkernel/timer.h:54-57 | The same for the test whether a time has been reached |
| `TimerKernel.TimeoutLimit` | kernel/tkernel/check.h:148-157 | For every timeout the parameter checks admit, into every queue: the queue stays in true order and within the comparable range exactly if the due time is within 2^31 of now |
| `TimerKernel.LongTimeoutSpoils` | kernel/tkernel/timer.c:116-140 | After a longer timeout, into whatever queue it went, every next timeout within the range is queued behind it although it is due first |
| `TimerKernel.LongTimeoutBlocks` | kernel/tkernel/timer.c:116-140 | An admitted timeout within TIMER_PERIOD of 2^31 goes to the head of the queue and hides an event due in 20 ms |
| `TimerSpec.ExpireLeavesFuture` | kernel/tkernel/timer.c:215-229 | After a tick nothing due is left, whatever the callbacks armed or cancelled |
| `TimerSpec.ExpireFires` | kernel/tkernel/timer.c:215-229 | A pending event that nobody else cancels or arms fires exactly once in a tick if due, even when its own callback arms it again, and otherwise stays pending |
| `TimerSpec.FiresInOrder` | kernel/tkernel/timer.c:215-229 | Whatever the callbacks arm and cancel, the events of a tick fire in the order of the queue: by due time, then by the order in which they were inserted |
| `TimerSpec.InsertJoins` | kernel/tkernel/timer.c:89-100 | A new event stands behind every event due no later and in front of every event due later |
| `TimerSpec.RearmedWaits` | kernel/tkernel/timer.c:215-229 | What an event's own callback armed does not fire in the same tick |
| `TimerSpec.FiresOncePerArming` | kernel/tkernel/timer.c:165-241 | Over any run that nobody else disturbs an event fires when and only when the clock reaches its due time, once for this arming, whether or not its callback arms it again |
| `TimerSpec.CancelledStaysSilent` | kernel/tkernel/timer.h:113-116 | What is cancelled and not armed again never fires |
| `TimerSpec.EveryArmingAccounted` | kernel/tkernel/timer.c:116-241 | Over every run with whatever calls and callbacks: each arming fired once, or was cancelled or replaced while pending, or is still pending |
| `TimerSpec.CountApplyAll` | kernel/tkernel/timer.c:215-229 | No callback, inserting relative or absolute, makes another event due in the same tick: the expiry loop ends |
| `TimerKernel.TimerQueue.Enqueue` | kernel/tkernel/timer.c:89-100 | The 32-bit loop inserts at the place the true times ask for, behind equals |
| `TimerKernel.TimerQueue.TimerInsert` | kernel/tkernel/timer.c:116-129 | For every timeout the checks admit: a wait forever is not queued, another event is due after the timeout plus one tick, and the queue stays as every other call needs it if and only if that is within 2^31 of now |
| `TimerKernel.TimerQueue.TimerInsertAbs` | kernel/tkernel/timer.c:148-160 | The event is inserted at the place of its absolute time, however near |
| `TimerKernel.TimerQueue.CycTimerInsert` | kernel/tkernel/time_calls.h:52-82 | A cyclic handler is due next at the first later point of its own grid |
| `TimerKernel.TimerQueue.TimerDelete` | kernel/tkernel/timer.h:113-116 | The event is gone; nothing happens when it was not queued |
| `TimerKernel.TimerQueue.TimerHandler` | kernel/tkernel/timer.c:165-241 | The tick on the 32-bit queue fires exactly what the tick on true times fires, in order |
| `TimerKernel.CycNextIsFirstAfter` | kernel/tkernel/time_calls.h:52-65 | The next start is the least point of the handler's own grid strictly after now, in 32-bit arithmetic, also when the first start is still to come |
| `TimerKernel.RearmReachable` | kernel/tkernel/time_calls.c:265-302 | The re-arming a cyclic handler makes in its own expiry is strictly later than now and within range, so the tick terminates with it |
| `TimerKernel.CyclicKeepsPhase` | kernel/tkernel/time_calls.c:198-302 | Over any run a cyclic handler, called in the tick or routed to a processor that re-arms it later, and whatever its function asks of other events, expires exactly at the ticks that find it pending and due |
| `TimerKernel.StartsOnGrid` | kernel/tkernel/time_calls.c:198-302 | Each of these is the first tick that reaches a point of the one grid the handler began with: phases are kept however many starts were missed |
| `HandlerQueues.StepInv` | kernel/tkernel/time_calls.c:164-220 | Every stretch under the lock (expiry, interrupt, return of a user function, start, immediate start, stop, reuse) keeps the queues' invariant |
| `HandlerQueues.TurnInv` | kernel/tkernel/time_calls.c:170-183 | One turn of a drain keeps it, although the lock is dropped around the user function |
| `HandlerQueues.EnqueueInv` | kernel/tkernel/time_calls.c:196-213 | Routing an event keeps it, whether the drain runs here, runs elsewhere, or must be requested |
| `HandlerQueues.RoutedOnce` | kernel/tkernel/time_calls.c:164-220 | In every run each routing of an event was executed once, cancelled, or is the one queued; a non-empty queue has a drain running or requested |
| `HandlerQueues.RanAtHome` | kernel/tkernel/time_calls.c:164-220 | In every run each execution of a routed event is made once and on the processor its block names at that moment |
| `HandlerQueues.RanByKind` | kernel/tkernel/time_calls.c:734-768 | In every run a step that executes an event (here and in lines 265-302) leaves a cyclic handler started and waiting for its next time, and an alarm stopped, in no queue either way |
| `HandlerQueues.KeepsTurns` | kernel/tkernel/time_calls.c:164-220 | No routed event overtakes another: two that stay queued keep their order and a newly routed one stands behind all that were there |
| `HandlerQueues.DrainsInOrder` | kernel/tkernel/time_calls.c:170-183 | After k turns of a drain left alone the first k events of its queue have run, the last of them is in its user function, and the rest wait |
| `HandlerQueues.ImmediateEffect` | kernel/tkernel/time_calls.c:880-900 | A handler asked for at once is as after a run when this processor will do; else it is routed once more and queued there |
| `HandlerQueues.StartEffect` | kernel/tkernel/time_calls.c:465-515 | A handler started for a later time waits for that time only; one that keeps its phase is left alone |
| `HandlerQueues.DrainsDry` | kernel/tkernel/time_calls.c:164-184 | Left alone a drain executes every queued event once, on the queue's own processor, leaves every cyclic handler of it started and timed again and every alarm stopped, and then rests |
| `HandlerQueues.StopUnqueues` | kernel/tkernel/time_calls.c:430-545 | A started block is in exactly one queue, and stopping takes it out |
| `WaitLine.QueuedByPriority` | kernel/tkernel/wait.h:78-96 | Inserting keeps a line by priority sorted, and the task is at its head exactly when nobody is before it |
| `WaitLine.QueuedBehindEquals` | kernel/tkernel/wait.h:78-96 | In a line by priority a task stands behind everybody of the same or a higher priority and in front of everybody else; a line by arrival grows at its end |
| `WaitLine.TopIffFirst` | kernel/tkernel/wait.c:223-237 | A task need not wait for its turn exactly if it would stand first in the line |
| `WaitLine.Insert` | kernel/tkernel/wait.h:78-96 | The loop finds the specified place |
| `Semaphores.GrantsConserve` | kernel/tkernel/semaphore.c:160-184 | What is granted plus what is left is the count, and every waiter is served or still waits |
| `Semaphores.GrantsLeaveNone` | kernel/tkernel/semaphore.c:160-184 | After one pass no waiter that could be served is left: the head under TA_FIRST, any under TA_CNT |
| `Semaphores.GrantsFirst` | kernel/tkernel/semaphore.c:211-227 | Under TA_FIRST those served are exactly the longest part from the head that the count covers |
| `Semaphores.GrantsByCount` | kernel/tkernel/semaphore.c:163-184 | Under TA_CNT a waiter is served exactly when those served before it leave enough |
| `Semaphores.Semaphore.ReleaseServable` | kernel/tkernel/semaphore.c:163-184 | The loop, with its early exits, makes exactly the specified pass |
| `Semaphores.Semaphore.Signal` | kernel/tkernel/semaphore.c:138-190 | Error codes; the count is supplied and the pass made; count in range and equal to supplied less taken |
| `Semaphores.Semaphore.Wait` | kernel/tkernel/semaphore.c:247-290 | Served exactly when the count covers it and nobody is before it (TA_CNT: whoever waits); otherwise queued; nobody servable is left |
| `Semaphores.Semaphore.ReleaseHead` | kernel/tkernel/semaphore.c:211-227 | The loop of the hook serves exactly the part of the line from its head that the count covers |
| `Semaphores.Semaphore.RelWai` | kernel/tkernel/semaphore.c:233-236 | When a wait ends without a count the head is served while possible |
| `Semaphores.Semaphore.ChgPri` | kernel/tkernel/semaphore.c:195-228 | A changed priority reorders the line and, under TA_FIRST, serves its head while possible |
| `EventFlags.CondShrinks` | kernel/tkernel/eventflag.h:45-52 | Losing bits never makes a condition true |
| `EventFlags.PassLeavesNone` | kernel/tkernel/eventflag.c:154-180 | After one pass no queued waiter's condition holds, and only bits were lost |
| `EventFlags.PassNext` | kernel/tkernel/eventflag.c:154-180 | A waiter is released exactly when its condition holds for what those before it left, and is told that pattern |
| `EventFlags.CondMeans` | kernel/tkernel/eventflag.h:45-52 | The condition holds exactly when, by bits, every bit waited for is set, or with TWF_ORW one of them |
| `EventFlags.PassByBits` | kernel/tkernel/eventflag.c:154-180 | By bits: each waiter in turn finds the pattern those before it left; who finds what it waits for is released, told just that, and clears by its mode; the others stay, in order |
| `EventFlags.PassWithoutClear` | kernel/tkernel/eventflag.c:154-180 | When nobody clears, exactly those whose condition holds are released, in the order of the line and all told the same pattern, and the others keep their order |
| `EventFlags.EventFlag.SetFlg` | kernel/tkernel/eventflag.c:133-186 | The loop, with its clear modes and early exits, releases exactly those that, by bits, find what they wait for, each told the pattern it found and clearing by its mode; of those left each AND waiter lacks a bit and each OR waiter lacks all |
| `EventFlags.EventFlag.ClrFlg` | kernel/tkernel/eventflag.c:191-209 | The pattern is masked and no queued condition becomes true |
| `EventFlags.EventFlag.WaiFlg` | kernel/tkernel/eventflag.c:231-281 | Error codes; satisfied at once exactly when, by bits, all bits waited for are set, or with TWF_ORW one, and the pattern loses exactly what the mode clears; else queued in its turn |
| `FastLock.StepInv` | lib/libtk/fastlock.c:37-83 | Every step keeps: one token while anybody is counted in, and a token in the semaphore only with nobody in line |
| `FastLock.MutualExclusion` | lib/libtk/fastlock.c:68-83 | For any number of tasks and any run at most one is between Lock and Unlock, and the semaphore never exceeds 1 |
| `FastLock.CounterBounded` | lib/libtk/fastlock.c:68-83 | The counter stays between -1 and the number of tasks, so that the 32-bit word never wraps |
| `FastLock.SignalHandsOver` | lib/libtk/fastlock.c:78-83 | Every contended Unlock hands over exactly one token, and no signal is refused |
| `FastLock.NoLostWakeup` | lib/libtk/fastlock.c:68-83 | While a task waits, another is inside, is about to signal, or a task about to wait will get the token |
| `FastLock.UnlockSignalsIffContended` | lib/libtk/fastlock.c:78-83 | An Unlock makes a semaphore call exactly when somebody is counted in behind it |
| `FastLock.CallsMoveOn` | lib/libtk/fastlock.c:37-83 | After any run: a Lock is inside at once exactly if nobody is counted in, a wait takes the token exactly if the semaphore has it, an Unlock is out at once exactly if nobody waits, and a signal lets the first in line in |

## Left out

- MutexCalls.MutexKernel.DelMtx: when the holder's fall comes round, the priority it is left with is said to be too high, not which one it is.
- MutexCalls.MutexKernel.CreTsk: the task's control block is a parameter; `TaskStates.Tasks.CreTsk` takes it off the free list.
- HeapKernel.Heap.Imalloc: for requests up to MAX_ALLOCATE; above, the code subtracts out of the range of its type.
- HeapKernel.Heap.Free: the address must be that of a block in use; the code cannot tell other addresses apart, except for the flag test of `RelBlk`.
- TimerKernel.TimerQueue.TimerHandler: callbacks are lists of requests to arm and cancel events within the comparable range; what else they do is in the other modules.
- CoreMasks.MaskIsWord: for the two low bits, which are all a mask of this kernel has.
- TimerKernel.TimerQueue.TimerDelete: finds the event by its number, where the code unlinks it through its own links; `Rings.Links.QueRemove` is that unlinking.
- HeapKernel.Heap.AppendFreeArea: the free queue is a sequence of groups of equal size; the links by which a group hangs from its first area (a NULL mark, a size kept in a link word) are not modelled, only the header links are (`HeapLinks`).
- HeapKernel.Heap.RemoveFreeQue: as for `AppendFreeArea`, the promotion of the second area of a size is the change of the group, not of its links.
- HeapKernel.Heap.RelBlk: the address must be one at which an area begins, which the code does not test.
- MemoryPool.Pool.RelMpl: as for `RelBlk`, for addresses inside the pool.
- Ownership.MirrorsKept: for single steps; where `TaskLife` ends a task and changes the slots at once, the scheduler writes them one by one.
- TaskStates.Tasks.ChangeTaskPriority: the new place in the line is a parameter, as in `MakeWait`.
- TaskStates.Tasks.MakeWait: the place in the line is a parameter; `WaitLine` and `MutexKernel` compute it.
- EventFlags.EventFlag.SetFlg: the pattern is the set of its one bits; the width of the word plays no part.
- FastLock.MutualExclusion: waits are not released by force (a released waiter would go on without the lock).
- TaskStates.Tasks.SusTsk: whether the task holds an object lock is a parameter, as in `TerTsk`.
- Object locks (`klock.c`) and the fixed-size pool built on them, including their part of the ready queue.
- Deletion of semaphores, event flags, message buffers and pools beyond `WaitDelete`, and all reference and debug queries: easy members.
- The public spinlock and atomic wrappers of section 5.6 of the SMP T-Kernel specification: single atomic operations.
- `knl_Icalloc` and `knl_Irealloc`: compositions of the calls modelled.
- `knl_smp_assign_task` of smp_dispatch.c, which the global assignment replaced.
- E_NOEXS, E_ID and context checks outside the mutex and task calls: the other modules model one object that exists, called from a proper context.
- Waits of several kinds at once in one state: each object's module models its own line; `TaskStates` models the rings of all of them without the objects' counts and patterns.
- The 64-bit system clock is unbounded; 2^64 milliseconds do not pass.
- Mailboxes, rendezvous, the device manager, drivers, board support, network sessions and tools.
