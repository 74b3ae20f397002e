# Proofs about the kernel's hand-off, DMA, filesystem and memory code

This project models the parts of the kernel whose correctness depends on many steps agreeing with
each other, and proves what they promise for every input, every run or every reachable state:

- the SMP scheduler hand-off (`Scheduler`, `SchedulerSafety`, `SchedulerLaws`,
  `SchedulerProgress`),
- the blocking mutex (`BlockingMutex`),
- the SD/MMC IDMAC driver: transfer lifecycle and DMA memory (`IdmacTrace`, `SdMmcDriver`),
  what a successful transfer has seen (`TransferEvidence`), descriptor chain (`IdmacChain`),
  completion record (`IdmacCompletion`, `IdmacFreshness`), record and validation together
  (`IdmacReport`), block chunking (`BlockTransfer`), its transfers (`BlockDriver`) and what their
  commands do to the card (`CardCommands`), command flags and status bits (`SdRegisters`),
- reference counting in the in-memory filesystem (`TmpFs`),
- the epoll ready queue (`Epoll`) and futex wait queues (`Futex`),
- address-space walks and kernel access to user memory (`AddrSpace`, `PageWalk`),
- the pipe ring buffer (`Pipe`) and the iovec cursor (`IoVec`),
- the bitmap page allocator and its bit-mask alignment (`Bitmap`, `Bits`).

`dafny verify dfyconfig.toml` checks the whole project.

## How the code is modelled

Three components are protocols between CPUs, threads or an interrupt handler: the scheduler, the
mutex and the IDMAC completion record. Each is a transition system in which an access to a register,
an atomic or a queue that another agent can see is one step (writes that only their own CPU reads
are folded into the step before them), atomics are sequentially consistent, and steps of different
agents interleave freely; the theorems quantify over all runs. The futex module has both: the queue
as a class, and a transition system over any number of queues, of which every call of the class is
a step.

The other components are classes with the source's fields, or methods with the source's loops, and
each method is proved against a statement of its effect. What hardware, user memory, a file, a
backend, an allocator or a clock answers is a parameter, so a theorem covers every answer. A ghost
history (the driver's trace, the epoll record, the pipe's byte streams) records effects so that
temporal promises can be stated over whole runs; no code reads it. A method called `Session` runs
any list of calls and states what holds at the end.

Where a sum of addresses or lengths can overflow it wraps, as in a release build; counters such as
generations and link counts are unbounded.

Where code and comments disagree the code is followed. Eight results say where a property that one
might expect does not hold, give an input, and say exactly when it does hold:

- a completion event can be lost by the descriptor-unavailable resume
  (`IdmacCompletion.ResumeCanLoseAnEvent`); an event is kept throughout a run if and only if each
  resume that wipes it finds it recorded or being recorded (`IdmacCompletion.KeptIffSpared`);
- a status report can miss an event that has been raised and not lost
  (`IdmacCompletion.ReportCanMissAnEvent`); it does if and only if the handler holds the event alone
  at the live read and has not recorded it when the record is loaded (`IdmacCompletion.MissesRIff`,
  `IdmacCompletion.MissesIIff`);
- the record can show an event that was raised before the transfer
  (`IdmacFreshness.StaleEventCanBeRecorded`); it has such an event if and only if it had it when the
  transfer became active or the handler under way then has recorded it since
  (`IdmacFreshness.StaleIffR`, `IdmacFreshness.StaleIffI`);
- `rename` onto an existing name can empty a renamed directory (`TmpFs.RenameCanEmptyADirectory`);
  it is a pure move if and only if no node on a non-empty directory is dropped on the way
  (`TmpFs.RenameMovesIff`);
- a futex wake can be spent on a waiter that has given up (`Futex.WakeCanBeSpentInVain`); it reaches
  as many as it may if and only if it takes no such waiter or leaves none behind that still waits
  (`Futex.WakeIsWellSpentIff`);
- `remaining` of an iovec cursor can differ from total minus consumed (`IoVec.RemainingCanWrap`); it
  is exact if and only if the rest fits a `usize` (`IoVec.Cursor.Remaining`);
- `dealloc_pages` can break the allocator's accounts (`Bitmap.FreeingBelowTheRegion`); it keeps them
  if and only if what it frees lies in the region (`Bitmap.BitmapPageAllocator.DeallocPages`);
- `init` can accept a range whose rounding wraps
  (`Bitmap.BitmapPageAllocator.AcceptsAWrappedRange`); the region is what the range holds if and only
  if it does not (`Bitmap.BitmapPageAllocator.Init`).

## Model

| member | source | states |
|---|---|---|
| `SchedulerSafety.EveryRunIsSafe` | modules/axtask/src/run_queue.rs:234-571 | in every state of every run of any number of interleaved CPUs, booting one by one, and any wakers, each task is at exactly one place (current, being switched to, in one queue once, claimed by one waker, held by a migration task, blocked, exited, idle) with the matching state word; no two CPUs share a current task or an execution context; the `is_running` and `is_ready` assertions hold, idle task included; a blocked task with its wake flag set has a waker under way |
| `SchedulerSafety.EnqueuedFromOutsideIsSaved` | modules/axtask/src/run_queue.rs:460-487 | whenever a waker or a migration task puts a task into a queue, no CPU still runs on that task's context, although the waker read `on_cpu` in an earlier step |
| `SchedulerSafety.StepKeepsInv` | modules/axtask/src/run_queue.rs:453-571 | every one of the twenty steps keeps the invariant that ties places, `on_cpu`, `PREV_TASK`, current pointers and stacks together, and moves the tasks where `Shift` says and no others |
| `SchedulerSafety.CpuStepKeeps` | modules/axtask/src/run_queue.rs:286-571 | the steps of a CPU on its own task (yield and preempt, block, exit, the start of a migration, pick, and the parts of `switch_to`) move the tasks where `Shift` says (block: asleep, exit: dead, put: into the own queue, and so on) and keep the agreement of `on_cpu`, `PREV_TASK`, current pointers and stacks |
| `SchedulerSafety.OutsideStepKeeps` | modules/axtask/src/run_queue.rs:234-270 | the steps that reach a task from outside (spawn, `migrate_entry`, the wake flag, and the compare-and-swap, the `on_cpu` read and the enqueue of a waker) do the same |
| `SchedulerSafety.MigratedTaskIsOff` | modules/axtask/src/task.rs:542-547 | a migration task runs its entry only after the context of the task it holds has been left on every CPU |
| `SchedulerSafety.WakesKept` | modules/axtask/src/future/mod.rs:41-85 | no step makes a blocked task with a set wake flag lose its last waker |
| `SchedulerSafety.NoTwinsKept` | modules/axtask/src/run_queue.rs:234-246 | no step puts a task into a queue that already holds it |
| `SchedulerSafety.ContextsSafe` | modules/axtask/src/run_queue.rs:511-571 | the invariant implies that execution contexts are exclusive and that a picked task's context is free |
| `SchedulerSafety.InitKeeps` | modules/axtask/src/run_queue.rs:638-664 | the state that initialisation leaves on the first CPU satisfies the invariant |
| `SchedulerSafety.BootPlaced` | modules/axtask/src/run_queue.rs:666-684 | a CPU that boots while the others run leaves every task at its place |
| `SchedulerSafety.BootOn` | modules/axtask/src/run_queue.rs:666-684 | and keeps the agreement of `on_cpu`, `PREV_TASK`, current pointers and stacks |
| `SchedulerSafety.ClaimPlaced` | modules/axtask/src/run_queue.rs:460-463 | a waker whose compare-and-swap succeeds is from then on the only place of the task |
| `SchedulerSafety.ClaimOn` | modules/axtask/src/run_queue.rs:460-463 | and the agreement of `on_cpu` and current pointers is kept, although the task's context may still be in use |
| `SchedulerLaws.DeadIffExited` | modules/axtask/src/run_queue.rs:356-386 | over every run a task is dead if and only if it has made the store of `exit_current` at some earlier step |
| `SchedulerLaws.SleepsUntilClaimed` | modules/axtask/src/run_queue.rs:394-420 | over every run a task that blocks sleeps until a waker for it makes its compare-and-swap, and nothing else wakes or ends it |
| `SchedulerLaws.ClaimIsKept` | modules/axtask/src/run_queue.rs:460-480 | the waker whose compare-and-swap finds the task asleep alone holds it until its own enqueue, and keeps its target queue |
| `SchedulerLaws.EnqueueEndsClaim` | modules/axtask/src/run_queue.rs:460-487 | that enqueue leaves the task in the queue the waker chose when it was called |
| `SchedulerLaws.FlaggedIffWoken` | modules/axtask/src/future/mod.rs:41-85 | over every run the wake flag of a task is set if and only if a waker has set it since the task last reset it, and a task whose flag is set does not block |
| `SchedulerLaws.IdleIsLast` | modules/axtask/src/run_queue.rs:491-509 | over every run a CPU turns to its idle task only when no task is in its queue |
| `SchedulerProgress.SpinIsBounded` | modules/axtask/src/run_queue.rs:465-480 | over every run, while a waker spins on `on_cpu` there is one CPU that still refers to its task; in all that time this CPU takes at most five steps, it can always take one, and its sixth clears the flag, whatever the other CPUs and wakers do |
| `SchedulerProgress.SomeCpuAbandons` | modules/axtask/src/run_queue.rs:511-571 | a claimed task whose `on_cpu` is set is being left by a CPU that has already given it up |
| `SchedulerProgress.StepApproaches` | modules/axtask/src/run_queue.rs:511-571 | each step of that CPU brings it one nearer to clearing the flag, and no other step sets it back |
| `SchedulerProgress.CanStep` | modules/axtask/src/run_queue.rs:490-571 | that CPU is never stuck |
| `BlockingMutex.EveryRunIsSafe` | modules/axsync/src/mutex.rs:67-130 | over every run at most one thread holds the mutex, the owner id is the holder's, and if the mutex is free while some thread waits un-notified then another thread is active in `lock`, notified, or about to notify (what each call does is said by the next rows) |
| `BlockingMutex.InsideIffCalled` | modules/axsync/src/mutex.rs:67-109 | over every run a thread loops, listens or parks if and only if it has called `lock` and has not become the owner since |
| `BlockingMutex.TryLockNeverWaits` | modules/axsync/src/mutex.rs:111-119 | over every run a thread that has called `try_lock` alone has never waited: it is outside, holds the mutex or is about to notify, and is in no listener list |
| `BlockingMutex.SpinsTenTimesFirst` | modules/axsync/src/mutex.rs:35-49 | over every run a thread registers as a listener after exactly ten spins of this call of `lock` |
| `BlockingMutex.GoesByItsLastLook` | modules/axsync/src/mutex.rs:72-108 | over every run a thread inside `lock` tries to take the mutex if its last look found it free, and spins or registers if it found an owner |
| `BlockingMutex.OwnerLaw` | modules/axsync/src/mutex.rs:67-130 | the owner changes only from nobody to the thread that takes the mutex, and back to nobody by the unlock of its holder; a `try_lock` takes a free mutex and changes nothing otherwise |
| `BlockingMutex.ParkedUntilNotified` | modules/axsync/src/mutex.rs:98-108 | over every run a thread that saw an owner after registering stays parked until an unlock, or a listener that leaves, hands it a notification |
| `BlockingMutex.QuiescentMeansNoWaiter` | modules/axsync/src/mutex.rs:67-130 | in a state where every thread is outside or waits un-notified and the mutex is free, nobody waits |
| `BlockingMutex.WaitedForMutexIsTaken` | modules/axsync/src/mutex.rs:67-109 | whenever a thread waits un-notified on a free mutex, an unlock has its notification still to issue or a thread already inside becomes the owner in at most three steps, all its own |
| `BlockingMutex.NotificationReachesSomebody` | modules/axsync/src/mutex.rs:121-130 | whatever listeners `notify(1)` picks, an active or notified thread remains if anybody waits afterwards |
| `BlockingMutex.ActiveThreadTakesIt` | modules/axsync/src/mutex.rs:35-109 | a thread inside `lock` that does not wait un-notified becomes the owner of a free mutex within three steps of its own, through spin, registration, re-check or wake-up |
| `BlockingMutex.StepKeepsNobodyStranded` | modules/axsync/src/mutex.rs:67-130 | every step keeps the no-stranded-waiter property |
| `SdRegisters.Build` | modules/simple-sdmmc-extended/src/cmd.rs:91-150 | a command expects data exactly when it carries a buffer, data commands expect an R1 response, the write flag is set exactly for writes, and auto-stop is requested exactly for multi-block transfers |
| `IdmacCompletion.KeptIffSpared` | modules/simple-sdmmc-extended/src/sdmmc.rs:1789-1797 | over every interleaving of handler, driver, waiter and controller: at every point an event of IDSTS raised since `begin_transfer` is in the live register, in the snapshot of this generation, or in the locals of a handler that will record it there, if and only if each resume that wipes it finds it in that snapshot or in those locals |
| `IdmacCompletion.CompletionsSurvive` | modules/simple-sdmmc-extended/src/sdmmc.rs:1789-1797 | so resumes that wipe nothing but DU lose no completion event |
| `IdmacCompletion.RunKeepsR` | modules/simple-sdmmc-extended/src/sdmmc.rs:2099-2159 | an event of RINTSTS is kept in the same sense on every run |
| `IdmacCompletion.LosesNothingIffGuarded` | modules/simple-sdmmc-extended/src/sdmmc.rs:1789-1797 | the same for all events of both registers together |
| `IdmacCompletion.ResumeIsExact` | modules/simple-sdmmc-extended/src/sdmmc.rs:406-419 | the write-back of the resume loses an event if and only if it wipes it while it is neither recorded nor being recorded |
| `IdmacCompletion.ReportIsReadsAndLoads` | modules/simple-sdmmc-extended/src/sdmmc.rs:1835-1847 | a report made by two live reads and four loads is exactly the live bits and what the loads found recorded for this generation, which is at least what was recorded at the live reads; the re-check of the tag never discards it |
| `IdmacCompletion.MissesRIff` | modules/simple-sdmmc-extended/src/sdmmc.rs:1835-1847 | it misses a RINTSTS event raised before its live read if and only if the handler then held it alone and has not recorded it when the record is loaded |
| `IdmacCompletion.MissesIIff` | modules/simple-sdmmc-extended/src/sdmmc.rs:1835-1847 | the same for IDSTS and events that no resume has lost |
| `IdmacCompletion.ReportMissesOnlyWhatIsInHand` | modules/simple-sdmmc-extended/src/sdmmc.rs:1835-1847 | so with no handler running at the two live reads it contains all, whatever handlers do in between and afterwards |
| `IdmacCompletion.ReportCanMissAnEvent` | modules/simple-sdmmc-extended/src/sdmmc.rs:1835-1847 | a run in which the report misses an event because the handler has cleared it and not recorded it |
| `IdmacFreshness.StaleIffR` | modules/simple-sdmmc-extended/src/sdmmc.rs:70-105 | over every run: an event of RINTSTS that the transfer has not raised is in the record if and only if it was there when the transfer became active, or the handler under way then has put it there since |
| `IdmacFreshness.StaleIffI` | modules/simple-sdmmc-extended/src/sdmmc.rs:70-105 | the same for IDSTS |
| `IdmacFreshness.StaleEventCanBeRecorded` | modules/simple-sdmmc-extended/src/sdmmc.rs:70-105 | a run in which the record of a transfer that has raised nothing shows a receive interrupt from before |
| `IdmacFreshness.ReportsNothingElse` | modules/simple-sdmmc-extended/src/sdmmc.rs:70-105 | if no handler runs while a transfer begins, the record and every report of it show events of this transfer only |
| `IdmacFreshness.LateHandlerShowsNothing` | modules/simple-sdmmc-extended/src/sdmmc.rs:79-91 | a handler that loaded the generation of an earlier transfer leaves a record that no report of this one takes |
| `IdmacFreshness.ClearedUntilRaisedR` | modules/simple-sdmmc-extended/src/sdmmc.rs:1634-1636 | the stale bits that are written back before a transfer, and no others, are out of RINTSTS until the controller raises them again |
| `IdmacFreshness.ClearedUntilRaisedI` | modules/simple-sdmmc-extended/src/sdmmc.rs:1638-1648 | the same for IDSTS |
| `IdmacFreshness.FlagIffErrorFound` | modules/simple-sdmmc-extended/src/sdmmc.rs:2113-2118 | over every run the error flag is set if and only if a handler has found an error since the driver last reset it |
| `IdmacFreshness.ErrorShowsR` | modules/simple-sdmmc-extended/src/sdmmc.rs:1849-1856 | an error of RINTSTS raised before the live read of a report is in the report or the error flag is set when it is loaded afterwards, although the report alone may miss it |
| `IdmacFreshness.ErrorShowsI` | modules/simple-sdmmc-extended/src/sdmmc.rs:1849-1856 | the same for an error of IDSTS that no resume has wiped |
| `IdmacCompletion.HandlerAcknowledges` | modules/simple-sdmmc-extended/src/sdmmc.rs:2104-2149 | the handler clears every IDSTS bit it has read and, if it has read a noteworthy event, every RINTSTS bit it has read but command done, card detect and SDIO; it clears nothing else |
| `IdmacReport.TerminalEventsValidate` | modules/simple-sdmmc-extended/src/sdmmc.rs:1902-1936 | once the controller has raised every terminal event of the command and no error, a report whose live reads meet no running handler ends the wait and passes validation |
| `IdmacReport.RunStaysClean` | modules/simple-sdmmc-extended/src/sdmmc.rs:2113-2121 | no error bit and no error flag appears that the controller has not raised |
| `IdmacCompletion.RunKeepsRecord` | modules/simple-sdmmc-extended/src/sdmmc.rs:70-105 | on every run the tag never runs ahead of the generation, and nothing has been recorded for this generation while a handler that loaded an older one is on its way |
| `IdmacCompletion.ResumeCanLoseAnEvent` | modules/simple-sdmmc-extended/src/sdmmc.rs:1789-1797 | a concrete run in which the resume wipes a receive-complete event |
| `IdmacChain.ControlWordReadsBack` | modules/simple-sdmmc-extended/src/dma.rs:152-160 | each flag written into descriptor word 0 is read back from its own bit, for all seven flags |
| `IdmacChain.WriteChain` | modules/simple-sdmmc-extended/src/sdmmc.rs:1686-1711 | the descriptor loop leaves descriptor i owned, with segment i of the buffer (non-empty, at most 4096 bytes), FS exactly on the first, LD exactly on the last, chained to descriptor i + 1, and no 32-bit sum overflows |
| `IdmacChain.BuildChain` | modules/simple-sdmmc-extended/src/sdmmc.rs:1666-1711 | the published array has that layout for every accepted length and address |
| `IdmacChain.WalkMovesTheBuffer` | modules/simple-sdmmc-extended/src/sdmmc.rs:1654-1716 | walking the list from DBADDR moves exactly the bytes [bus, bus + len) in order, all below 2^32, and visits each descriptor once |
| `IdmacChain.WalkTail` | modules/simple-sdmmc-extended/src/dma.rs:136-180 | the same from any descriptor on: the rest of the buffer and the rest of the descriptors |
| `IdmacChain.WalkNeedsEveryDescriptor` | modules/simple-sdmmc-extended/src/sdmmc.rs:1686-1711 | the walk ends at no earlier descriptor |
| `IdmacTrace.AcceptedFreesSafely` | modules/simple-sdmmc-extended/src/sdmmc.rs:456-549 | in a trace that keeps the rules, memory handed to the IDMAC is freed only after a completed reset or full terminal evidence in between; memory held when a reset fails is never freed; nothing is freed twice |
| `IdmacTrace.MonitorHasCommands` | modules/simple-sdmmc-extended/src/sdmmc.rs:1760-1764 | the monitor lists the commands of the starts in the trace, in order |
| `IdmacTrace.AcceptedFailsStop` | modules/simple-sdmmc-extended/src/sdmmc.rs:295-344 | in such a trace with nothing pending, each started transfer ended in full evidence for that very transfer or in a fault, and after a fault nothing is published or started |
| `IdmacTrace.FreedOnlyAfterRelease` | modules/simple-sdmmc-extended/src/sdmmc.rs:516-549 | between handing memory to the IDMAC and freeing it there is a completed reset or full terminal evidence |
| `IdmacTrace.AbandonedIsNeverFreed` | modules/simple-sdmmc-extended/src/sdmmc.rs:516-532 | memory the IDMAC holds when a reset fails is not freed at any later point |
| `IdmacTrace.NothingStartsAfterFault` | modules/simple-sdmmc-extended/src/sdmmc.rs:1621-1624 | no publication and no start after a fault |
| `IdmacTrace.EveryStartSettles` | modules/simple-sdmmc-extended/src/sdmmc.rs:2005-2096 | finds the event that settles a start |
| `IdmacTrace.FreedIsGone` | modules/simple-sdmmc-extended/src/sdmmc.rs:483-496 | freed memory is neither freed again nor handed to the IDMAC |
| `SdMmcDriver.PollUntil` | modules/simple-sdmmc-extended/src/sdmmc.rs:1940-1969 | the wait loop succeeds exactly when its condition is seen before the deadline and before a drop of the future, and is abandoned exactly when the drop comes first |
| `SdMmcDriver.WaitTransfer` | modules/simple-sdmmc-extended/src/sdmmc.rs:1939-2003 | ends as the reference verdict says, phase by phase; completes exactly when command phase and data phase are reached and no error is seen after either; which bits these are is said by `TransferEvidence` |
| `SdMmcDriver.Judge` | modules/simple-sdmmc-extended/src/sdmmc.rs:1902-1937 | a transfer passes exactly with a completed wait and full evidence: command done, auto-stop if requested, RI for a read or TI for a write, DTO, no error, no OWN, no CES, clean R1 |
| `SdMmcDriver.VerdictIsOk` | modules/simple-sdmmc-extended/src/sdmmc.rs:1616-1751 | over every state of the driver and every behaviour of the hardware, the reference verdict is Ok exactly for an unfaulted driver and hardware that accepts, reads back, starts, completes and leaves full evidence |
| `SdMmcDriver.RefusedIff` | modules/simple-sdmmc-extended/src/sdmmc.rs:1616-1664 | an error is one of those before publication if and only if the driver was faulted or the transfer was not acceptable |
| `TransferEvidence.OkShows` | modules/simple-sdmmc-extended/src/sdmmc.rs:1902-1936 | a transfer reported Ok was a read or write of 1 to 16384 bytes below 2^32 that read back and started, with CommandDone, DataTransferOver, RI for the reads and TI for the writes, AutoCommandDone for several blocks, none of the ten RINTSTS and four IDSTS error bits at any of the three looks, nothing owned, no card error and no bit of 0xfff98088 in R1 |
| `TransferEvidence.ShownIsOk` | modules/simple-sdmmc-extended/src/sdmmc.rs:1849-2003 | conversely an unfaulted driver whose controller begins so and shows these bits in polls before deadline and drop returns Ok with its R1 |
| `TransferEvidence.ErrorsAre` | modules/simple-sdmmc-extended/src/sdmmc.rs:1616-1816 | the error for a faulted driver, a busy command or data line, a refused start and an unavailable descriptor, with and without a completed reset |
| `TransferEvidence.SendShows` | modules/simple-sdmmc-extended/src/sdmmc.rs:2005-2096 | both directions of a call of the driver itself |
| `SdMmcDriver.WaitCardReady` | modules/simple-sdmmc-extended/src/sdmmc.rs:1116-1216 | ends with the first deciding round; succeeds exactly when CMD13 reports the card ready before a failed CMD13, the deadline or a drop |
| `SdMmcDriver.SdMmc.Finish` | modules/simple-sdmmc-extended/src/sdmmc.rs:516-549 | frees the descriptor array, except that a failing abort reset keeps it and marks the driver faulted and reset-failed |
| `SdMmcDriver.SdMmc.Abort` | modules/simple-sdmmc-extended/src/sdmmc.rs:551-561 | faults the driver first; the error is replaced by `RecoveryFailed` exactly when the reset fails |
| `SdMmcDriver.SdMmc.Expose` | modules/simple-sdmmc-extended/src/sdmmc.rs:1686-1717 | publishes a chain with the proved layout; from here the IDMAC holds descriptor array and buffer |
| `SdMmcDriver.SdMmc.Publish` | modules/simple-sdmmc-extended/src/sdmmc.rs:1666-1750 | succeeds exactly when the addresses fit and DBADDR, BYTCNT and OWN read back; otherwise nothing is started and nothing leaks |
| `SdMmcDriver.SdMmc.Prepare` | modules/simple-sdmmc-extended/src/sdmmc.rs:1616-1751 | refuses a faulted driver without any effect; ready exactly for an acceptable command on an idle, unfaulted controller that reads back; otherwise the error of the first check that fails |
| `SdMmcDriver.SdMmc.Start` | modules/simple-sdmmc-extended/src/sdmmc.rs:1753-1833 | a refused start leaves the driver faulted and the memory accounted for |
| `SdMmcDriver.SdMmc.Settle` | modules/simple-sdmmc-extended/src/sdmmc.rs:2005-2096 | ends in Ok with the evidence on record, or in a fault followed by the abort, also when the future is dropped |
| `SdMmcDriver.SdMmc.Perform` | modules/simple-sdmmc-extended/src/sdmmc.rs:2056-2096 | once started, a transfer succeeds or faults the driver |
| `SdMmcDriver.SdMmc.Send` | modules/simple-sdmmc-extended/src/sdmmc.rs:2005-2096 | returns exactly the reference verdict; Ok if and only if the driver was unfaulted and the hardware behaved as `Smooth` says, and then with exactly the five events of a complete transfer; the command is on record exactly if it was submitted; an error without a fault means nothing was started; no descriptor leaks unless a reset failed |
| `SdMmcDriver.SdMmc.Chunk` | modules/simple-sdmmc-extended/src/sdmmc.rs:1052-1102 | the same for a block chunk, with the missing-buffer and bus-address errors in front; the command sent is the single- or multiple-block read or write of that block and length |
| `SdMmcDriver.SdMmc.WriteChunk` | modules/simple-sdmmc-extended/src/sdmmc.rs:1218-1238 | a written chunk is Ok if and only if the transfer is and the card becomes ready; every other outcome after a start faults the driver; the command sent is the write of that block and length |
| `SdMmcDriver.SpinUntilIdle` | modules/simple-sdmmc-extended/src/sdmmc.rs:1104-1114 | the synchronous busy wait ends well exactly when the data line is seen idle before the deadline |
| `SdMmcDriver.SdMmc.WriteChunkAsync` | modules/simple-sdmmc-extended/src/sdmmc.rs:1240-1260 | the same for the asynchronous form, including drops at every suspension point |
| `SdMmcDriver.SdMmc.Disable` | modules/simple-sdmmc-extended/src/sdmmc.rs:498-514 | the rollback frees the buffer just allocated, or keeps it and faults the driver |
| `SdMmcDriver.SdMmc.TryEnable` | modules/simple-sdmmc-extended/src/sdmmc.rs:1393-1585 | exact new buffer and flags; a fault is never cleared and nothing is started |
| `SdMmcDriver.SdMmc.ReleaseBuffer` | modules/simple-sdmmc-extended/src/sdmmc.rs:483-496 | frees the buffer once, or keeps it when its layout is invalid |
| `SdMmcDriver.SdMmc.Drop` | modules/simple-sdmmc-extended/src/sdmmc.rs:2165-2182 | after a failed reset the buffer is retained for good |
| `SdMmcDriver.Session` | modules/simple-sdmmc-extended/src/sdmmc.rs:1263-1372 | for any calls with any hardware behaviour and then the drop, the whole trace frees safely and fails stop; every cancelled transfer leaves a fault |
| `BlockDriver.ReadBlocks` | modules/simple-sdmmc-extended/src/sdmmc.rs:1263-1282 | `read_blocks` down to the transfers: it fills the buffer as if each block had been read on its own if and only if the driver is usable and the hardware carries every chunk through; the commands then started are reads whose blocks in order are exactly the request, and the buffer is what they deliver; otherwise exactly the chunks before the first that is not carried are in place; a faulted driver refuses and does nothing |
| `BlockDriver.WriteBlocks` | modules/simple-sdmmc-extended/src/sdmmc.rs:1312-1326 | the same for `write_blocks`: the commands started are writes that cover the request, and the card holds what they store; only the blocks of the first chunk that is not carried can be in doubt, and none if that chunk did not fault the driver |
| `BlockDriver.Carry` | modules/simple-sdmmc-extended/src/sdmmc.rs:1052-1076 | the transfers of a request stop at the first chunk that fails, and as long as chunks go well the driver stays as it was |
| `BlockDriver.CutsFollowPlan` | modules/simple-sdmmc-extended/src/sdmmc.rs:1265-1281 | the chunks on the driver and on the bytes are the same |
| `BlockDriver.MovedReads` | modules/simple-sdmmc-extended/src/sdmmc.rs:1066-1070 | the reads issued for a whole plan cover the request and deliver what reading block by block does |
| `BlockDriver.MovedWrites` | modules/simple-sdmmc-extended/src/sdmmc.rs:1231-1235 | the writes issued for a whole plan cover the request and store what writing block by block does |
| `CardCommands.CoveringReadsDeliver` | modules/simple-sdmmc-extended/src/sdmmc.rs:1263-1282 | read commands that cover a request in order deliver exactly its bytes of the card |
| `CardCommands.CoveringWritesStore` | modules/simple-sdmmc-extended/src/sdmmc.rs:1312-1326 | write commands that cover a request in order replace exactly its bytes |
| `BlockDriver.WriteThenRead` | modules/simple-sdmmc-extended/src/sdmmc.rs:1263-1326 | what was written through the driver is read back through it, and a write that faults the driver makes the read fail without touching the buffer |
| `BlockTransfer.TilesCoverOnce` | modules/simple-sdmmc-extended/src/sdmmc.rs:1263-1282 | in a tiling every block of the request belongs to exactly one chunk |
| `BlockTransfer.ValidMeans` | modules/simple-sdmmc-extended/src/sdmmc.rs:1038-1050 | a request is valid for n blocks if and only if it is n > 0 whole blocks that all are blocks of the card with a 32-bit number |
| `BlockTransfer.ChunkSizes` | modules/simple-sdmmc-extended/src/sdmmc.rs:1265-1281 | single blocks for reads of fewer than four, otherwise as many as are left up to 32 |
| `BlockTransfer.ReadIsOneByOne` | modules/simple-sdmmc-extended/src/sdmmc.rs:1263-1282 | reading blocks one at a time yields the contiguous stretch of the card |
| `BlockTransfer.WriteIsOneByOne` | modules/simple-sdmmc-extended/src/sdmmc.rs:1312-1326 | writing blocks one at a time replaces exactly that stretch |
| `BlockTransfer.WrittenIsReadBack` | modules/simple-sdmmc-extended/src/sdmmc.rs:1263-1326 | what is written is read back, whatever the two chunkings are |
| `BlockTransfer.Card.ReadDmaChunk` | modules/simple-sdmmc-extended/src/sdmmc.rs:1052-1076 | fills exactly its part of the buffer, and only on success |
| `BlockTransfer.Card.WriteDmaChunk` | modules/simple-sdmmc-extended/src/sdmmc.rs:1218-1238 | replaces exactly its blocks; a failure can disturb no other block |
| `BlockTransfer.Card.ReadChunks` | modules/simple-sdmmc-extended/src/sdmmc.rs:1265-1281 | the chunk loop: chunks of 1 or 4 to 32 blocks, each as large as it can be, tile the blocks done; the error is that of the first failing chunk; the next block number stays below 2^32 |
| `BlockTransfer.Card.ReadBlocks` | modules/simple-sdmmc-extended/src/sdmmc.rs:1263-1282 | equals the block-by-block read for every valid request; on an error the earlier chunks are in place and the rest of the buffer is untouched; exactly the invalid requests are refused |
| `BlockTransfer.Card.WriteChunks` | modules/simple-sdmmc-extended/src/sdmmc.rs:1314-1325 | the chunk loop: chunks of 1 to 32 blocks, each as large as it can be, tile the blocks done; the error is that of the first failing chunk |
| `BlockTransfer.Card.WriteBlocks` | modules/simple-sdmmc-extended/src/sdmmc.rs:1312-1326 | equals the block-by-block write; after an error only the failed chunk is undefined |
| `TmpFs.LivesWhileReferenced` | kernel/src/pseudofs/tmp.rs:99-106 | between calls a slot is taken exactly while an entry or an open node refers to the inode, and `nlink` is the number of those entries |
| `TmpFs.FreedAtLastRelease` | kernel/src/pseudofs/tmp.rs:99-106 | a release frees the slot exactly when it is the last reference of any kind, and the subtraction does not underflow |
| `TmpFs.ReleaseKeeps` | kernel/src/pseudofs/tmp.rs:99-106 | `release_inode` keeps all accounts and the directory tree |
| `TmpFs.Detach` | kernel/src/pseudofs/tmp.rs:423-424 | taking an entry out of a directory leaves one pending reference to its target |
| `TmpFs.Attach` | kernel/src/pseudofs/tmp.rs:391-392 | inserting a pending reference makes it an entry |
| `TmpFs.Take` | kernel/src/pseudofs/tmp.rs:202-206 | `InodeRef::new` makes a pending reference |
| `TmpFs.Insert` | kernel/src/pseudofs/tmp.rs:135-172 | a new inode held by its creator keeps the accounts |
| `TmpFs.CloseNode` | kernel/src/pseudofs/tmp.rs:455-462 | dropping a node on a cleared inode frees its slot exactly when there is no link and no other node, and changes no directory |
| `TmpFs.MemoryFs.constructor` | kernel/src/pseudofs/tmp.rs:60-78 | the root directory has two links, both its own, and is open |
| `TmpFs.MemoryFs.DropRef` | kernel/src/pseudofs/tmp.rs:213-217 | dropping a reference keeps the accounts and every directory's entries |
| `TmpFs.MemoryFs.AddEntry` | kernel/src/pseudofs/tmp.rs:391-392 | exactly one entry is added |
| `TmpFs.MemoryFs.RemoveEntry` | kernel/src/pseudofs/tmp.rs:423-424 | exactly one entry is removed |
| `TmpFs.MemoryFs.ClearEntries` | kernel/src/pseudofs/tmp.rs:457-459 | clearing in any order empties this directory and changes no other |
| `TmpFs.MemoryFs.DropNode` | kernel/src/pseudofs/tmp.rs:455-462 | a dropped node's directory is empty afterwards, every other one unchanged |
| `TmpFs.MemoryFs.NewInode` | kernel/src/pseudofs/tmp.rs:135-180 | a new directory holds `.` and `..` |
| `TmpFs.MemoryFs.Lookup` | kernel/src/pseudofs/tmp.rs:369-377 | opens the entry's inode, or the exact error |
| `TmpFs.MemoryFs.Create` | kernel/src/pseudofs/tmp.rs:379-394 | adds exactly the new inode and its entries, or the exact error without effect |
| `TmpFs.MemoryFs.Link` | kernel/src/pseudofs/tmp.rs:396-409 | adds exactly one entry, or the exact error; linking a directory into itself locks its mutex twice |
| `TmpFs.MemoryFs.Unlink` | kernel/src/pseudofs/tmp.rs:411-426 | removes exactly one entry, or the exact error; an entry that refers to its own directory locks its mutex twice |
| `TmpFs.MemoryFs.Install` | kernel/src/pseudofs/tmp.rs:444-449 | insertion over an existing entry drops the replaced reference |
| `TmpFs.MemoryFs.Move` | kernel/src/pseudofs/tmp.rs:438-450 | the entry changes place and no other entry changes; if the destination is no directory the entry is lost |
| `TmpFs.MemoryFs.FindTarget` | kernel/src/pseudofs/tmp.rs:431 | the destination is found exactly if cached or an entry, and only a node got without the cache is dropped again |
| `TmpFs.MemoryFs.Compare` | kernel/src/pseudofs/tmp.rs:431-436 | the source's inode, and the destination's if its node is not kept, have no entries afterwards, every other directory has what it had; the exact errors |
| `TmpFs.MemoryFs.Rename` | kernel/src/pseudofs/tmp.rs:429-452 | the exact tree and result for every answer of the entry cache: the errors, the same-inode case, the directories emptied on the way, and the move; a successful rename between different inodes is a pure move if and only if no dropped node is on a directory with entries |
| `TmpFs.RenameMovesIff` | kernel/src/pseudofs/tmp.rs:429-452 | that equivalence from the effect alone; when both names lead to one inode nothing moves, and nothing is lost if and only if that inode has no entries |
| `TmpFs.TransferAfterClear` | kernel/src/pseudofs/tmp.rs:431-450 | clearing on the way and then moving is the stated effect |
| `TmpFs.RenameCanEmptyADirectory` | kernel/src/pseudofs/tmp.rs:429-462 | a filesystem in which a directory with a file in it arrives empty |
| `TmpFs.Session` | kernel/src/pseudofs/tmp.rs:379-462 | over every run of create, link, unlink, rename, lookup and node drop, each slot is taken exactly while referenced and `nlink` counts the entries |
| `Epoll.PopFront` | kernel/src/file/epoll.rs:369-376 | the popped interest was flagged, and the others still agree with the rest of the queue |
| `Epoll.ConsumeTwice` | kernel/src/file/epoll.rs:55-92 | an event is reported exactly when the file is ready for something asked for and the interest is not a fired one-shot; level-triggered interests stay queued; a one-shot reports once |
| `Epoll.HistoryGoesOn` | kernel/src/file/epoll.rs:66-84 | consuming an interest keeps the record in step with its trigger mode |
| `Epoll.EpollInstance.Wake` | kernel/src/file/epoll.rs:220-240 | at most one reference per live interest enters the queue |
| `Epoll.EpollInstance.Add` | kernel/src/file/epoll.rs:289-330 | registers once per key, and queues the interest exactly if one of the two polls finds it ready; what the flags mean is said by the next rows |
| `Epoll.FlagsDecide` | kernel/src/file/epoll.rs:56-92 | an interest added with any flags on a ready file is reported by the first `poll_events`, and by a second one if and only if it was added with neither EPOLLONESHOT nor EPOLLET |
| `Epoll.LevelKeepsComing` | kernel/src/file/epoll.rs:365-432 | over every run a queued interest with neither flag whose file stays ready stays queued, and every `poll_events` with room for the whole queue delivers it |
| `Epoll.EpollInstance.Round` | kernel/src/file/epoll.rs:383-424 | one round in terms of the flags of registration: a ready interest is delivered, and a delivered one is queued again if and only if it has neither flag |
| `Epoll.EpollInstance.Delete` | kernel/src/file/epoll.rs:354-363 | ends exactly that interest |
| `Epoll.EpollInstance.Remove` | kernel/src/file/epoll.rs:387-392 | an ended interest is never delivered again, while its weak reference may stay queued |
| `Epoll.EpollInstance.TakeOne` | kernel/src/file/epoll.rs:383-424 | one round of the loop, for a dead reference, a closed file and each consume result |
| `Epoll.EpollInstance.PollEvents` | kernel/src/file/epoll.rs:365-432 | the output array holds the deliveries in order and nothing else changed in it; `WouldBlock` exactly with none; slots are left free only if the queue was drained; a queued interest is still queued or was looked at; one whose file stays ready is delivered if there is room for the queue, and stays queued if and only if it was added with neither flag; terminates by (free slots, queue length) |
| `Epoll.Session` | kernel/src/file/epoll.rs:318-432 | over every run flags and queue agree, a one-shot interest is delivered at most once, and a deleted one never again |
| `Futex.WakesTheFirst` | kernel/src/task/futex.rs:73-85 | `wake` takes exactly the first min(count, matching) waiters whose bitset meets the mask; the rest keep their order |
| `Futex.WakeConserves` | kernel/src/task/futex.rs:73-85 | each waiter is woken or kept, as often as it was queued |
| `Futex.WakesOnlyMatching` | kernel/src/task/futex.rs:73-85 | every woken waiter has a bit in common with the mask, and a waiter left although the count is not used up has none |
| `Futex.CutGrows` | kernel/src/task/futex.rs:75-83 | one visit of `retain` |
| `Futex.WaitQueue.Wake` | kernel/src/task/futex.rs:73-85 | the loop computes exactly that split |
| `Futex.WaitQueue.Requeue` | kernel/src/task/futex.rs:93-104 | moves them to the end of the target in order; onto itself it is a rotation |
| `Futex.Perform` | kernel/src/task/futex.rs:46-105 | each locked section of the queue objects (`wait_if`, `wake`, and the two of `requeue`) is a step of the run system, and the objects show the new state |
| `Futex.Session` | kernel/src/task/futex.rs:46-105 | any calls on any number of queue objects make a run, so each waiter that went to sleep was woken or is still held |
| `Futex.StepConserves` | kernel/src/task/futex.rs:46-105 | every step of any thread keeps the waiters: held after plus woken equals held before plus arrived |
| `Futex.RunConserves` | kernel/src/task/futex.rs:46-105 | at every point of every run, those that went to sleep are those woken and those held |
| `Futex.WaiterIsInOnePlace` | kernel/src/task/futex.rs:93-105 | a waiter not yet woken is in exactly one queue or one requeue in flight, once |
| `Futex.StaysUntil` | kernel/src/task/futex.rs:46-105 | a waiter stays in its queue until a wake takes it or a requeue reaches it |
| `Futex.FlightIsKept` | kernel/src/task/futex.rs:93-105 | over every run the waiters of a requeue in flight stay together, with their target, until it lands |
| `Futex.RequeueArrives` | kernel/src/task/futex.rs:93-105 | and then stand at the end of the target queue, in order |
| `Futex.NoLostWakeup` | kernel/src/task/futex.rs:46-85 | a waiter that found the word unchanged came before the change, and unless a wake or a requeue took it earlier, the later wake reaches it or spends its whole count on others |
| `Futex.WakeIsWellSpentIff` | kernel/src/task/futex.rs:73-85 | a wake reaches as many waiters that still wait as it may if and only if it takes no waiter that has given up, or leaves no matching one behind that still waits |
| `Futex.WakeCanBeSpentInVain` | kernel/src/task/futex.rs:46-85 | a run in which a wake of one is spent on a waiter that has timed out while another waits |
| `AddrSpace.CanAccessRange` | kernel/src/mm/aspace/mod.rs:270-299 | true if and only if the range does not wrap and each address lies in an area with the flags (an empty range is judged by its start) |
| `AddrSpace.PopulateArea` | kernel/src/mm/aspace/mod.rs:150-177 | the backend ranges tile the request; without a backend error it succeeds if and only if there is no hole; the errors of the region check |
| `AddrSpace.TilesAreMapped` | kernel/src/mm/aspace/mod.rs:158-170 | a tiled range has no hole |
| `AddrSpace.RoundingStaysMapped` | kernel/src/mm/access.rs:55-57 | the whole pages around an accessible range are mapped |
| `AddrSpace.NearestPages` | kernel/src/mm/access.rs:55-57 | the rounded boundaries are the nearest multiples of 4096 on either side |
| `AddrSpace.ContainsMeans` | kernel/src/mm/aspace/mod.rs:58-61 | a range is contained if and only if its start and each of its bytes are addresses of the space |
| `AddrSpace.ValidateMeans` | kernel/src/mm/aspace/mod.rs:72-80 | the region check accepts exactly contained, page-aligned regions; `InvalidInput` exactly for contained ones that are not aligned |
| `AddrSpace.InsideSpace` | kernel/src/mm/aspace/mod.rs:72-80 | the page-rounded range of an accessible range passes the region check, without overflow |
| `AddrSpace.CheckRegion` | kernel/src/mm/access.rs:42-60 | `BadAddress` exactly for misaligned or inaccessible ranges; after acceptance only a backend error is possible |
| `PageWalk.Walk` | kernel/src/mm/aspace/mod.rs:193-222 | the segments are consecutive, lie in one page each and cover the range; the exact error, and the byte at which the walk stops |
| `PageWalk.EveryByteVisited` | kernel/src/mm/aspace/mod.rs:204-220 | byte i is handled at the translation of start + i |
| `PageWalk.TranslationKeepsOffsets` | kernel/src/mm/aspace/mod.rs:204-220 | the bytes of a page keep their order and their offset in it |
| `PageWalk.PagePart` | kernel/src/mm/aspace/mod.rs:208-219 | the part of one page, from the offset of `start` on in the first page |
| `PageWalk.Write` | kernel/src/mm/aspace/mod.rs:242-246 | memory equals the byte-by-byte reference for the bytes before the first unmapped page; no address outside the space is touched |
| `PageWalk.Read` | kernel/src/mm/aspace/mod.rs:230-234 | the buffer holds what memory holds at the translated addresses, and is untouched beyond; no address outside the space is read |
| `PageWalk.WrittenIsFetched` | kernel/src/mm/aspace/mod.rs:230-246 | write then read returns the written bytes where translation is injective |
| `PageWalk.WrittenElsewhere` | kernel/src/mm/aspace/mod.rs:242-246 | a write changes no byte outside the translation of its range |
| `Pipe.Ring.AsSlices` | kernel/src/file/pipe.rs:98-98 | the two slices, in order, are the buffered bytes |
| `Pipe.Ring.AdvanceRead` | kernel/src/file/pipe.rs:131-131 | drops bytes from the front, across the wrap-around |
| `Pipe.Ring.Fill` | kernel/src/file/pipe.rs:164-169 | appends the bytes put into the vacant slices, across the wrap-around |
| `Pipe.Ring.PushSlice` | kernel/src/file/pipe.rs:99-100 | appends as much as fits |
| `Pipe.CopyCount` | kernel/src/file/pipe.rs:126-130 | the second slice is copied only after a whole first, and never more than is there |
| `Pipe.LeastPages` | kernel/src/file/pipe.rs:88 | the rounded size is the least positive whole number of pages that holds the size |
| `Pipe.Shared.Read` | kernel/src/file/pipe.rs:123-142 | delivers a prefix of the buffer and consumes exactly it, all that fits a destination with any room; faults if and only if the first slice does or, taken whole, the second does, and then consumes nothing; the result when nothing is delivered |
| `Pipe.Shared.Write` | kernel/src/file/pipe.rs:145-181 | appends exactly what the source supplied; a closed pipe or a fault (of the first slice or, filled, of the second) appends nothing; returns exactly when something went in and the writer is non-blocking or done |
| `Pipe.Shared.Resize` | kernel/src/file/pipe.rs:87-102 | keeps the buffered bytes; the rounded size, or the exact refusal |
| `Pipe.Session` | kernel/src/file/pipe.rs:87-181 | over every run the bytes delivered followed by those buffered are the bytes written, and occupancy stays within capacity |
| `IoVec.Length` | kernel/src/mm/io.rs:22-36 | accepts exactly arrays of at most 1024 non-negative entries, and returns their sum modulo 2^64 |
| `IoVec.EntryInFlat` | kernel/src/mm/io.rs:91-101 | where the bytes of an entry stand in the concatenation |
| `IoVec.AddressesFollow` | kernel/src/mm/io.rs:108-120 | the bytes of an entry have consecutive addresses from its base on |
| `IoVec.Cursor.Remaining` | kernel/src/mm/io.rs:158-168 | `remaining` is total minus consumed if and only if that fits 64 bits |
| `IoVec.RemainingCanWrap` | kernel/src/mm/io.rs:22-36 | three entries of the largest length are accepted and `remaining` differs from their total |
| `IoVec.Cursor.SkipEmpty` | kernel/src/mm/io.rs:91-101 | skips used-up and empty entries without moving the position |
| `IoVec.Cursor.NextPiece` | kernel/src/mm/io.rs:108-117 | the next piece is empty only when the buffer is full or the array used up |
| `IoVec.Cursor.Read` | kernel/src/mm/io.rs:105-126 | moves exactly min(buffer, rest) bytes from the next positions of the concatenation; after a fault the position is that of the bytes moved |
| `IoVec.Cursor.Write` | kernel/src/mm/io.rs:129-150 | the same towards user memory |
| `IoVec.ReadThrough` | kernel/src/mm/io.rs:105-126 | reads of any sizes return the concatenation from its start, without gap or overlap |
| `Bits.AlignedIsMultiple` | modules/axallocator/src/lib.rs:163-165 | the mask check is divisibility, for every power of two |
| `Bits.DownIsFloor` | modules/axallocator/src/lib.rs:148-150 | the mask rounds down to a multiple |
| `Bits.UpIsCeiling` | modules/axallocator/src/lib.rs:154-156 | the mask rounds up to the next multiple |
| `Bits.AndHighMask` | modules/axallocator/src/lib.rs:148-156 | and with 2^w - 2^k clears the low k bits |
| `Bitmap.IndexAlignsAddress` | modules/axallocator/src/bitmap.rs:68-74 | an aligned index stands for an aligned address, because the base is a multiple of 1 GiB |
| `Bitmap.BitmapPageAllocator.Init` | modules/axallocator/src/bitmap.rs:60-92 | panics exactly if the bitmap does not reach from the 1 GiB boundary to the end; with wrapping arithmetic the region is the largest page-aligned range inside the given one if and only if rounding up neither wraps nor passes its end |
| `Bitmap.BitmapPageAllocator.AcceptsAWrappedRange` | modules/axallocator/src/bitmap.rs:60-92 | ranges around 2^64 that every bitmap accepts and that lead to a region at address 0 |
| `Bitmap.BitmapPageAllocator.AllocPages` | modules/axallocator/src/bitmap.rs:102-127 | hands out n free pages of the region; a multi-page result is aligned; `InvalidParam` exactly for bad parameters; `NoMemory` only if there is no such run; addresses are modulo 2^64 |
| `Bitmap.BitmapPageAllocator.AllocPagesAt` | modules/axallocator/src/bitmap.rs:130-160 | hands out exactly the pages at the address, or they are not all free; a wrapped index never aliases another page; a request for no pages takes none |
| `Bitmap.BitmapPageAllocator.DeallocPages` | modules/axallocator/src/bitmap.rs:162-177 | for every address: panics exactly if misaligned, gives back exactly the pages if the bitmap takes all of them for allocated, and keeps the accounts, without underflow of the counter, if and only if these are pages of the region |
| `Bitmap.FreeingBelowTheRegion` | modules/axallocator/src/bitmap.rs:162-177 | on every allocator whose region does not start at the 1 GiB boundary, freeing the page at the boundary succeeds, breaks the accounts, and wraps the counter if nothing was in use |
| `Bitmap.AddRange` | modules/axallocator/src/bitmap.rs:102-127 | a new allocation is apart from every live one |
| `Bitmap.RemoveRange` | modules/axallocator/src/bitmap.rs:162-177 | the pages of a live range belong to it alone |
| `Bitmap.ApartInMemory` | modules/axallocator/src/bitmap.rs:112-123 | ranges that are apart share no byte, also when addresses wrap |
| `Bitmap.Session` | modules/axallocator/src/bitmap.rs:94-183 | over every run of allocations and frees of live ranges, the live ranges are pairwise apart and inside the region and `used_pages` is the sum of their sizes |

## Left out

- SchedulerSafety.EveryRunIsSafe: time slices, priorities, preemption counters and the choice among ready tasks are not part of the model; picking is "remove one", and exit codes and joining are not stated.
- BlockingMutex.EveryRunIsSafe: fairness and time are not modelled; `notify(1)` is known only by its contract.
- IdmacFreshness.ErrorShowsR: is about transfers whose handler under way at the start, if any, has not passed its store to the error flag before the driver reset it.
- TransferEvidence.ErrorsAre: names the error for the failures before the waits; those of the waits are in `SdMmcDriver.WaitTransfer`.
- IdmacChain.WalkMovesTheBuffer: the controller is a walk bounded by a number of steps; the result is the same for every bound that is large enough, and a smaller one does not finish.
- SdMmcDriver.SdMmc.Send: clock programming, card identification and PIO commands are hardware plumbing and not modelled; a timeout is one of the answers of the hardware. That the DMA buffer is as large as a chunk is the caller's choice of size and not stated.
- BlockDriver.ReadBlocks: the driver's transfers of a request are followed before its bytes, which the source interleaves chunk by chunk; they share no state.
- BlockTransfer.Card.ReadBlocks: the asynchronous loops have the same bodies and are not repeated.
- TmpFs.MemoryFs.Rename: the directory-entry cache is library code; its answer is a parameter. File contents, permissions and times are not modelled.
- Epoll.EpollInstance.PollEvents: `modify` is left out, because it copies the ready flag to an interest the queue does not refer to; wakes during the loop and events between registration and the next poll are not covered.
- Futex.Perform: futex tables and their removal are not modelled.
- AddrSpace.PopulateArea: memory-set and page-table internals are external; sorted, disjoint, page-aligned areas are their contract.
- PageWalk.Write: the page table is constant during the walk; permissions are not looked at, as in the code.
- Pipe.Shared.Read: the early returns for the wrong end and for an empty request, blocking, wake-ups, end-of-file timing and signals are library code; one attempt is one call.
- IoVec.Cursor.Read: the user's iovec array is assumed not to change between accesses.
- Bitmap.BitmapPageAllocator.AllocPages: single-page results are not claimed to be aligned, since that path does not use the alignment; the bitmap itself is external and known by its set of free indices.
- Bitmap.BitmapPageAllocator.AllocPagesAt: whether a request for zero pages succeeds is the bitmap's answer and a parameter.
- Bitmap.Session: is about bitmaps whose pages span at most the 64-bit address space, as `Init` establishes when capacity times page size is at most 2^64.
- Bitmap.BitmapPageAllocator.DeallocPages: an index beyond the bitmap's capacity is taken to be refused by the bitmap.
- Drivers, device probing, boot, console, system-call dispatch, procfs, sockets, ELF loading, time conversions, event counters, resource limits and routing: easy or foreign code, not part of this model.
