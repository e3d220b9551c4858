# Verified model of the PTI view pipeline and its companions

This project models, in Dafny, the parts of PTI whose behaviour spans many calls, and proves what they
keep over every run.

- **View records** (`view_record_info`, `record_walk`, `view_buffer`): record bytes, the buffer that they
  are copied to, and the walk with `GetNextRecord`.
- **Record handler** (`view_handler*`): per-thread buffers, the task queue and the deliveries. One insert,
  one consumer task, one push of a flush and one registration are atomic steps. `ViewHandler` says what a
  step does, `ViewHandlerClass` does it in place. The proofs are about conservation, the promise of
  `FlushBuffers` (`_flush`, `_earlier`), order, ownership and loss of the user's memory (`_ownership`,
  `_memory`), and who gets each buffer (`_users`).
- **Consumer thread** (`consumer_thread`): the bounded queue, the run loop and the shutdown.
- **Kernel collector** (`kernel_timer`, `kernel_collector*`): command lists, pending calls, statistics, user
  events, and what completed calls are measured as on the 32-bit device timer.
- **Selection and enabling** (`granularity*`, `view_enabling*`): which functions are traced, which views of
  which threads keep the tracer on, and what exiting threads and abnormal stops leave behind.
- **External correlation** (`external_correlation*`), **overhead** (`overhead`, and `overhead_flag` for a
  flag that changes), **API ids** (`api_ids`, `api_id_generator`), **metric samples** (`metric_samples`),
  **queue properties** (`queue_properties`) and **LEB128** (`leb128`, DWARF Version 5, section 7.6).

Where the source updates state in place the model has a class or a method with the source's loops; each is
proved equal to a step function, and the theorems are about all runs of those steps. What allocators,
clocks, devices and hash-table walks answer are inputs of the steps.

## Findings

The code is modelled as it is. Where it does less than its documentation or its names suggest, the
condition under which it holds is proved, and a family of counterexamples is given.

- `FlushBuffers` can return without records that were inserted before it, and can reorder a thread's
  records, if the thread inserts while the flush waits (`FlushCanMissEarlierRecords`, `FlushCanReorder`).
  Exact conditions: `FlushDeliversEarlier` for what was inserted before the push, `FlushDeliversAll` for
  what was inserted up to the return, `InOrderUnlessOvertaken` for the order.
- Memory that an allocator returns with size 0 to an insert is never handed back, while a registration
  hands back what it refuses (`InsertedSizeZeroIsLost`, `RegisteredIsHandedBack`; exact conditions in
  `LostExactly` and, in terms of allocator answers, `LostIsEmptyAnswers`).
- `start < end` of kernel intervals needs a timer of at most 1 GHz (`PositiveIntervals`).
- An unknown API id is refused but, as the first choice, clears every flag of its side; disabling all
  driver classes enables them (`UnknownApiSilences`, `DisablingAllClasses`).
- A thread that disables a view another thread enabled leaves the tracer on (`DisabledByAnother`; exact
  condition in `TracingWhileNeeded`).
- A thread that exits with a Level Zero view enabled leaves the tracer on for good, since its marks are
  thread-local (`ExitLeavesTracerOn`; exact conditions in `StartsMatchMarks` and `OffExactly`).
- After an abnormal stop the process ends on an assertion when, in disabled mode, the last pair is disabled
  (`StopBalances`; exactly when is `AbortsExactly`).
- The callback of an event's destruction completes one call only, so a list executed twice can leave a call
  on a destroyed event (`ExecutedTwiceIsLeft`; exact condition in `DestroyedEventWaits`).
- A kind emptied twice inside callbacks before an API event loses its first id (`FirstDeferredIsLost`;
  exact condition in `PoppedIdIsEmitted`).
- An overhead flag that is off during one `Fini` silences the thread until the flag changes again
  (`MissedFiniSilences`). Under any history of the flag the visible pairs are reported
  (`ReportsVisiblePairs`); all pairs are, exactly under the condition of `AllPairsReported`.
- The generator's last test compares text with numbers and keeps nothing out (`AddRemaining`). Its branch
  for a next id below the largest id written is dead when the header gives no ids (`WriteNames`); with
  ids from the header it can be taken.

## Model

| member | source | states |
|---|---|---|
| ViewRecordInfo.SizeOfLargestViewRecord | sdk/src/view_record_info.h:47-56 | the result is a size in the table and no record kind is larger; 0 exactly if no kind has records |
| ViewRecordInfo.DecodeEncode | sdk/src/view_buffer.h:63-75 | bytes written record by record split into exactly those records |
| ViewRecordInfo.EncodeDecode | sdk/src/view_buffer.h:63-75 | bytes that split into records are the bytes of those records, so they have one reading only |
| RecordWalk.NextFromRecord | sdk/src/view_buffer.h:101-109 | from a record in the buffer one call leads just behind that record's bytes, and to the end status without moving exactly when nothing follows |
| RecordWalk.FailsOrMoves | sdk/src/view_handler.h:928-964 | exactly when a call answers BAD_ARGUMENT or end-of-buffer, for every input, and that it then leaves the pointer alone; from null it leads to the first record |
| RecordWalk.WalkVisitsRecords | sdk/src/view_handler.h:928-964 | after k calls the pointer stands on record k as written; after the last record the status is end-of-buffer and the pointer stays; bytes behind the valid ones do not matter |
| RecordWalk.VisitsExactly | sdk/src/view_handler.h:928-964 | calling on until the end status visits a list of records if and only if it is what was written from the pointer on |
| RecordWalk.WalkRecords | sdk/test/main_vecsqadd_fixture.cc:156-165 | the user's loop ends and has visited exactly the records written, in order |
| ViewBuffer.AppendTakesSize | sdk/src/view_buffer.h:65-75 | a record that fits uses up exactly its size and leaves a well-formed buffer |
| ViewBuffer.ViewRecordBuffer.Move | sdk/src/view_buffer.h:41-44 | the new buffer takes over memory and records; the moved-from one is null and owns nothing |
| ViewBuffer.ViewRecordBuffer.MoveAssign | sdk/src/view_buffer.h:46-53 | the target takes over memory and records, the source is left with the target's old memory at size 0; self-assignment changes nothing |
| ViewBuffer.ViewRecordBuffer.Refresh | sdk/src/view_buffer.h:57-61 | the buffer has the new memory and no records |
| ViewBuffer.ViewRecordBuffer.Insert | sdk/src/view_buffer.h:63-75 | the record's bytes stand behind the older ones, whose bytes stay, and the returned position is theirs |
| ViewHandlerRecords.InsertAddsLast | sdk/src/view_handler.h:326-360 | an insert puts its record, if it fits, behind all undelivered records of its thread, and touches no other thread's |
| ViewHandlerRecords.FlushHandsOver | sdk/src/view_handler.h:312-318 | a flush moves what stands in the visited table entries to the user, behind what the user has, and nothing else |
| ViewHandlerRecords.TaskHandsOver | sdk/src/view_handler.h:355-359 | a delivery task hands over the oldest queued records of its thread, a flush task the records in the table |
| ViewHandlerRecords.RegisterHandsOver | sdk/src/view_handler.h:371-419 | a registration hands over the caller's table buffer, past the queue, and loses no record |
| ViewHandlerRecords.RunConserves | sdk/src/view_handler.h:326-360 | in every run of inserts, flushes, consumer tasks and registrations each thread's accepted records are, as a multiset, the delivered, queued and buffered ones |
| ViewHandlerFlush.StepQueue | sdk/src/view_buffer.h:157-176 | every step takes tasks from the front of the queue and pushes at its end |
| ViewHandlerFlush.QueueWithinDepth | sdk/src/view_buffer.h:157-165 | in every run the depth stays and bounds the queue |
| ViewHandlerFlush.FlushWaitsInRun | sdk/src/consumer_thread.h:135-140 | a flush with n tasks in front of it is first in the queue after exactly n tasks have run, whatever is pushed meanwhile |
| ViewHandlerFlush.FlushDeliversAll | sdk/src/view_handler.h:312-324 | per thread: when a flush returns, everything the thread inserted up to the return is delivered if and only if no insert of it handed off a buffer with records while the flush waited |
| ViewHandlerFlush.FlushDeliversQuietThreads | sdk/src/view_handler.h:312-324 | a thread that inserts nothing between a flush's push and its return has everything delivered |
| ViewHandlerEarlier.FlushDeliversEarlier | sdk/src/view_handler.h:312-360 | the promise of FlushBuffers, per thread and for distinct records: when it returns, everything inserted before the push is delivered if and only if no insert of the thread handed off the buffer it stood in before an earlier flush or a registration of the thread emptied that buffer |
| ViewHandlerEarlier.EarlierGetOut | sdk/src/view_handler.h:312-360 | the direction a caller relies on, for any records: what no insert carries off behind the flush is delivered when it returns |
| ViewHandlerEarlier.EmptyBufferLosesNothing | sdk/src/view_handler.h:312-360 | a thread with nothing in its table buffer at the push has everything it inserted before delivered, whatever it inserts meanwhile |
| ViewHandlerOrder.OvertakingShows | sdk/src/view_handler.h:312-318 | a flush or registration that overtakes a queued buffer makes the delivered records no prefix of the inserted ones |
| ViewHandlerOrder.InOrderUnlessOvertaken | sdk/src/view_handler.h:355-359 | over every run a thread's records reach the user in insertion order if and only if no step overtook a queued buffer of the thread |
| ViewHandlerOrder.NoOverlapNoOvertaking | sdk/src/view_handler.h:312-419 | a thread that never inserts while a flush waits, and registers callbacks only while none of its records are queued or none are in its table buffer, is never overtaken |
| ViewHandlerOrder.FlushDeliversInOrder | sdk/src/view_handler.h:312-419 | if a thread never inserts while a flush waits, and registers callbacks only while none of its records are queued or none are in its table buffer, then when a flush returns the user has exactly the thread's records, in insertion order |
| ViewHandlerOrder.RegistersFirst | sdk/src/view_handler.h:371-419 | the condition allows a registration with an empty table buffer, such as the one before a thread's first insert, and leaves the buffer empty |
| ViewHandlerOwnership.RunAccounts | sdk/src/view_buffer.h:311-338 | in every run each address is in as many places (table, queue, deliveries, lost) as allocators returned it |
| ViewHandlerOwnership.OneOwner | sdk/src/view_handler.h:371-419 | if no address is ever returned twice, each is in exactly one place: no buffer is delivered twice or written after its delivery |
| ViewHandlerOwnership.NothingLost | sdk/src/view_handler.h:355-359 | with allocators that never answer with size 0, no memory is lost |
| ViewHandlerMemory.OneHolder | sdk/src/view_handler.h:371-419 | with allocators that reuse memory: if none returns an address that the handler holds, in every reachable state each address is in at most one table entry or queued task |
| ViewHandlerMemory.OneHolderFromStart | sdk/src/view_handler.h:371-419 | the same for every run of a new handler, which holds nothing |
| ViewHandlerMemory.LostExactly | sdk/src/view_buffer.h:111-111 | over every run: memory is lost if and only if a consumer task takes a buffer with memory of size 0 (it tests as null) or an insert finds one in its table entry |
| ViewHandlerMemory.LostAccounts | sdk/src/view_handler.h:335-419 | over every run: the lost buffers and those of size 0 in the queue are as many as the answers of size 0 that allocators gave to inserts, or to registrations over which the thread inserts next |
| ViewHandlerMemory.LostIsEmptyAnswers | sdk/src/view_handler.h:335-419 | so once no memory of size 0 is queued, a handler has lost exactly as many buffers as there were such answers |
| ViewHandlerMemory.InsertedSizeZeroIsLost | sdk/src/view_handler.h:335-359 | memory of size 0 that an insert gets is lost in every run: its task delivers nothing |
| ViewHandlerMemory.RegisteredIsHandedBack | sdk/src/view_handler.h:371-419 | a registration loses no memory: what it refuses, whatever its size, and the caller's old buffer are delivered |
| ViewHandlerOwnership.DropsOnlyWithoutMemory | sdk/src/view_handler.h:335-346 | with room kept for the largest record, an insert drops its record exactly if it needed new memory and got too little |
| ViewHandlerOwnership.StepKeepsRoom | sdk/src/view_handler.h:348-419 | each table buffer stays null or with room for the largest record, whatever allocators answer to inserts, unless a registration falls back on memory that is too small, and then it does not (if and only if) |
| ViewHandlerOwnership.NothingDropped | sdk/src/view_handler.h:326-360 | if what inserts get holds their records, and what registrations get the largest one, no run of any record types ever takes the error branch |
| ViewHandlerOwnership.DroppedExactly | sdk/src/view_handler.h:326-360 | over every run a record is dropped if and only if it is the first for its memory and larger than all of it: none is dropped for what stands in front of it |
| ViewHandler.LargestIsInTable | sdk/src/view_record_info.h:47-56 | the handler's size of the largest record is what the scan over the size table finds, and every record of the table fits |
| ViewHandlerFindings.FlushCanMissEarlierRecords | sdk/src/view_handler.h:312-360 | a family of runs, for every queue that takes two tasks, in which a flush returns without records inserted before it: an insert during the wait hands the buffer off behind the flush |
| ViewHandlerFindings.FlushCanReorder | sdk/src/view_handler.h:312-360 | a family of runs, for every queue that takes two tasks, in which a flush delivers a thread's third record before its first two |
| ViewHandlerFindings.UserReadsWhatWasInserted | sdk/src/view_handler.h:326-419 | end to end: a thread that never inserts while a flush waits, and registers callbacks only while none of its records are queued or none are in its table buffer, has exactly its records read back, in order, by a user who walks each delivered memory with GetNextRecord, whatever stands behind the valid bytes |
| ViewHandlerFindings.BufferMemoryIs | sdk/src/view_buffer.h:63-75 | the memory that a record buffer keeps is what a delivery of its records passes on: the written bytes first |
| ViewHandlerUsers.UserTellsRegistrations | sdk/src/view_handler.h:371-419 | over every run the user in force is that of the last registration whose offered buffer holds the largest record, else the initial one |
| ViewHandlerUsers.DeliveriesTellUsers | sdk/src/view_handler.h:873-882 | over every run each delivery was made by an event of the run for the user in force when the event was done, so a taken-over buffer goes to the new user; only the buffer of a refused registration goes back to the user who offered it |
| ViewHandlerUsers.RegisterDelivers | sdk/src/view_handler.h:371-419 | for every registration: the user in force, both deliveries with their users and buffers, and the thread's new memory |
| ViewHandlerUsers.TaskDelivers | sdk/src/view_handler.h:355-359 | a delivery task passes its buffer, a flush the buffers of the table, to the user in force; inserts and pushes deliver nothing |
| ViewHandlerClass.PtiViewRecordHandler.RequestNewBuffer | sdk/src/view_handler.h:863-871 | the thread's entry is the allocator's answer, fresh |
| ViewHandlerClass.PtiViewRecordHandler.InsertRecord | sdk/src/view_handler.h:326-360 | one in-place insert is exactly the insert step |
| ViewHandlerClass.PtiViewRecordHandler.DeliverBuffer | sdk/src/view_handler.h:873-882 | a buffer with memory goes to the user, once |
| ViewHandlerClass.PtiViewRecordHandler.ForEachDeliver | sdk/src/view_handler.h:314-318 | the walk visits every entry once and is the flush of the table in that order |
| ViewHandlerClass.PtiViewRecordHandler.RegisterBufferCallbacks | sdk/src/view_handler.h:371-419 | missing callbacks change nothing; otherwise the registration step, successful exactly if the offered buffer holds the largest record, and then, and only then, with the new user in force |
| ViewHandlerClass.PtiViewRecordHandler.FlushBuffers | sdk/src/view_handler.h:312-324 | with the consumer alone running, the queue is empty afterwards and every thread's records are delivered |
| ViewHandlerClass.PtiViewRecordHandler.RunNextTask | sdk/src/consumer_thread.h:135-140 | the consumer's loop body is the task step for the order in which the table was walked |
| ConsumerThread.RunKeepsInvariant | sdk/src/consumer_thread.h:108-140 | in every interleaving tasks run in push order, the queue stays within its depth until it is lifted, and at most one task begins after the stop flag |
| ConsumerThread.RunsInPushOrder | sdk/src/consumer_thread.h:108-140 | in every run from the start the tasks run, in hand and queued are, in this order, those the events pushed, and at most one begins after the stop flag |
| ConsumerThread.NeverStuck | sdk/src/view_buffer.h:157-176 | no deadlock, in every reachable state: a producer can push or the consumer can make its next step, unless the consumer has left a full queue during Stop, whose next step lifts the depth |
| ConsumerThread.WaitingProducerGetsRoom | sdk/src/view_buffer.h:157-176 | until Stop is called a producer that waits at a full queue gets room after at most three steps of the consumer |
| ConsumerThread.StoppedConsumerLeaves | sdk/src/consumer_thread.h:135-140 | once the flag is set every consumer step brings it one step nearer to leaving its loop |
| ConsumerThread.StopAlwaysStops | sdk/src/consumer_thread.h:124-140 | after Stop returns, in every run: the consumer is never blocked, makes at most three more steps, begins at most one more task, and when it has left, pushed tasks are those run plus those queued |
| ConsumerThread.BufferConsumer.constructor | sdk/src/consumer_thread.h:55-61 | the depth is twice the hardware threads, or 50 if they are unknown |
| ConsumerThread.BufferConsumer.Push | sdk/src/view_buffer.h:157-165 | the task is the last of the queue |
| ConsumerThread.BufferConsumer.Pop | sdk/src/view_buffer.h:167-176 | the task is the first of the queue and gone from it |
| ConsumerThread.BufferConsumer.Stop | sdk/src/consumer_thread.h:124-132 | the flag is set, the depth lifted and the empty task pushed |
| ConsumerThread.BufferConsumer.Run | sdk/src/consumer_thread.h:135-140 | left alone, the loop runs all queued tasks in order, or none if already stopped |
| KernelTimer.NoOverflow | samples/ze_hot_kernels/ze_kernel_collector.h:281-289 | with a 32-bit start and up to 2^32 ticks no 64-bit product wraps |
| KernelTimer.MeasuredDuration | samples/ze_hot_kernels/ze_kernel_collector.h:281-290 | the computed duration is the true one floored to ns, or one more, and one more exactly when the two remainders carry |
| KernelTimer.PositiveIntervals | samples/ze_hot_kernels/ze_kernel_collector.h:338-342 | start < end for every kernel if and only if the timer frequency is at most 10^9 |
| KernelCollectorMeasures.UseMeasures | samples/ze_hot_kernels/ze_kernel_collector.h:246-295 | a call whose kernel started at a 32-bit tick and took 1 to 2^32 ticks adds one interval with the command's name, from start to start plus ticks in floored ns, and that length, one call and the command's SIMD width to the statistics, and leaves the list |
| KernelCollectorMeasures.StepMeasures | samples/ze_hot_kernels/ze_kernel_collector.h:246-317 | for every step, which calls complete, in which order, with which name, interval and width, and which stay |
| KernelCollectorMeasures.RunMeasures | samples/ze_hot_kernels/ze_kernel_collector.h:263-295 | over every run each completion is what the timer showed for a call that was pending and ready in some step |
| KernelCollectorMeasures.TotalsAreMeasured | samples/ze_hot_kernels/ze_kernel_collector.h:319-343 | over every run from an empty collector a kernel's total time is the length of its intervals, and each interval is a measured one |
| KernelCollectorMeasures.StepAddsCalls | samples/ze_hot_kernels/ze_kernel_collector.h:212-244 | calls join at the end: by an append to an immediate list, and, list by list, by an execution of other lists |
| KernelCollectorMeasures.StepLists | samples/ze_hot_kernels/ze_kernel_collector.h:345-392 | lists are created empty, filled by appends, emptied by a reset, forgotten when destroyed, and else unchanged |
| KernelCollector.FirstCall | samples/ze_hot_kernels/ze_kernel_collector.h:246-261 | the position is the first call that waits for the event, or the end of the list |
| KernelCollectorProofs.ProcessLeavesPending | samples/ze_hot_kernels/ze_kernel_collector.h:297-317 | processing leaves exactly the calls that are not ready, in order, and touches no command or list |
| KernelCollectorProofs.AssertionLoop | samples/ze_hot_kernels/ze_kernel_collector.h:371-373 | after the calls were processed the assertion loop passes if and only if every pending call of the list was ready |
| KernelCollectorProofs.RemoveKeepsOwned | samples/ze_hot_kernels/ze_kernel_collector.h:357-378 | deleting a list's commands takes no other list's command and leaves no call dangling |
| KernelCollectorProofs.RunKeepsOwned | samples/ze_hot_kernels/ze_kernel_collector.h:212-261 | every run keeps: each live command is owned, once, by the list it names, and every pending call is a live command |
| KernelCollectorEvents.StepWaits | samples/ze_hot_kernels/ze_kernel_collector.h:246-317 | for every step the number of calls that wait for an event is fixed: its use takes one, processing takes all if it is ready, appends and executions add theirs |
| KernelCollectorEvents.DestroyedEventWaits | samples/ze_hot_kernels/ze_kernel_collector.h:456-466 | no pending call is left waiting for a destroyed event, then and in every run that does not use it again, if and only if at most one call waited for it |
| KernelCollectorEvents.OneAtATimeWaits | samples/ze_hot_kernels/ze_kernel_collector.h:246-261 | in every run that starts with at most one call waiting for an event and adds calls for it one at a time, at most one ever waits for it |
| KernelCollectorEvents.ExecutedTwiceIsLeft | samples/ze_hot_kernels/ze_kernel_collector.h:246-261 | a list executed twice without processing leaves a call waiting for its destroyed event |
| KernelCollectorProofs.CallsHaveOneOwner | samples/ze_hot_kernels/ze_kernel_collector.h:380-391 | in every reachable state a pending call is a live command that exactly one live list owns |
| KernelCollectorProofs.ReadyIsProcessable | samples/ze_hot_kernels/ze_kernel_collector.h:263-295 | a kernel read from a 32-bit timer of at most 1 GHz passes all assertions of ProcessCall |
| KernelCollectorProofs.ProcessSplits | samples/ze_hot_kernels/ze_kernel_collector.h:302-316 | by kernel name, the calls split exactly into completed and still pending ones |
| KernelCollectorProofs.RecordAgrees | samples/ze_hot_kernels/ze_kernel_collector.h:319-342 | recording a call keeps count, total, minimum, maximum and SIMD width of every kernel equal to the group-by of the completed calls |
| KernelCollectorProofs.RunIsTruthful | samples/ze_hot_kernels/ze_kernel_collector.h:319-342 | in every run: no dangling call, calls added are completed or pending, the interval list is the completed calls and the statistics are their group-by |
| KernelCollectorProofs.CallsAreCounted | samples/ze_hot_kernels/ze_kernel_collector.h:225-244 | from an empty collector: calls added per name are call_count plus pending, and count*min <= total <= count*max |
| KernelCollectorClass.ZeKernelCollector.AddKernelInfo | samples/ze_hot_kernels/ze_kernel_collector.h:319-336 | the statistics map gains the call, field by field |
| KernelCollectorClass.ZeKernelCollector.AddKernelInterval | samples/ze_hot_kernels/ze_kernel_collector.h:338-342 | the interval is appended |
| KernelCollectorClass.ZeKernelCollector.CompleteCall | samples/ze_hot_kernels/ze_kernel_collector.h:263-295 | both branches of the timer read amount to recording the completed call, whose name, interval and width UseMeasures and StepMeasures fix |
| KernelCollectorClass.ZeKernelCollector.ProcessCall | samples/ze_hot_kernels/ze_kernel_collector.h:246-261 | the search with break and erase processes the first call that waits for the event and no other |
| KernelCollectorClass.ZeKernelCollector.ProcessCalls | samples/ze_hot_kernels/ze_kernel_collector.h:297-317 | the walk that erases while it goes leaves the pending calls and records the ready ones in order |
| KernelCollectorClass.ZeKernelCollector.AddCommandList | samples/ze_hot_kernels/ze_kernel_collector.h:344-355 | a new list that owns nothing |
| KernelCollectorClass.ZeKernelCollector.AddKernelCommand | samples/ze_hot_kernels/ze_kernel_collector.h:212-223 | the command is the last of its list |
| KernelCollectorClass.ZeKernelCollector.AddKernelCall | samples/ze_hot_kernels/ze_kernel_collector.h:225-229 | the call is the last of the pending ones |
| KernelCollectorClass.ZeKernelCollector.AddKernelCalls | samples/ze_hot_kernels/ze_kernel_collector.h:231-244 | all commands of the list become pending calls, in order |
| KernelCollectorClass.ZeKernelCollector.AppendKernel | samples/ze_hot_kernels/ze_kernel_collector.h:562-593 | the command is owned by its list, and pending at once if the list is immediate |
| KernelCollectorClass.ZeKernelCollector.ExecuteCommandLists | samples/ze_hot_kernels/ze_kernel_collector.h:661-677 | lists become pending one after the other, immediate ones are skipped |
| KernelCollectorClass.ZeKernelCollector.RemoveKernelCommands | samples/ze_hot_kernels/ze_kernel_collector.h:357-379 | exactly the list's commands are deleted; the nested assertion never fails |
| KernelCollectorClass.ZeKernelCollector.ResetCommandList | samples/ze_hot_kernels/ze_kernel_collector.h:648-659 | process, then remove: the reset step |
| KernelCollectorClass.ZeKernelCollector.RemoveCommandList | samples/ze_hot_kernels/ze_kernel_collector.h:635-646 | process, remove, forget the list: the destroy step |
| Granularity.FlagsTellHistory | sdk/src/view_handler.h:726-742 | a flag is the value of the last call that names the function since everything was last enabled; 0 if others were chosen since; else 1; a side is granular exactly if functions were chosen since |
| GranularityHistory.FlagTellsCalls | sdk/src/pti_view.cc:358-501 | on either side and after any calls: a function's flag is 1 or 0 as the argument of the last accepted call says that names it or whose class table reaches it since everything was enabled; else 0 if others were chosen since then, 1 if none |
| GranularityHistory.EffectIsCall | sdk/src/pti_view.cc:358-501 | what a call does to a side, read off its group, class, id and argument |
| GranularityHistory.ApiAnswers | sdk/src/pti_view.cc:358-401 | success of a call for one function means that it has the flag asked for, BAD_API_ID that the group was taken but the function is unknown, any other answer that nothing changed |
| GranularityHistory.ClassAnswers | sdk/src/pti_view.cc:404-501 | a class call is refused exactly for a foreign group, the reserved class and, for the runtime, host synchronization, and then changes nothing; it never changes the other side |
| Granularity.NotGranularIsAllOn | sdk/src/view_handler.h:421-432 | a side that is not granular has every flag 1 |
| Granularity.UnknownApiSilences | sdk/src/view_handler.h:738-742 | on either side, for every group the side accepts and after any calls: an unknown id returns BAD_API_ID, yet as the first choice it clears every flag of its side; later it changes nothing, and the other side never changes |
| Granularity.DisablingAllClasses | sdk/src/pti_view.cc:477-480 | for every group that is accepted and after any calls: disabling all classes enables every driver function, and on the runtime side switches off the core functions only |
| GranularityClass.ApiSelection.EnableAllRuntimeApisWithoutGranularity | sdk/src/view_handler.h:421-425 | every runtime flag is 1 and the runtime side is not granular |
| GranularityClass.ApiSelection.EnableAllDriverApisWithoutGranularity | sdk/src/view_handler.h:427-432 | every driver flag is 1 and the driver side is not granular |
| GranularityClass.ApiSelection.CheckAndSetGranularity | sdk/src/view_handler.h:726-736 | the first choice clears the group's flags, a later one nothing |
| GranularityClass.ApiSelection.SetApiTracingState | sdk/src/view_handler.h:175-217 | the flag of a known function is set to 1 for an argument other than 0 and to 0 for 0; the answer tells unknown ids and groups apart |
| GranularityClass.ApiSelection.SetGranularApis | sdk/src/view_handler.h:671-682 | functions of a class are set in order until one is unknown |
| GranularityClass.ApiSelection.ProcessGroupForRuntimePerClass | sdk/src/view_handler.h:754-760 | the core functions of the runtime side are chosen |
| GranularityClass.ApiSelection.ProcessGroupForDriverPerClass | sdk/src/view_handler.h:745-751 | the functions of the class are chosen on the driver side |
| GranularityClass.ApiSelection.EnableRuntimeApi | sdk/src/pti_view.cc:382-401 | effect on both sides and answer, for every group, id and flag |
| GranularityClass.ApiSelection.EnableDriverApi | sdk/src/pti_view.cc:358-378 | effect on both sides and answer, for every group, id and flag |
| GranularityClass.ApiSelection.EnableRuntimeApiClass | sdk/src/pti_view.cc:404-451 | effect on both sides and answer, for every class and group |
| GranularityClass.ApiSelection.EnableDriverApiClass | sdk/src/pti_view.cc:454-501 | effect on both sides and answer, for every class and group |
| ViewEnabling.RunBalances | sdk/src/view_handler.h:500-521 | over every run and all threads, exits of threads included: EnableTracing minus DisableTracing calls, and the reference count, equal the number of (thread, kind) pairs marked enabled or lost with an exited thread; the tracing layer is on at most once |
| ViewEnabling.StartsMatchMarks | sdk/src/unikernel.h:162-163 | starts minus stops equal the marked pairs if and only if no thread ever exited with a Level Zero view enabled |
| ViewEnabling.OrphansTellHistory | sdk/src/unikernel.h:162-163 | a pair is lost exactly if its thread exited with the kind enabled |
| ViewEnabling.ExitLeavesTracerOn | sdk/src/unikernel.h:162-163 | a thread that exits with a view enabled leaves the tracer on for good, whatever anybody does afterwards |
| ViewEnabling.OffExactly | sdk/src/levelzero/ze_collector.h:3497-3524 | a tracer that is on can still be switched off if and only if no thread exited with a Level Zero view enabled, the library has no error, and, in disabled mode, there was no abnormal stop |
| ViewEnabling.DisableAll | sdk/src/view_handler.h:577-583 | then a disable of every marked pair by its thread does it |
| ViewEnabling.AbortsExactly | sdk/src/levelzero/ze_collector.h:384-397 | an assertion on the global count ends the process exactly at an abnormal stop while the layer is off, and, in disabled mode after an abnormal stop, at the disable of the last pair |
| ViewEnabling.NormalRuns | sdk/src/levelzero/ze_collector.h:3470-3524 | without an abnormal stop no assertion on the global count ever fails |
| ViewEnabling.StartBalances | sdk/src/levelzero/ze_collector.h:3470-3492 | starting keeps the balance, and the assertion on the global count holds |
| ViewEnabling.StopBalances | sdk/src/levelzero/ze_collector.h:3497-3524 | stopping keeps the balance, and the assertion on the global count fails exactly if an abnormal stop came before |
| ViewEnabling.MarksTellHistory | sdk/src/view_handler.h:502-513 | a pair is marked exactly if the thread enabled the kind, with callbacks set and no error of the library, and has neither disabled it nor exited since |
| ViewEnabling.TracingWhileNeeded | sdk/src/view_handler.h:577-591 | the tracer's callbacks are on exactly while some thread has a Level Zero view enabled that it has not disabled, or exited with one; the layer is on as well exactly if there was no abnormal stop |
| ViewEnabling.DisabledByAnother | sdk/src/view_handler.h:577-603 | a thread that disables another thread's view switches the view off for all and leaves the tracer on, unless an error of the library refuses the call |
| ViewEnabling.ViewsAreTraced | sdk/src/view_handler.h:502-546 | in every run a Level Zero view that is on is traced: some thread has it enabled, or exited with it, and the tracer's callbacks are on |
| ViewEnablingViews.ViewsTellHistory | sdk/src/view_handler.h:444-604 | over every run a view is on exactly if an enable of it by some thread succeeded and no disable of it, by any thread, was accepted since; only kinds with records other than external correlation are ever on |
| ViewEnablingViews.AnswersTellHistory | sdk/src/pti_view.cc:30-53 | over every run, exactly when ptiViewEnable succeeds, read off the calls before it, and exactly when it answers with an error of the library, with missing callbacks or with a bad argument |
| ViewEnablingClass.ViewSwitches.Enable | sdk/src/view_handler.h:444-546 | the handler's enable in place, with its answer, for every kind, build and state; which views are on then is ViewsTellHistory |
| ViewEnablingClass.ViewSwitches.Disable | sdk/src/view_handler.h:548-604 | new state and answer, for every kind, where the assertion on the global count holds |
| ViewEnablingClass.ViewSwitches.ViewEnable | sdk/src/pti_view.cc:30-53 | the entry point: refused after an error and for no view kind, else the handler's Enable; when it succeeds is AnswersTellHistory |
| ViewEnablingClass.ViewSwitches.ViewDisable | sdk/src/pti_view.cc:59-82 | the entry point: refused after an error and for no view kind, else the handler's Disable |
| ViewEnablingClass.ViewSwitches.ExitThread | sdk/src/unikernel.h:162-163 | the thread's marks vanish and nothing else changes |
| ViewEnablingClass.ViewSwitches.AbnormalStopTracing | sdk/src/levelzero/ze_collector.h:384-397 | the layer is counted down and the collection marked abnormal |
| ViewEnablingClass.ViewSwitches.IsAnyViewEnabled | sdk/src/view_helpers.h:50-57 | true exactly if some view state is on |
| ViewEnablingClass.ZeStartStopModeChanger.ToStartTracing | sdk/src/levelzero/ze_collector.h:3470-3492 | counts up, and switches on at the first count |
| ViewEnablingClass.ZeStartStopModeChanger.ToStopTracing | sdk/src/levelzero/ze_collector.h:3497-3524 | counts down, and switches off at the last count |
| ExternalCorrelation.Run | sdk/src/view_handler.h:606-660 | no run ever keeps an empty stack in either map, so every top() is defined |
| ExternalCorrelation.KindsAreIndependentStacks | sdk/src/view_handler.h:606-660 | each kind is the stack its own pushes and pops make, whatever happens to others; a kind is deferred exactly if it was emptied inside a callback since the last API event |
| ExternalCorrelation.PopAnswersHistory | sdk/src/view_handler.h:619-660 | in every run a pop answers the newest id of the kind's own history, or that there is none |
| ExternalCorrelation.DeferredKeepsAll | sdk/src/view_handler.h:627-642 | the deferred stack of a kind holds, in order, all ids emptied inside callbacks since the last API event |
| ExternalCorrelation.PopUndoesPush | sdk/src/view_handler.h:619-660 | a pop returns the id of its matching push and restores the stack, across any nested events |
| ExternalCorrelation.ApiEmits | sdk/src/view_handler.h:987-1011 | an API event emits each once: the newest id of every live kind and the last id of every kind emptied inside a callback since the API event before, and nothing else |
| ExternalCorrelation.PoppedIdIsEmitted | sdk/src/view_handler.h:619-660 | over every history: an id that a pop inside a callback took off last and that is not pushed again is emitted by the next API event, once, if and only if no later pop empties its kind inside a callback before it |
| ExternalCorrelation.FirstDeferredIsLost | sdk/src/view_handler.h:627-642 | after a callback that empties a kind twice the API event emits the second id once and the first not at all |
| ExternalCorrelationClass.ExternalCorrelationMaps.PushExternalKindId | sdk/src/view_handler.h:606-617 | the in-place push is the push step |
| ExternalCorrelationClass.ExternalCorrelationMaps.PopExternalKindId | sdk/src/view_handler.h:619-660 | the in-place pop, in all three branches, is the pop step and answers the top id or queue-empty |
| ExternalCorrelationClass.ExternalCorrelationMaps.SetIsWithinSubscriberCallback | sdk/src/levelzero/ze_collector.h:564-568 | the flag around a subscriber's callback is set in place, and nothing else |
| ExternalCorrelationClass.ExternalCorrelationMaps.GenerateExternalCorrelationRecords | sdk/src/view_handler.h:987-1011 | the two walks are the API step, and the deferred kinds are cleared |
| Overhead.RunIsConsistent | sdk/src/overhead_kinds.h:62-110 | with a positive clock the reference count is positive exactly when the start time is set, whatever the flag does; ResetRecord finds no leftover |
| Overhead.SpansAreOutermost | sdk/src/overhead_kinds.h:112-127 | the spans are exactly the matching Init/Fini pairs around which nothing is open |
| Overhead.ReportsOutermostPairs | sdk/src/overhead_kinds.h:112-193 | with the flag on, one record per outermost pair is reported, in order, from that Init to that Fini, with count 1 |
| Overhead.ReportsOwnPairs | sdk/src/overhead_kinds.h:112-197 | a Fini told the other runtime closes its pair but reports nothing: exactly the outermost pairs whose Fini is told its own runtime are reported |
| Overhead.ReportsInOrder | sdk/src/overhead_kinds.h:135-155 | with a monotone clock reported intervals are ordered and disjoint, and each duration is its length |
| Overhead.OpenCallHidesOthers | sdk/src/overhead_kinds.h:83-85 | while a call is open nested calls only move the count |
| Overhead.MissedFiniSilences | sdk/src/overhead_kinds.h:115-117 | a flag that is off during one Fini leaves the call open, and no later nested call is reported until the flag changes again |
| OverheadFlag.OnlyVisibleCallsCount | sdk/src/overhead_kinds.h:62-197 | under every history of the flag a thread is where the calls made while it was on, and every FiniSycl, would alone have led it |
| OverheadFlag.ReportsVisiblePairs | sdk/src/overhead_kinds.h:112-193 | under every history of the flag exactly the outermost pairs of the visible calls are reported, in order |
| OverheadFlag.AllPairsReported | sdk/src/overhead_kinds.h:112-193 | once all calls have ended, exactly their outermost pairs are reported if and only if at every moment a visible call (one that counts) was open exactly when a call was, for calls with distinct times |
| OverheadFlag.RestingFlagReports | sdk/src/overhead_kinds.h:112-193 | if the flag changes only while no call is open, exactly the outermost pairs made with the flag on are reported, in order |
| Overhead.OverheadCollector.BeginCall | sdk/src/overhead_kinds.h:62-96 | the in-place Init is the Init step |
| Overhead.OverheadCollector.ResetRecord | sdk/src/overhead_kinds.h:98-110 | the record's times and count are cleared |
| Overhead.OverheadCollector.FiniLevel0 | sdk/src/overhead_kinds.h:112-160 | the in-place Fini is the Fini step; it ends early while the flag is off |
| Overhead.OverheadCollector.FiniSycl | sdk/src/overhead_kinds.h:162-197 | the same without a look at the flag |
| ApiIds.NumberingIsStable | sdk/src/gen_tracing_callbacks.py:254-385 | every existing name keeps its id, no entry goes, a new name gets an id above all existing ones, every listed name has one, ids stay unique and positive |
| ApiIds.NewIdsInOrder | sdk/src/gen_tracing_callbacks.py:278-298 | new names get the next ids one by one, in the order of the list |
| ApiIds.RegeneratingChangesNothing | sdk/src/gen_tracing_callbacks.py:276-385 | generating again from the generated numbering changes nothing, whatever the next id |
| ApiIds.NextAfter | sdk/src/gen_tracing_callbacks.py:151-153 | the next id read back from the file is the one the generator would have gone on with |
| ApiIds.IdsNeverChange | sdk/src/gen_tracing_callbacks.py:254-385 | over any number of generations with any lists of names an id is never changed, dropped or given to another name |
| ApiIds.IdsLast | sdk/src/gen_tracing_callbacks.py:254-385 | the id a name has after any generation it has after every later one |
| ApiIds.OneList | sdk/src/gen_tracing_callbacks.py:377-381 | a numbering has one sorted listing, so equal numberings are equal files |
| ApiIds.ReadApiIds | sdk/src/gen_tracing_callbacks.py:135-158 | of any file the last line of each name and one more than the largest id are read; the assertion fails exactly if an id comes twice |
| ApiIds.LastLineCounts | sdk/src/gen_tracing_callbacks.py:135-158 | the dictionary has the name of each line with the id of the last line of that name |
| ApiIds.LineOf | sdk/src/gen_tracing_callbacks.py:135-158 | and no other names |
| ApiIdGenerator.ReverseBiDict | sdk/src/gen_tracing_callbacks.py:242-251 | the inverse map; an error exactly if a value comes twice |
| ApiIdGenerator.Insort | sdk/src/gen_tracing_callbacks.py:345-347 | the binary search keeps the list sorted and adds just the entry |
| ApiIdGenerator.NextApiId | sdk/src/gen_tracing_callbacks.py:288-298 | an old id; else the next one, or one above the largest written if the next one is below it |
| ApiIdGenerator.WriteNames | sdk/src/gen_tracing_callbacks.py:278-354 | for names that the header gives no id the walk lists exactly the ids of the names: no id written is ever above the next one, and the assertion on duplicated ids never fails |
| ApiIdGenerator.AddRemaining | sdk/src/gen_tracing_callbacks.py:369-375 | every existing entry that no name took is listed too |
| ApiIdGenerator.GenerateApiFilePortion | sdk/src/gen_tracing_callbacks.py:254-385 | the enum written is the whole numbering, sorted by id |
| ApiIdGenerator.Regenerate | sdk/src/gen_tracing_callbacks.py:121-162 | file to file: no line is lost or changed, new names come after all old ids, a list of known names reproduces the file |
| MetricSamples.ScanIsFilter | samples/ze_metric_streamer/tool.cc:103-121 | the early-break scan finds all samples of a kernel if and only if none comes after a sample past the kernel's end |
| MetricSamples.SortedScanIsFilter | samples/ze_metric_streamer/tool.cc:103-121 | on reports in time order the scan equals filtering all reports |
| MetricSamples.TakenIsScanned | samples/ze_metric_streamer/tool.cc:103-121 | the samples the pointer loop takes are those of the early-break scan |
| MetricSamples.Measure | samples/ze_metric_streamer/tool.cc:100-129 | on reports with the value types the source asserts: the run's name and length, and values which, times the number of reports inside the run, are the sums of those reports' active and stall columns; 0 without such reports |
| MetricSamples.RunningMeanIsPlainMean | samples/ze_metric_streamer/tool.cc:131-145 | the running mean per kernel is the plain mean over its instances |
| MetricSamples.StreamerKernelMap | samples/ze_metric_streamer/tool.cc:70-148 | the table holds each name with its number of runs, their total length, and values which, times that number, are the sums of the runs' means of the active and stall columns |
| MetricSamples.QueryKernelMap | samples/ze_metric_query/tool.cc:68-112 | sum then divide: the plain means of the grouped instances |
| MetricSamples.StreamerAgreesWithQuery | samples/ze_metric_query/tool.cc:83-109 | both tools give the same table for the same kernel runs |
| QueueProperties.EnableQueueProfiling | utils/cl_utils.h:213-258 | for a null or well-formed list the new array is well formed, exactly sized and holds the old pairs with profiling |
| QueueProperties.Scan | utils/cl_utils.h:223-236 | the scan finds the end of the list and the last queue-properties key |
| QueueProperties.OnlyProfilingChanges | utils/cl_utils.h:238-254 | every other key keeps its value; the queue properties gain the profiling bit and keep every other bit |
| QueueProperties.ProfilingTwiceIsOnce | utils/cl_utils.h:238-254 | every pair but the last queue-properties one stays where it is, at most one is added, and a second rewriting changes nothing |
| Leb128.DecodeUnsigned | utils/leb128.h:15-39 | it stops at the first byte without a continuation bit or after four, done is false exactly when all four go on, and the value is the groups read |
| Leb128.DecodeSigned | utils/leb128.h:41-69 | the same with the two's-complement value of the groups read |
| Leb128.UnsignedRoundTrip | utils/leb128.h:15-39 | decoding the DWARF encoding of v, whatever follows, is done if and only if v < 2^28, and then returns v and its length |
| Leb128.SignedRoundTrip | utils/leb128.h:41-69 | the same for signed v, if and only if -2^27 <= v < 2^27 |
| Leb128.UnsignedIsShortest | utils/leb128.h:15-39 | no unsigned number with the same value is shorter than its encoding |
| Leb128.SignedIsShortest | utils/leb128.h:41-69 | no signed number with the same value is shorter than its encoding |
| Leb128.MasksAre | utils/leb128.h:15-69 | on bytes the masks 0x7F, 0x80 and 0x40 are the remainder and comparisons that the decoders use |
| Leb128.OrIsPlus | utils/leb128.h:26-27 | on machine words the or that adds a group is a sum |
| Leb128.FillIsMinus | utils/leb128.h:64-66 | on machine words filling the sign bits is a subtraction |

## Left out

- Lock-level races and wakeups: steps are atomic and waits are guards, so the unlocked walk of
  `FlushBuffers` over the table, `notify_one` on the shared condition variable and a producer already
  waiting when `Stop` lifts the depth are not covered.
- A second call of `Stop`, and tasks that throw.
- Order across a registration of callbacks: the caller's buffer goes out past the queue, so only the
  multiset is claimed there.
- ViewHandlerClass.PtiViewRecordHandler.InsertRecord: the table entries are values (memory address, size,
  records) and not `ViewRecordBuffer` objects, so aliasing of one buffer object is only covered by the
  class `ViewRecordBuffer` itself; that a record's C++ type is the structure of its kind is an assumption
  of the walk (`LogFits`), not of the handler.
- ViewHandlerOwnership.OneOwner: memory is identified by the address the allocator returns; two
  overlapping regions with different addresses are not told apart.
- Malformed user buffers passed to `GetNextRecord`: its end test is an equality, so only buffers as
  delivered are in scope; a reserved kind in a record answers BAD_ARGUMENT.
- Record sizes of other targets: the table is a parameter of the record lemmas, the handler uses the LP64
  maximum of 192 bytes.
- KernelCollectorProofs.CallsAreCounted: total times are unbounded, the wrap of their 64-bit sums is not
  modelled; a kernel's own start and end are 64-bit.
- KernelCollectorProofs.RunKeepsOwned: adding a command and adding its call are one step, and so are
  processing and removing at a reset or destruction; another thread's step between the two locks is not
  modelled. Events and event pools of a command are not destroyed in the model.
- KernelCollectorProofs.AssertionLoop: that the device no longer uses a list when it is reset or destroyed
  is a condition on the step, as the specification of Level Zero demands it of the caller.
- ViewEnabling.RunBalances: the results of the tracing-layer calls are taken to be success; the SYCL and
  ITT collectors, the overhead and external-correlation flags and the collector's own options are not part
  of this model.
- ViewEnabling.AbortsExactly: the count of the tracing layer is an integer, where the source's 64-bit count
  wraps below 0; both fail the assertion. When abnormal stops and errors happen is an input of the run.
- Granularity.FlagsTellHistory: `Enable` starts a side over through two events of the history; which calls
  of `Enable` reach them is not tied to `view_enabling`.
- ExternalCorrelation.ApiEmits: the walk order of the two maps is any order, not the byte order of their
  keys; the handler that stores the emitted records is modelled apart.
- Overhead.ReportsOutermostPairs: thread and API ids of the record, and the time shift applied to it; the
  overhead callback is taken to be set, as the handler's constructor does, and clock values to be positive.
- OverheadFlag.AllPairsReported: two calls of a thread with the same time; a wrong report could then equal
  a right one.
- ExternalCorrelation.PoppedIdIsEmitted: an id pushed again before the API event, whose two records would
  be the same; `ApiEmits` covers it as a multiset.
- ViewHandlerEarlier.FlushDeliversEarlier: equal records, of which one could be delivered for the other;
  `EarlierGetOut` covers them in one direction.
- ApiIdGenerator.GenerateApiFilePortion: entries whose ids come from the header (the branches that recycle
  ids and add version suffixes), all text around the enum, and names that contain a marker word of the
  parser; equal ids are not compared by text.
- MetricSamples.Measure: floating-point rounding; means are exact. Looking up metric ids and the warning
  for kernels without samples.
- QueueProperties.EnableQueueProfiling: `int` overflow of its index on lists of more than 2^31 elements.
- Leb128.DecodeUnsigned: works on numbers; `OrIsPlus` and `FillIsMinus` tie its sums to the bit operations.
- Table printing, command-line tools, dynamic loading, generated callbacks and enum-to-string tables: plain
  lookups and plumbing.
