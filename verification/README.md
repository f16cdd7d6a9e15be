# Verified models of ESP-IDF components

Dafny models of ten pieces of ESP-IDF that keep state over long runs, with proofs of what those runs preserve. Each module
follows one component and takes its form: control words, blocks, lists and buffers that the C or Python code updates in
place are classes and arrays whose methods are proved against functions on values; the concurrent guard protocol is a step
relation; selection rules and parsers are functions.

| file | component | main results |
|---|---|---|
| `TraceRing.dfy` | trace ring buffer | every call refines a queue operation, through normal and early wraps; when a request is granted, over free cells; every run is first-in first-out; the exact 32-bit limits |
| `TraceChannel.dfy` | two-block trace protocol with pending and down rings | nothing granted is lost, duplicated or reordered over any run, and the host can take the stream apart into the accepted packets; a flush takes an exact number of swaps for every minimum, 1 + ceil(P/B) of them to empty the channel |
| `StaticGuards.dfy`, `GuardCalls.dfy` | one-time construction guards | for any number of tasks and every interleaving: each call takes effect at one instant, a guard is initialised exactly once it has been released, and one task at a time initialises it; wake-ups are certain exactly while no task waits for a pending guard |
| `OtaStream.dfy` | streaming an update into flash | for any split into calls and both ways of erasing, flash followed by the cache is the image, and every byte within the erased stretch went into a blank cell; from the lengths of the calls, exactly when the finished image is intact |
| `OtaSelect.dfy` | boot-slot records | switching is atomic under power failure, rollback boots a verified image, sequence numbers stay bounded, when the device follows the host tool |
| `I2cMachine.dfy`, `I2cMaster.dfy` | interrupt-driven I2C command engine, on values and in place | a transfer that succeeds has done the list exactly if every STOP is last or followed by an empty write and no START stands in front of a longer write that has a progress count left over; then what was issued is always a prefix of the list; the answer of every transfer, from its list and events alone; when a list can be run again |
| `TaskScheduler.dfy`, `DepthFirst.dfy`, `TaskOccurrences.dfy` | `idf.py` task ordering | the loop ends, each needed task runs once and behind its dependencies; its order is that of a depth-first walk; of k occurrences of a command pulled p times, number (k - p % k) % k runs; when p is positive, from the graph and the request |
| `CommandLine.dfy`, `SplitArgv.dfy` | console tokeniser | every line has a layout of words, quotes and spaces, and splitting it in place gives the arguments the layout stands for; quoting or escaping is undone by splitting |
| `DfuArchive.dfy` | DFU image writer | the archive decodes to what was added; decoding and loading the written bytes leaves the flash as if every file had been programmed whole and in order; its index describes its members |
| `DedicGpio.dfy` | dedicated-GPIO bundles | live bundles own disjoint windows that make up the masks; each bundle is a register of its own over any run |

`Bytes.dfy` holds the shared types. `dafny verify dfyconfig.toml` checks the project.

## How the environment enters

- The trace host is a sequence of answers to `swap_start`: busy, or ready with data left in the block. A wait times out when
  its answers are used up. Blocks have 4 to 0x7FFF bytes (a header must fit; lengths have 15 bits beside the core bit).
- Guard tasks are scheduled by an arbitrary list of (task, action) pairs; each mutex or semaphore operation, and the code
  between two of them, is one step. The semaphore saturates at INT_MAX and there are at most INT_MAX tasks.
- Flash cells remember whether they were blank when programmed. Power can fail before a record rewrite, after its erase, or
  after any number of programmed bytes.
- The OTA checksum is a function parameter. One fact about it is used: the seed in
  `components/bootloader_support/src/bootloader_common_loader.c` starts the register at zero, so only the zero word has the
  all-ones checksum. MD5 and the DFU checksum are parameters without any assumption.
- The I2C hardware executes its registers from index 0 to an END or STOP; bytes it does not send stay in the transmit FIFO.
  The bytes taken from the receive FIFO are a parameter; interrupts come in any order and number.
- Allocation failures are Boolean parameters.

## What turned out differently from the comments

- The ring adds `wr + size` and `rd + size` in 32 bits. Grants stay inside the storage exactly while those sums do not
  overflow (`ProduceStaysInsideIff`, `ConsumeStaysInsideIff`). A ring of size 0 refuses even a request of 0 bytes, so
  "any request up to the write size succeeds" needs a non-empty ring. An empty ring whose marks stand in the middle grants
  no more than one of the two pieces beside them (`Room`).
- The size check of a packet request subtracts the header size without a sign; it is right exactly for blocks that hold a
  header (`GuardIsExactIff`).
- The comment in `wait_for_guard_obj` says that a waiting task "will immediately succeed" in taking the semaphore. The
  semaphore is shared by all guards: `WakeUpStolenWhilePending` is a run in which a waiter of another guard uses up both
  wake-ups. With the mutex free the statement is certain if and only if no task waits for a guard that is pending
  (`WakeUpsCertainIff`).
- `esp_ota_end` writes the cached tail without erasing. In a sequential session the image is intact if it has no cached
  tail, or if the last call left blank cells: it did not end with `wrote_size` on a sector boundary, or it was longer than
  the progress it made; on a partition full of old data it is intact only then (`Update`). 4095 bytes followed by 2 lose the
  tail (`TailSectorNotErased`).
- `esp_ota_write` does not compare the data with the size announced to `esp_ota_begin`. A session erased at its start
  accepts more than it erased; the image is intact if it is no longer than the erased stretch, and on old data only then
  (`Update`).
- `esp_ota_begin` rounds an announced size up in 32 bits; sizes in the last sector below 2^32 wrap and erase nothing
  (`EraseSizeCoversIff`).
- The I2C driver goes on filling registers behind a STOP, but the hardware stops there. The commands behind it in the same
  program are lost, and the driver still reports success: of START, byte, STOP, START, byte, STOP the second START and byte
  never reach the bus (`SecondMessageLost`).
- The comment in `i2c_master_cmd_begin` says that the progress count of each command is reset while the list is browsed, so
  that a list can be run again. The count of a command behind a START or STOP is not. START, a write of two bytes, STOP
  works once; run a second time it reports success again, and only START and STOP reach the bus (`SecondRunLosesBytes`). A
  transfer that succeeds has done the list if and only if every STOP is last or followed by a write of no bytes, and no
  START stands in front of a longer write whose count is not 0 (`TransferOutcome`). A list that has succeeded is fit for
  another run if and only if its STOPs are in place and no START stands in front of a longer write with bytes to send
  (`RunAgainIff`).
- An I2C list without any transfer never completes: the driver stays idle and ignores the end of the program
  (`TransferAnswer`).
- A switch whose new sequence number is 0xFFFFFFFF writes a record that counts as blank; every other one selects the
  requested slot (`SwitchSelectsIff`). If no 32-bit number is left for a slot, the loop that looks for one can only stop at
  a number of another slot (`LoopMisses`).
- Confirming the running image rewrites its record in place: if the power fails in between, the device boots what it would
  without that record (`ConfirmBoots`).
- The host tool ignores the image state. It starts from the record the device would use if and only if its choice is not
  marked invalid or aborted (`HostBaseAgreesIff`). It also leaves the state of the record it overwrites, so the device
  follows the switch exactly if that record is not marked as failed (`HostSwitchHonoured`).
- `idf.py` warns that only the first occurrence of a repeated command is executed. Every turn that pulls the command turns
  its k occurrences by one, so after p such turns number (k - p % k) % k runs, and the first one if and only if k divides p
  (`OccurrenceThatRuns`). The command is pulled whenever a task requested in front of it leads to it (`PulledWhenLed`). In
  `flash build build` the second `build` runs (`FlashBuildBuild`).
- The DFU writer accepts a part size of 0 and then drops the content of every file: parts reassemble if and only if the part
  size is not 0 or the file is empty (`ChunksReassembleIff`). A file named like the CPIO trailer hides what follows it; an
  archive reads back whole if and only if there is none (`ReadableIffNoTrailerName`).
- A dedicated-GPIO write or deletion never resets the output register: a new bundle reads the levels its channels were left
  with.

## Model

| member | source | states |
|---|---|---|
| TraceRing.ProduceIsEnqueue | components/app_trace/app_trace_util.c:96-136 | a request is granted iff there is room, at the write mark if possible; the grant is contiguous, inside the storage, disjoint from live bytes and becomes the tail of the queue; a refusal changes nothing |
| TraceRing.RoomIffFree | components/app_trace/app_trace_util.c:96-136 | while bytes are queued there is room iff the cells at the write mark or at the start of the storage are free, with one cell to spare in front of the read mark |
| TraceRing.ConsumeIsDequeue | components/app_trace/app_trace_util.c:138-162 | succeeds exactly for requests up to the read size, hands out the oldest bytes and leaves the others |
| TraceRing.ContentsSize | components/app_trace/app_trace_util.c:164-191 | at most size - 1 bytes are held; the read size covers all of them or those in front of the wrap, and is 0 iff the queue is empty |
| TraceRing.WriteSizeIsExact | components/app_trace/app_trace_util.c:177-191 | exactly the requests up to the write size are granted at the write mark |
| TraceRing.ProduceStaysInsideIff | components/app_trace/app_trace_util.c:96-136 | grants stay inside the storage iff the 32-bit sum does not overflow |
| TraceRing.ConsumeStaysInsideIff | components/app_trace/app_trace_util.c:138-162 | only queued bytes are handed out iff the 32-bit sum does not overflow |
| TraceRing.FillChangesTail | components/app_trace/app_trace_util.c:96-136 | writing into a granted region changes the last queued bytes and no others |
| TraceRing.TailIsRegion | components/app_trace/app_trace_util.c:96-136 | the granted region holds the last queued bytes, in every wrap mode |
| TraceRing.StepConserves | components/app_trace/app_trace_util.c:96-162 | queued plus sent equals received plus still queued, for one call |
| TraceRing.RunIsFifo | components/app_trace/app_trace_util.c:96-162 | over every run the bytes out, then the bytes queued, are the bytes in, in order |
| TraceRing.RingBuffer.Produce | components/app_trace/app_trace_util.c:96-136 | the in-place update grants exactly as above and appends the region to the queue |
| TraceRing.RingBuffer.Consume | components/app_trace/app_trace_util.c:138-162 | the in-place update removes exactly the oldest bytes |
| TraceRing.RingBuffer.ReadSizeGet | components/app_trace/app_trace_util.c:164-175 | the contiguous readable size, 0 iff empty |
| TraceRing.RingBuffer.WriteSizeGet | components/app_trace/app_trace_util.c:177-191 | exactly the requests up to the result are granted at the write mark |
| TraceChannel.GuardIsExactIff | components/app_trace/app_trace_membufs_proto.c:275-283 | the size check keeps packets within a block iff the block holds a header |
| TraceChannel.BlocksIsCeiling | components/app_trace/app_trace_membufs_proto.c:115-136 | the number of blocks that P pending bytes fill is the ceiling of P/B |
| TraceChannel.SwapsToEmpty | components/app_trace/app_trace_membufs_proto.c:349-371 | with minimum 0 a flush needs 1 + ceil(P/B) swaps, none for an empty block |
| TraceChannel.SwapsClosedForm | components/app_trace/app_trace_membufs_proto.c:349-371 | for any minimum below the block size it needs one swap for the block, one for each full block of pending bytes, and one for the rest iff that is more than the minimum |
| TraceChannel.NoRoomMeansFull | components/app_trace/app_trace_membufs_proto.c:193-219 | a down ring without write space is full, never just badly wrapped |
| TraceChannel.HostHeader | components/app_trace/app_trace_membufs_proto.c:96-113 | the 16-bit length and the bytes behind it read back |
| TraceChannel.SentUnpacks | components/app_trace/app_trace_membufs_proto.c:260-273 | the headers tell the accepted packets apart: core in the top bit, the length twice |
| TraceChannel.Channel.constructor | components/app_trace/app_trace_membufs_proto.c:55-77 | the initial channel satisfies the protocol invariant with nothing granted |
| TraceChannel.Channel.DownWrite | components/app_trace/app_trace_membufs_proto.c:193-219 | host bytes enter in order; only a full ring cuts them short |
| TraceChannel.Channel.Pump | components/app_trace/app_trace_membufs_proto.c:115-136 | the fresh block gets exactly the oldest pending bytes, as many as fit |
| TraceChannel.Channel.Receive | components/app_trace/app_trace_membufs_proto.c:96-113 | host data enters the down ring in order, whole unless the ring fills up |
| TraceChannel.Channel.Swap | components/app_trace/app_trace_membufs_proto.c:79-139 | a failed swap changes nothing; a completed one publishes the block whole and refills from the pending ring; the stream is kept |
| TraceChannel.Channel.SwapWait | components/app_trace/app_trace_membufs_proto.c:141-152 | succeeds iff some answer is ready, with one swap; the host data of the first ready answer enters the down ring |
| TraceChannel.Channel.WaitForBuffer | components/app_trace/app_trace_membufs_proto.c:221-258 | grants behind everything granted before; a refusal changes nothing granted and means there is still no room |
| TraceChannel.Channel.UpBufferGet | components/app_trace/app_trace_membufs_proto.c:275-336 | appends one packet with its header to the stream; refuses only a packet too large for a block or one for which neither block nor pending ring has room; with data pending and a ready host the block is published |
| TraceChannel.Channel.UpBufferPut | components/app_trace/app_trace_membufs_proto.c:268-273 | the packet granted last gets equal allocated and written sizes; nothing else changes |
| TraceChannel.Channel.Write | components/app_trace/app_trace_membufs_proto.c:260-347 | a whole packet is appended to the stream, or nothing |
| TraceChannel.Channel.Flush | components/app_trace/app_trace_membufs_proto.c:349-371 | for every minimum, succeeds iff the host lets as many swaps through as the fill and the pending bytes need, and makes exactly that many; then the block holds at most the minimum, and with minimum 0 block and pending ring are empty and everything is published |
| TraceChannel.Channel.DownBufferGet | components/app_trace/app_trace_membufs_proto.c:154-185 | host bytes are handed out in arrival order; while there are none, the first data that the host offers is taken in, as much as the ring holds; no answer iff that is nothing; fewer than asked only at the wrap or the end |
| TraceChannel.RunCalls | components/app_trace/app_trace_membufs_proto.c:79-371 | over every run: published, then block, then pending ring are the packets of exactly the writes that answered success, whole and in order, and a reader of the headers gets them back with core and payload; the bytes handed out are the accepted host bytes in order; markers within the block; pending implies a non-empty block |
| StaticGuards.StepKeepsLockInv | components/cxx/cxx_guards.cpp:113-211 | exactly the mutex holder is in a critical section |
| StaticGuards.StepKeepsOwnInv | components/cxx/cxx_guards.cpp:113-211 | ready and pending are disjoint, pending guards have one owner, completions are counted once |
| StaticGuards.StepKeepsPcInv | components/cxx/cxx_guards.cpp:66-211 | what each position in the code knows about its guard is kept by other tasks' steps |
| StaticGuards.StepKeepsWaitInv | components/cxx/cxx_guards.cpp:66-111 | the waiting count is the number of waiters, and while no task waits for a pending guard, semaphore plus owed gives cover the takers |
| StaticGuards.ExecKeepsInv | components/cxx/cxx_guards.cpp:66-211 | the invariant holds along every schedule |
| StaticGuards.PendingIffOneOwner | components/cxx/cxx_guards.cpp:113-211 | in every reachable state a guard is pending iff exactly one task holds it |
| StaticGuards.AssertsHold | components/cxx/cxx_guards.cpp:66-211 | no assert of acquire, release or abort fails for owners |
| StaticGuards.FinishRuns | components/cxx/cxx_guards.cpp:98-211 | a release or abort that nothing interrupts: pending cleared, ready only after a release, one give for every waiting task |
| GuardCalls.AcquireAnswers | components/cxx/cxx_guards.cpp:113-168 | answer 0 iff a release of the guard has taken effect, answer 1 iff the caller holds the guard |
| GuardCalls.CallsAreAtomic | components/cxx/cxx_guards.cpp:113-211 | along every schedule each call takes effect once, between its start and its return, on guards that are free, claimed by one task, or initialised; it returns the outcome of that effect |
| GuardCalls.EffectsAreLegal | components/cxx/cxx_guards.cpp:113-211 | a guard is claimed only while nobody holds it and ended only by the task that claimed it |
| GuardCalls.ReadyIffReleased | components/cxx/cxx_guards.cpp:170-211 | a guard is ready iff a release, called by a task of the schedule, has taken effect; aborts never make it so |
| GuardCalls.AbortReopens | components/cxx/cxx_guards.cpp:192-211 | once an abort has taken effect the guard is neither ready nor pending |
| GuardCalls.NextAcquire | components/cxx/cxx_guards.cpp:113-211 | after an undisturbed abort the next undisturbed acquire answers 1, after a release 0 |
| GuardCalls.ReadyOnceAndForever | components/cxx/cxx_guards.cpp:170-190 | once released a guard stays ready, and no later release or abort of it takes effect |
| StaticGuards.WaitingCountExact | components/cxx/cxx_guards.cpp:66-96 | with the mutex free the waiting count is the number of tasks inside the wait |
| StaticGuards.NoLostWakeUp | components/cxx/cxx_guards.cpp:66-111 | with the mutex free and no task waiting for a pending guard the semaphore covers all tasks about to take it |
| StaticGuards.NeverStuck | components/cxx/cxx_guards.cpp:66-211 | no deadlock while no task waits for a pending guard: some task inside the guard functions can go on |
| StaticGuards.UsesUp | components/cxx/cxx_guards.cpp:75-95 | one task that waits for a pending guard can use up every wake-up, whatever their number |
| StaticGuards.WakeUpsCertainIff | components/cxx/cxx_guards.cpp:66-111 | in every reachable state with the mutex free: all wake-ups are certain, however the waiting tasks come round the loop, iff no task waits for a pending guard |
| StaticGuards.WakeUpStolenWhilePending | components/cxx/cxx_guards.cpp:75-95 | a reachable state in which a waiter of a ready guard finds the semaphore empty |
| OtaStream.EraseRange | components/spi_flash/partition.c:523-543 | erases exactly the range, iff it is aligned and inside |
| OtaStream.WriteRange | components/spi_flash/partition.c:453-484 | programs exactly the range, iff it is inside; programming a cell that is not blank spoils it |
| OtaStream.BlocksWritten | components/app_update/esp_ota_ops.c:192-248 | the erase range, computed without the cached bytes, still covers what the call programs; when it leaves no blank cell |
| OtaStream.Begin | components/app_update/esp_ota_ops.c:146-171 | no erase in sequential mode; the whole partition is blank for an unknown size, and the announced size in whole sectors otherwise; sizes whose rounding overflows erase nothing; a failed erase gives no session |
| OtaStream.EraseSizeCoversIff | components/app_update/esp_ota_ops.c:146-153 | the sectors erased for an announced size cover it iff rounding up does not overflow 32 bits |
| OtaStream.Session.EraseAhead | components/app_update/esp_ota_ops.c:192-206 | blank up to the sector end of the call; no programmed byte is erased |
| OtaStream.Session.TopUp | components/app_update/esp_ota_ops.c:217-235 | the cache takes the next bytes and is written when full |
| OtaStream.Session.WriteBlocks | components/app_update/esp_ota_ops.c:237-248 | whole blocks go to flash, the rest to the cache |
| OtaStream.Session.Write | components/app_update/esp_ota_ops.c:173-256 | the answer in every case; after a success flash then cache are the accepted data, each byte of the erased stretch in a once-programmed blank cell, wrote_size a multiple of 16 with encryption; what is blank behind it; a session erased at its start keeps its erased stretch |
| OtaStream.WriteAll | components/app_update/esp_ota_ops.c:173-256 | for any split and both ways of erasing, whatever size was announced: an image with the magic byte that fits is taken whole, and flash then cache are the image as far as the erased stretch goes; what is left blank, from the lengths of the calls |
| OtaStream.Session.FlushTail | components/app_update/esp_ota_ops.c:318-344 | when the final flush succeeds; the image is intact if it ends within the blank stretch, on any partition, and spoiled on old data if not |
| OtaStream.Update | components/app_update/esp_ota_ops.c:113-344 | a whole update on any partition: intact if no size was announced, if it is no longer than the announced size in whole sectors or, sequentially, if the lengths of the calls do not lose the tail; on old data only then; accepted if it fits and starts with the magic byte |
| OtaStream.TailSectorNotErased | components/app_update/esp_ota_ops.c:335-344 | 4095 bytes and then 2 are such lengths |
| OtaSelect.Active | components/bootloader_support/src/bootloader_common_loader.c:45-64 | the active record is valid and no valid record has a larger number |
| OtaSelect.ActiveIff | components/bootloader_support/src/bootloader_common_loader.c:29-64 | a record is active iff it is not erased, invalid or aborted, its checksum is right, and the other one does not come before it |
| OtaSelect.DefaultBootOrder | components/app_update/esp_ota_ops.c:479-505 | factory image, then the first slot there is, then the test image |
| OtaSelect.NextSeqIsLeast | components/app_update/esp_ota_ops.c:418-425 | the new number is the least one, not below the active one, that stands for the target slot, and adds less than n |
| OtaSelect.NumberLeftIff | components/app_update/esp_ota_ops.c:418-425 | a 32-bit number not below the active one stands for the target slot iff the least such number fits |
| OtaSelect.LoopMisses | components/app_update/esp_ota_ops.c:418-425 | if none is left, every number at which the wrapping loop can stop stands for another slot |
| OtaSelect.DeviceNextSeq | components/app_update/esp_ota_ops.c:418-425 | the 32-bit loop computes that number |
| OtaSelect.TornIsInvalidOrWhole | components/app_update/esp_ota_ops.c:363-377 | a record cut off anywhere is invalid or complete |
| OtaSelect.TornBytes | components/app_update/esp_ota_ops.c:363-377 | of a record cut off behind some bytes exactly the bytes from there on are blank |
| OtaSelect.BootFollowsActive | components/app_update/esp_ota_ops.c:507-534 | boot selection is the active record's slot, else, or without slots, the default partition |
| OtaSelect.SwitchSelectsIff | components/app_update/esp_ota_ops.c:389-434 | a completed switch selects the requested slot, ties included, iff its number is not the erased pattern |
| OtaSelect.SwitchIsCrashAtomic | components/app_update/esp_ota_ops.c:363-434 | after the erase, any torn write or completion, the selection of before (a slot or the default partition) or the requested slot |
| OtaSelect.SwitchGrows | components/app_update/esp_ota_ops.c:418-433 | one switch adds at most n - 1 and selects its slot |
| OtaSelect.BoundClosedForm | components/app_update/esp_ota_ops.c:418-433 | the bound after k switches is n + (k-1)(n-1) |
| OtaSelect.SequenceBound | components/app_update/esp_ota_ops.c:418-433 | from blank records, any k switches keep numbers between 1 and that bound and select their slots |
| OtaSelect.RollbackPossibleIff | components/app_update/esp_ota_ops.c:653-706 | rollback is possible iff the image that boots without the active record is verified and is the other record's or the factory image |
| OtaSelect.RollbackBootsVerified | components/app_update/esp_ota_ops.c:653-748 | marking the active record invalid boots a verified image, at every cut of the rewrite |
| OtaSelect.ConfirmBoots | components/app_update/esp_ota_ops.c:719-729 | what boots at each cut of the rewrite that confirms the running image |
| OtaSelect.OtaStore.Confirm | components/app_update/esp_ota_ops.c:709-753 | fails iff there is no active record or slot; a completed confirmation keeps the selection and marks the record valid |
| OtaSelect.OtaStore.SwitchTo | components/app_update/esp_ota_ops.c:389-434 | the record written and its place, with the requested state, the right checksum and a number for the slot, and the error for a slot that does not exist |
| OtaSelect.OtaStore.RollBack | components/app_update/esp_ota_ops.c:709-758 | each answer; succeeds iff rollback is possible, and then the record is marked invalid and a verified image boots |
| OtaSelect.HostSwitch | components/app_update/otatool.py:131-188 | the host loop computes the least number from its base record, fails iff it does not fit, and leaves the state of the overwritten record |
| OtaSelect.HostSwitchHonoured | components/app_update/otatool.py:131-188 | the device boots the target iff the overwritten record is not marked as failed, and otherwise what it did before |
| OtaSelect.HostBaseAgreesIff | components/app_update/otatool.py:94-147 | host and device use the same base record iff the host's choice is not marked as failed |
| OtaSelect.HostAgreesWithDevice | components/app_update/otatool.py:131-176 | same record overwritten and same number, for records not marked as failed |
| I2cMaster.CmdList.Append | components/driver/i2c.c:1143-1170 | the command is linked at the end; a failed allocation changes nothing |
| I2cMaster.CmdList.MasterWrite | components/driver/i2c.c:1188-1225 | appends one write per byte; a single byte becomes a byte command; a failed allocation changes nothing |
| I2cMaster.CmdList.MasterRead | components/driver/i2c.c:1227-1289 | LAST_NACK acknowledges all bytes but the last; length 0 is refused; what a failed allocation leaves behind |
| I2cMaster.Engine.PutCommand | components/driver/i2c.c:1337-1396 | one turn of the register loop in place is one turn on values, for any command |
| I2cMaster.Engine.ProgramBatch | components/driver/i2c.c:1334-1400 | filling the registers and starting the hardware is one program on values |
| I2cMaster.Engine.BeginStatic | components/driver/i2c.c:1296-1400 | one call in place is one call on values, and keeps the list and the counts well formed |
| I2cMaster.Engine.Interrupt | components/driver/i2c.c:483-522 | one event in place is one event on values |
| I2cMaster.Engine.Load | components/driver/i2c.c:1456-1470 | only the first progress count is cleared; everything else an earlier run left in the list stays |
| I2cMaster.Engine.Transmit | components/driver/i2c.c:1423-1533 | the whole transfer in place is the run on values, so all results about runs are results about it: what is issued and received, the answer from list and events, and that the first error ends it; the list can be run again |
| I2cMachine.FlattenAppend | components/driver/i2c.c:1143-1170 | appending a command appends its bus operations |
| I2cMachine.ProgramDoes | components/driver/i2c.c:1344-1383 | the register of a FIFO-full of a write or read does exactly its next bytes |
| I2cMachine.FillSound | components/driver/i2c.c:1337-1396 | a program of a list in order (STOPs in place, no count left over behind a START) does exactly the operations that come next |
| I2cMachine.FillCounts | components/driver/i2c.c:1337-1396 | no program does more than the list advances; one that passes a STOP in the way, or a START in front of a left-over count, does less |
| I2cMachine.FillEnds | components/driver/i2c.c:1337-1396 | the register loop ends at a transfer or at the end of the list |
| I2cMachine.CollectFilled | components/driver/i2c.c:1300-1314 | received bytes follow those stored before, in list order |
| I2cMachine.BeginGood | components/driver/i2c.c:1296-1400 | one call of the driver keeps the run invariant, from whatever counts an earlier run left |
| I2cMachine.TransferOutcome | components/driver/i2c.c:1296-1533 | under any interrupts and whatever an earlier run left: issued operations are a prefix of the list if it is in order, a success did the list iff it is, and the read buffers hold the received bytes in order |
| I2cMachine.RunAgainIff | components/driver/i2c.c:1456-1462 | after a success the same list is in order for another run iff its STOPs are in place and no START stands in front of a longer write with bytes to send |
| I2cMachine.SecondRunLosesBytes | components/driver/i2c.c:1387-1396 | START, two bytes, STOP: the first run does the list, the second reports success with START and STOP alone |
| I2cMachine.TransferAnswer | components/driver/i2c.c:1423-1533 | the answer of every transfer, from its list, the counts left over and its events: the first error before the last program needed decides, success takes exactly as many ends of programs as the list needs, and a list without a transfer times out |
| I2cMachine.OutcomeMeans | components/driver/i2c.c:483-522 | success iff enough regular ends come first, a NACK answers ACK error, a timeout or lost arbitration answers timeout |
| I2cMachine.ErrorEnds | components/driver/i2c.c:503-522 | behind the first error nothing is issued, received or counted any more |
| I2cMachine.BeginComes | components/driver/i2c.c:1296-1400 | a call without an error starts the next program, so that one fewer is to come, or reports the end |
| I2cMachine.PiecesIsCeiling | components/driver/i2c.c:1344-1383 | a transfer takes one program for each 32 bytes begun, and one if it is empty |
| I2cMachine.SecondMessageLost | components/driver/i2c.c:1387-1396 | a two-message list whose second START and byte are lost while success is reported |
| TaskScheduler.PullAllFacts | tools/idf.py:597-617 | the pulled names, no task lost, and a missing dependency in front |
| TaskScheduler.PullListedAllFacts | tools/idf.py:619-623 | order-only dependencies move listed tasks only |
| TaskScheduler.RoundProgress | tools/idf.py:589-630 | every turn lowers (names unseen, list length, height of the front task) |
| TaskScheduler.RoundKeepsInv | tools/idf.py:589-630 | every turn keeps the queue duplicate-free, ordered and within the closure |
| TaskScheduler.ScheduleCorrect | tools/idf.py:587-630 | each requested task and transitive dependency exactly once, nothing else, behind its dependencies and requested order-only ones |
| DepthFirst.RunsDepthFirst | tools/idf.py:587-630 | the run queue is the depth-first walk over the request that visits order-only dependencies that have come up, then dependencies, each from the end of its list, and then the command |
| DepthFirst.RoundWalks | tools/idf.py:589-630 | no turn of the loop changes where that walk ends |
| DepthFirst.RoundKeepsQueue | tools/idf.py:589-630 | a repetition of a command that ran stands behind whatever it would still follow |
| DepthFirst.InOrderStays | tools/idf.py:587-630 | a request that is already in order is run as it stands |
| TaskScheduler.OrderTasks | tools/idf.py:587-630 | the loop terminates with that queue |
| TaskScheduler.Turn | tools/idf.py:589-630 | one turn with both inner loops is one step of the schedule |
| TaskScheduler.PullDeps | tools/idf.py:597-617 | the loop over dependencies, and when it finds all of them scheduled |
| TaskScheduler.PullOrder | tools/idf.py:619-623 | the loop over order-only dependencies, and when none is due |
| TaskOccurrences.RoundTurns | tools/idf.py:589-630 | a turn that pulls a command turns its occurrences by one, any other leaves them |
| TaskOccurrences.OccurrenceThatRuns | tools/idf.py:536-630 | of k occurrences pulled in p turns number (k - p % k) % k runs; the first one iff k divides p |
| TaskOccurrences.FirstOccurrenceRuns | tools/idf.py:536-544 | in particular the first one if no earlier request leads to the command |
| TaskOccurrences.PulledWhenLed | tools/idf.py:589-630 | a command is pulled if a task requested in front of it leads to it by dependencies and requested order-only dependencies |
| TaskOccurrences.PulledIff | tools/idf.py:589-630 | where the order-only dependencies that can be listed were all requested, it is pulled iff such a task stands in front of it |
| TaskOccurrences.FlashBuildBuild | tools/idf_py_actions/serial_ext.py:204-209 | with the declared order dependencies of flash and all, `flash build build` runs the second build |
| CommandLine.QuotedLineRoundTrip | components/console/esp_console.h:213-237 | quoting, joining and splitting gives any list of arguments back, empty ones included |
| CommandLine.JoinHasNoNul | components/console/esp_console.h:213-237 | a line of quoted arguments without NUL has no NUL |
| CommandLine.SplitsAsLaidOut | components/console/split_argv.c:42-112 | a word reaches to the next space and a quote inside it is literal; a quoted argument reaches to the closing quote and text directly behind that is a new argument; an escape gives a space, quote or backslash and drops any other character; a line may end within an argument |
| CommandLine.EveryLineIsLaidOut | components/console/split_argv.c:42-112 | every line can be read that way |
| CommandLine.TokenisesIff | components/console/split_argv.c:42-112 | splitting gives exactly the arguments a line stands for |
| CommandLine.SpreadRoundTrip | components/console/esp_console.h:213-237 | words with spaces, quotes and backslashes escaped come back, whatever spaces separate and surround them |
| SplitArgv.Turn | components/console/split_argv.c:42-101 | unread input is untouched, finished arguments lie below the write position, the rest of the parse is that of the unread input |
| SplitArgv.Close | components/console/split_argv.c:102-112 | the last argument is terminated and entered, the list closed |
| SplitArgv.Split | components/console/split_argv.c:33-112 | the first argv_size - 1 arguments the line stands for, terminated, then a null entry; nothing behind the line changes |
| SplitArgv.SplitQuoted | components/console/split_argv.c:33-112 | a quoted line is split, in place, into the arguments it was made of |
| SplitArgv.SplitSpread | components/console/split_argv.c:33-112 | a line of escaped words is split, in place, into the words |
| DfuArchive.HexRoundTrip | tools/mkdfu.py:68-71 | a field of lower-case hexadecimal digits reads back |
| DfuArchive.HeaderReads | tools/mkdfu.py:63-89 | each of the thirteen numbers of a header: mode, links, sizes, and zero for all others |
| DfuArchive.EntryLayout | tools/mkdfu.py:237-248 | header, name with its terminator, data and zero fill of an entry, and that its size is a multiple of 4 |
| DfuArchive.DecodeEntry | tools/mkdfu.py:63-89 | decoding takes exactly one entry off the front |
| DfuArchive.ArchiveDecodes | tools/mkdfu.py:200-212 | an archive of any files decodes to them in order, up to a file named like the trailer |
| DfuArchive.ReadableIffNoTrailerName | tools/mkdfu.py:200-212 | all files are read back iff none is named like the trailer |
| DfuArchive.EntriesAligned | tools/mkdfu.py:133-136 | every entry starts at a multiple of 4 |
| DfuArchive.RecordRoundTrip | tools/mkdfu.py:93-95 | an index record reads back: address, flags, name cut or padded to 64 bytes, digest |
| DfuArchive.IndexRecordAt | tools/mkdfu.py:202-204 | record k of the index lies at 88 k |
| DfuArchive.ChunksReassembleIff | tools/mkdfu.py:193-198 | the parts make up the file iff the part size is not 0 or the file is empty |
| DfuArchive.ChunkAt | tools/mkdfu.py:193-198 | part k is the piece of the file behind the parts before it |
| DfuArchive.ChunkOffset | tools/mkdfu.py:181-198 | part k lies at k times the part size |
| DfuArchive.PartNamesDistinct | tools/mkdfu.py:181-198 | the parts of a file never share a name |
| DfuArchive.DecimalReads | tools/mkdfu.py:193-196 | the suffix is the decimal number of the part, without leading zero |
| DfuArchive.SuffixRoundTrip | tools/mkdfu.py:214-217 | the suffix reads back by the layout of Appendix B of USB DFU 1.1 |
| DfuArchive.SuffixBytes | tools/mkdfu.py:214-217 | the twelve bytes in front of the checksum |
| DfuArchive.DfuWriter.AddFlashEntry | tools/mkdfu.py:222-235 | entry and index record are added together; they match one for one |
| DfuArchive.DfuWriter.AddFile | tools/mkdfu.py:181-198 | the parts are added in order, each at the address behind the one before |
| DfuArchive.DfuWriter.Finish | tools/mkdfu.py:200-220 | fails iff a number does not fit; otherwise the padded entries with their trailer plus suffix, which decode to the index file and then all entries in order |
| DfuArchive.WriteImage | tools/mkdfu.py:251-258 | the whole command: when it fails, the bytes of the archive and what they decode to, its suffix, that the index describes the members, and that decoding and loading the written bytes puts every file in its place, for a part size other than 0 and no file named like the trailer |
| DfuArchive.ImageLoads | tools/mkdfu.py:181-258 | programming the members of the archive in order where their index says leaves the flash as if every file had been programmed whole, at its address and in order |
| DfuArchive.DecodedLoads | tools/mkdfu.py:181-258 | the same from the bytes of the image: what decodes from them, loaded where the decoded index says, if no member is named like the trailer |
| DfuArchive.ImageDescribes | tools/mkdfu.py:156-235 | the index record of each member holds its name, the digest of its data, and the flags of a parameter or plain file |
| DfuArchive.ParamsReadBack | tools/mkdfu.py:156-174 | flash_params.dat holds the chip size and the geometry in the order of FlashParamsData |
| DfuArchive.LastWriter | tools/mkdfu.py:251-258 | at each address the last file that covers it decides |
| DedicGpio.FindWindow | components/driver/dedic_gpio.c:208-223 | the free window with the least offset, or none iff there is none |
| DedicGpio.AddKeeps | components/driver/dedic_gpio.c:190-298 | a bundle on free windows keeps windows disjoint and the masks their union |
| DedicGpio.RemoveKeeps | components/driver/dedic_gpio.c:300-328 | removing a bundle keeps both, and empties the masks iff it was the last |
| DedicGpio.WriteSeenByOwner | components/driver/dedic_gpio.c:348-361 | a write changes exactly the selected bits of the bundle's own value |
| DedicGpio.WriteUnseenByOthers | components/driver/dedic_gpio.c:348-361 | no other bundle's value changes |
| DedicGpio.ReplayBit | components/driver/dedic_gpio.c:348-361 | a bit of a bundle reads as the last write that selects it left it |
| DedicGpio.Core.NewBundle | components/driver/dedic_gpio.c:190-298 | the status for every input, when the platform exists afterwards, first-fit offsets, "not found" iff an enabled direction has no free window, masks restored on failure |
| DedicGpio.Core.DeleteBundle | components/driver/dedic_gpio.c:300-328 | the masks lose exactly the bundle's channels; the platform goes iff it was the last bundle |
| DedicGpio.Core.WriteBundle | components/driver/dedic_gpio.c:348-361 | masked update of the bundle's own value, all others unchanged |
| DedicGpio.Core.Run | components/driver/dedic_gpio.c:190-361 | over any creations, deletions and writes, a bundle that stays reads back what its own writes left |

## Left out

- TraceRing.ProduceIsEnqueue: on a ring of size 0 nothing is promised about requests of 0 bytes, because the code refuses them.
- TraceChannel.Channel.UpBufferPut: only for the packet granted last; packets still being written by a preempted task when their block is swapped are left to the host by the source itself.
- TraceChannel: SystemView headers, the configuration without a pending ring, blocks of different sizes, and wall-clock timeouts.
- StaticGuards: behaviour before the scheduler has started, and fairness: that a task which can go on eventually does.
- OtaStream.Session.Write: nothing is said about the session after a failed flash write (a session erased at its start that reaches the end of the partition).
- OtaStream.Update: image verification after the final flush, and the checks that the partition is an OTA partition other than the running one, are not modelled.
- OtaStream: flash errors of the hardware, the lookup of a session by its handle, `esp_ota_write_with_offset`, and the cipher itself.
- OtaSelect.OtaStore.SwitchTo: a switch for which no 32-bit number is left is excluded, since the loop of the device then ends at another slot or not at all; `NumberLeftIff` is the exact limit, `LoopMisses` says where the loop can stop beyond it, and `SequenceBound` says how many switches stay below it.
- OtaSelect: anti-rollback counters, secure-boot key revocation and the inside of image verification (the set of verified partitions is a parameter).
- I2cMaster.Engine.Transmit: lists with more than fourteen START or STOP commands in a row, or with a READ directly behind one, are excluded: a register index that stays above 0 between two programs is not modelled.
- I2cMachine.TransferOutcome: a START is followed by a write; lists where it is followed by another START, a STOP or the end of the list are covered by `Transmit` and `TransferAnswer` but not by this result.
- I2cMaster: slave mode, pins, timing, bus reset, the static-buffer allocator, and overlapping read buffers (each read has its own).
- TaskScheduler.ScheduleCorrect: an order-only dependency that nobody requested is not ordered, as in the code; names are canonical, so command aliases are not modelled.
- TaskOccurrences.PulledIff: an order-only dependency that was not requested but is added by another task pulls depending on the order of the turns; for such graphs `PulledWhenLed` and `FirstOccurrenceRuns` give one direction each.
- TaskScheduler: argument parsing, option scopes and running the tasks.
- SplitArgv.Split: an argv_size of 0 is excluded, since the code then computes with size_t underflow.
- DfuArchive.DfuWriter.Finish: decoding is stated for members whose sizes fit eight hexadecimal digits, the limit of the CPIO format.
- DfuArchive: MD5 and CRC arithmetic, JSON input, sorting by address, negative addresses or product numbers (which fail in packing), and flash sizes of 4 GB and more.
- DedicGpio.Core.DeleteBundle: null handles and calls from another core are not modelled.
- DedicGpio: interrupts and callbacks, the GPIO matrix routing, and concurrent callers (each call is one step under the spinlock).
- gdma.c, i2s.c, adc, dac and gpio drivers, the console REPL and the other tools: register plumbing, user interface and file-system work that would only add easy members.
