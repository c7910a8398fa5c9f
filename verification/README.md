# A verified model of the will server's core

The project models four parts of a C++ network server in which concurrent or chunked code has to behave like something
much simpler, and proves that it does.

- **Scheduler, fibers and IO manager.** `Machine.dfy` is a machine over the atomic steps of the workers, the running
  fibers, the idle loops and the outside; `Gauges.dfy` counts over its states; `MachineInvariant.dfy` holds the
  invariant every step keeps; `MachineRuns.dfy` what holds in every reachable state and at shutdown, `MachineShutdown.dfy`
  that shutdown is reached. `Scheduler.dfy` has
  the scheduler and fiber objects, each method moving them as a step moves the machine. `IoEvents.dfy`, `IoHistory.dfy`
  and `IoManager.dfy` are the descriptor table with its event slots: values, histories and objects.
- **ByteArray.** `ByteArray.dfy` is the linked list of blocks with its cursor, `Blocks.dfy` the flat array it stands for.
  `Streams.dfy` and `ByteStreams.dfy` are the loops that move an exact number of bytes, over plain buffers and over the
  scattered slices of an array. `Codec.dfy`, `CodecBytes.dfy`, `TypedValues.dfy` and `TypedStream.dfy` are the typed values on top.
- **Timers.** `Timers.dfy` has the ordered set and its operations as functions, `TimerHistory.dfy` the histories of
  operations, `TimerEffects.dfy` what each operation answers and changes, `TimerManager.dfy` the objects.
- **HTTP requests.** `HttpTable.dfy` is the part of the generated table that origin-form requests reach,
  `HttpParser.dfy` its execution, `HttpGrammar.dfy` the grammar it accepts, `HttpRequest.dfy` the request and its printer,
  `HttpRoundTrip.dfy` printing and parsing, `HttpSplit.dfy`, `HttpCuts.dfy` and `HttpTorn.dfy` input cut into several
  calls, `HttpSession.dfy` the session and its body framing, `HttpReceived.dfy` what a received request tells of its lines.

Where the program changes things in place the model has a class whose methods are proved against functions on values;
the properties are then proved about those functions, over every input, history or run.

## What the code does against its own words

The model follows the code in each case.

- `HTTP_CTL = (0 - 31) | 127` in the grammar is a set difference in its notation, so only NUL and DEL are control
  characters. A header name may therefore hold CR, LF and other control characters.
- A method is recognised by prefix, in the order of the table: `GETX` parses as GET (`CharsToMethodIsPrefix` says when).
- Setting a header that is there under another spelling keeps the first spelling and changes the value.
- `uri_relaxed` and `query_start` are never assigned before the first run; both are arbitrary inputs of the model, and
  the theorems hold for all values. Printable requests hold `{`, `}` or `^` only if the flag happens to be set.

## Where it fails

Each of these comes with the exact condition, proved for all inputs, and with an input that fails.

- An expiry reads the clock before it takes the lock. With a perfectly monotone clock the reading can still be older than
  the last one, and within the first hour of the clock that looks like a clock that went back: all timers are handed out
  (`ExpiryIsExact`, `RolloverIff`, `StaleReadingFiresEarly`), and a recurring timer can move before a deadline that a
  sleeper has seen, without a notification (`NoLostWakeup`, `StaleReadingLosesWakeup`).
- `IOManager::stopping()` can turn false again (`StoppingStaysIff`, `HeldIsReached`).
- A typed list does not come back if a string does not fit its prefix, or if an empty string ends exactly at the capacity,
  where reading it dereferences a null cursor (`ListRoundTrip`, `WriteAndReadBack`, `LongStringIsCut`, `EmptyStringAtEdge`).
- The positional `read` starts in the cursor's block (`ReadAtIsRightIff`, `ReadAtOtherBlock`), and its unsigned range check
  lets most reads behind the size through (`OutOfRangeIsRefusedIff`, `ReadBehindSize`).
- A finished parser that is called again with less input than the request had fails an assertion
  (`ClosingAssertionsHoldIff`, `SecondCallAborts`, `OneByteAborts`); `recvRequest` never does that.
- Each call puts the marks back, but not the start of a query. A query that ends in a later call at an offset below the
  one at which it started makes the query callback throw (`ThrowsIff`, `SplitDoesNotMatter`), and the exception leaves
  `recvRequest` (`RecvRequestRaisesIff`, `CutQueryRaises`).
- A head cut inside a token is misread: the rest of a path, fragment, query or header name is taken for the whole, a
  header line cut behind its name is dropped, a method is looked for in its rest, and the rest of a version is refused
  (`TornPath`, `TornFragment`, `TornQuery`, `TornHeader`, `TornVerb`, `TornVersion`). `CutIsHarmlessIff` says exactly which
  single cuts do no harm; `CutPathIsLost` is one that does, without an error. For more than one cut
  `SafeCutsDoNotMatter` gives a sufficient condition only.
- Bytes that arrive in the same read behind the body are dropped with the session's buffer (`BytesAreLostIff`,
  `ByteIsLost`).
- `readFixSize` returns its length as `int`: reading 2^31 bytes or more can succeed and still look like a failure
  (`CompleteIsPositiveIff`, `HugeReadLooksFailed`).
- The idle loop reads the distance of the next timer as an `int`: far timers can make it wait without a bound
  (`IdleTimeoutIsBoundedIff`, `FarTimerBlocks`).

## Model

| member | source | states |
|---|---|---|
| Machine.TakeIndex | server/scheduler.cc:156-186 | a scan stops at the first task this worker may take, and skips only tasks pinned elsewhere or whose fiber is RUNNING |
| MachineInvariant.HandleWorker | server/scheduler.cc:186-217 | taking, resuming, starting and parking keep one wake-up for each fiber that waits |
| MachineInvariant.HandleCode | server/hook.cc:96-136 | what user code does (schedule, listen, sleep, cancel, end) keeps one wake-up for each fiber that waits |
| MachineInvariant.HandleIdle | server/iomanager.cc:386-453 | expired callbacks handed over and events reported keep one wake-up for each fiber that waits |
| MachineInvariant.NobodyElse | server/fiber.cc:132-147 | while a worker is about to resume a fiber or runs it, no other worker is at that fiber |
| MachineInvariant.QueuedIsWanted | server/scheduler.cc:178-181 | a fiber in the task list is ready, or still about to park |
| MachineInvariant.FinalIdle | server/iomanager.cc:340-345 | the last idle fiber to end leaves no task, timer or event behind |
| MachineInvariant.FifoStep | server/scheduler.cc:156-189 | every step keeps: unpinned callbacks taken, then queued, are the accepted ones in order |
| MachineInvariant.StepKeeps | server/scheduler.cc:133-221 | every step of every worker, fiber, idle loop and outsider keeps the whole invariant |
| MachineRuns.InitialIsGood | server/scheduler.cc:14-40 | a new manager satisfies the invariant, for any number of workers |
| MachineRuns.RunKeeps | server/scheduler.cc:133-221 | so does every state of every run |
| MachineRuns.SingleWakeup | server/iomanager.cc:187-198 | in every reachable state: a READY fiber has exactly one wake-up and no runner, a RUNNING fiber one runner and at most one wake-up, an ended fiber neither |
| MachineRuns.ResumeIsSafe | server/fiber.cc:132-134 | the assertion in `resume` never fails and no fiber runs on two threads |
| MachineRuns.EarlyReportIsHarmless | server/hook.cc:119-126 | an event reported before its fiber has switched away leaves the same state as one reported after |
| MachineRuns.ParkingIsSkipped | server/scheduler.cc:170-181 | a scan passes over a queued fiber that still runs |
| MachineRuns.UnreferencedHasEnded | server/fiber.cc:94-100 | the destructor's assertion: a fiber nothing refers to is TERM |
| MachineRuns.AcceptedIsQueuedOrTaken | server/scheduler.h:76-85 | accepted tasks are, as a multiset, the queued and the taken ones |
| MachineRuns.TakenIsStarted | server/scheduler.cc:195-207 | each taken callback gets one fiber of its own |
| MachineRuns.ShutdownIsComplete | server/scheduler.cc:95-131 | when every worker has left `run`: no task, timer, event or unfinished fiber is left, every accepted task was taken, every callback has run to its end |
| MachineRuns.SchedulerStoppingStays | server/scheduler.cc:79-82 | `Scheduler::stopping()` once true stays true over every run, where no timers, events or held callbacks add work |
| MachineRuns.SchedulerAloneStops | server/scheduler.cc:79-93 | a scheduler without events and timers, after any run: `stopping()` once true stays true |
| MachineRuns.StoppingStaysIff | server/iomanager.cc:340-345 | `IOManager::stopping()` once true stays true over every run if and only if no idle loop holds expired callbacks |
| MachineRuns.HeldIsReached | server/iomanager.cc:386-394 | a reachable manager in which `stopping()` answers true while an idle loop holds an expired callback |
| MachineRuns.CountersAreTrue | server/scheduler.cc:186-217 | the active, idle and pending counters are the sizes of what they count, in every reachable state |
| MachineShutdown.CheckEndsIff | server/iomanager.cc:360-367 | in every reachable state the check of the idle loop ends the idle fiber exactly if stop was called, the task list, timers and slots are empty and no worker holds a task or owes a count; otherwise the loop goes on to wait |
| MachineShutdown.LeavesIff | server/scheduler.cc:207-213 | a worker without a task leaves `run` exactly if its idle fiber has ended |
| MachineShutdown.NobodyIsStuck | server/scheduler.cc:133-221 | in every reachable state each worker that has not left `run` can take a step |
| MachineShutdown.CodeIsFree | server/hook.cc:96-136 | what a running fiber may do, and when |
| MachineShutdown.ShutdownIsInevitable | server/scheduler.cc:95-131 | once the manager stops with nothing held, every run has at most nine steps of each worker, and goes on until all have left `run` |
| MachineShutdown.ShutdownIsReached | server/scheduler.cc:95-131 | so from every such reachable state some run ends with all workers gone |
| MachineShutdown.NewManagerShutsDown | server/scheduler.cc:95-131 | a new manager that is stopped at once is an instance |
| MachineRuns.TakeIsFirstAllowed | server/scheduler.cc:156-189 | a scan takes the first task that is unpinned or pinned to this worker and whose fiber has switched away, and nothing exactly if there is none |
| MachineRuns.PinnedWaits | server/scheduler.cc:162-168 | over every run: a task pinned to a worker is taken by that worker only |
| MachineRuns.IdleAfterEmptyScan | server/scheduler.cc:195-217 | a worker turns idle only after a scan that found nothing it may take |
| MachineRuns.AcceptedIsAsked | server/scheduler.h:76-85 | every step puts exactly the tasks it asks for, pinned as asked, at the end of the list |
| MachineRuns.HeldIsScheduled | server/iomanager.cc:386-394 | an idle loop that holds expired callbacks schedules all of them, in their order, unpinned |
| MachineRuns.ExpiryIsHeld | server/iomanager.cc:386-394 | and holds exactly the timers it took, in their order |
| MachineRuns.PlacesAreKept | server/iomanager.cc:187-200 | what each step does to the event slots and the timers, and that nothing else touches them |
| MachineRuns.FirstInFirstOut | server/scheduler.h:76-85 | unpinned callbacks are taken in the order of their acceptance |
| Scheduler.FiberObject.Resume | server/fiber.cc:132-147 | resuming succeeds exactly on a READY fiber, which then is RUNNING |
| Scheduler.FiberObject.Yield | server/fiber.cc:149-167 | yielding fails only on a READY fiber; RUNNING becomes READY, TERM stays |
| Scheduler.FiberObject.End | server/fiber.cc:170-187 | a fiber that has run to its end is TERM and its last yield is legal |
| Scheduler.SchedulerObject.ScheduleNoLock | server/scheduler.h:76-85 | the task goes to the end of the list; a tickle is due exactly if the list was empty |
| Scheduler.SchedulerObject.Stopping | server/scheduler.cc:79-82 | the answer is the machine's |
| Scheduler.SchedulerObject.Scan | server/scheduler.cc:150-191 | the scan takes the machine's task, counts the worker active, and says exactly when others are tickled |
| Scheduler.SchedulerObject.ResumeTaken | server/scheduler.cc:199-207 | under the invariant the resume of a taken fiber never fails its assertion |
| Scheduler.SchedulerObject.BeginTaken | server/scheduler.cc:208-217 | a taken callback gets a new fiber, which is resumed |
| Scheduler.SchedulerObject.Park | server/fiber.cc:149-167 | a registered fiber switches away and is READY |
| Scheduler.SchedulerObject.Finish | server/fiber.cc:170-187 | a fiber ends as the machine's does |
| Scheduler.SchedulerObject.Return | server/scheduler.cc:204-206 | the active count is taken back and never falls below zero |
| Scheduler.SchedulerObject.EnterIdle | server/scheduler.cc:207-217 | a worker without a task leaves exactly if its idle fiber has ended |
| Scheduler.SchedulerObject.LeaveIdle | server/scheduler.cc:214-217 | the idle count is taken back and never falls below zero |
| IoHistory.TriggerBothEffect | server/iomanager.cc:77-93 | triggering halts exactly on an event that is not registered; otherwise it schedules each job asked for once, reading first |
| IoHistory.AddEventKeeps | server/iomanager.cc:145-200 | halts exactly on a registered event; a failing `epoll_ctl` changes nothing but the table's size; otherwise that event's slot holds the job, the other slot and every other descriptor stay, and the accounts balance |
| IoHistory.DelEventKeeps | server/iomanager.cc:202-238 | does nothing or deletes one registration without scheduling it: that event, its slot and its bit in the kernel's mask; the other event and every other descriptor stay |
| IoHistory.CancelEventKeeps | server/iomanager.cc:240-274 | does nothing or schedules one registration and changes nothing else; never halts |
| IoHistory.CancelAllKeeps | server/iomanager.cc:276-316 | does nothing or schedules all registrations and leaves the context empty; its assertion holds |
| IoHistory.ReportKeeps | server/iomanager.cc:412-453 | a report halts exactly if it partly overlaps the registered events; otherwise it schedules what it names, an error or hang-up naming all, and leaves the rest of the table alone, or does nothing |
| IoHistory.StepKeeps | server/iomanager.cc:145-316 | every operation that does not halt keeps the accounts |
| IoHistory.AccountsBalance | server/iomanager.cc:77-93 | after any history: each registration sits in a slot, was scheduled once or deleted once; pending is the number of bits; the kernel's mask is the events; slots are occupied exactly where bits are set |
| IoManager.IOManager.constructor | server/iomanager.cc:95-119 | a new table of 32 empty contexts |
| IoManager.IOManager.Resize | server/iomanager.cc:134-143 | old contexts stay, new ones are empty |
| IoManager.IOManager.EpollCtl | server/iomanager.cc:166-178 | ADD is asked only for a descriptor the kernel does not have, DEL only for an empty mask |
| IoManager.IOManager.TriggerEvent | server/iomanager.cc:77-93 | the objects change as the function says |
| IoManager.IOManager.AddEvent | server/iomanager.cc:145-200 | the objects change as the function says, including the growth of the table |
| IoManager.IOManager.DelEvent | server/iomanager.cc:202-238 | the objects change as the function says |
| IoManager.IOManager.CancelEvent | server/iomanager.cc:240-274 | the objects change as the function says; it never halts |
| IoManager.IOManager.CancelAll | server/iomanager.cc:276-316 | the objects change as the function says; it never halts |
| IoManager.IOManager.Report | server/iomanager.cc:412-453 | the objects change as the function says, or the assertion fails as the function says |
| IoManager.IdleTimeoutIsBoundedIff | server/iomanager.cc:371-378 | the idle loop waits at most five seconds, and no longer than the next timer asks, exactly if the distance read as an `int` is not negative; and how long |
| IoManager.FarTimerBlocks | server/iomanager.cc:373-378 | a timer 2^31 milliseconds ahead makes the wait unbounded |
| Blocks.WritesJoin | server/bytearray.cc:345-384 | two writes in a row are one write of both texts |
| Blocks.WriteIsSplice | server/bytearray.cc:345-384 | what is in front of the cursor and behind the text stays |
| Blocks.WrittenIsReadable | server/bytearray.cc:446-462 | after seeking back a reader finds what was written, then what was there before |
| ByteArray.ByteArray.constructor | server/bytearray.cc:33-41 | an empty array of one block |
| ByteArray.ByteArray.AddCapacity | server/bytearray.cc:506-535 | there is room, the contents stay, and growth is the least possible in whole blocks |
| ByteArray.ByteArray.Write | server/bytearray.cc:345-384 | the flat array is overwritten at the position, everything else stays, the size covers the position |
| ByteArray.ByteArray.Read | server/bytearray.cc:386-414 | the next bytes of the flat array, an error beyond the size, or a null dereference at the end of the capacity |
| ByteArray.ReadIsExact | server/bytearray.cc:386-392 | the first readable bytes, a range error exactly if there are too few, a null dereference exactly at the end of the capacity |
| ByteArray.ByteArray.ReadAt | server/bytearray.cc:416-444 | what the positional read gives for every position and cursor, with the wrap-around of its range check |
| ByteArray.OutOfRangeIsRefusedIff | server/bytearray.cc:417-419 | a read behind the size is refused exactly if it starts inside the size or asks for more than the wrapped difference |
| ByteArray.ReadBehindSize | server/bytearray.cc:417-419 | a read of one byte behind the size of an empty array that is let through |
| ByteArray.ReadAtIsRightIff | server/bytearray.cc:416-444 | it gives the bytes at the position, for all contents, exactly if the position lies in the cursor's block and the cursor is not null |
| ByteArray.ReadAtOtherBlock | server/bytearray.cc:421-424 | a read of the second block that gives the first |
| ByteArray.ByteArray.SetPosition | server/bytearray.cc:446-462 | seek up to the capacity, the size following; an error beyond |
| ByteArray.ByteArray.Clear | server/bytearray.cc:332-343 | one block again, nothing in it, the cursor on it |
| ByteArray.ByteArray.ToString | server/bytearray.cc:537-545 | exactly the readable bytes, always |
| ByteArray.ByteArray.GetReadBuffers | server/bytearray.cc:563-592 | slices lying one behind the other from the cursor, as many bytes as asked or readable |
| ByteArray.ByteArray.GetReadBuffersAt | server/bytearray.cc:594-629 | the same from any given position, cut by what is readable at the cursor; a null dereference exactly where the blocks end before |
| ByteArray.ByteArray.GetWriteBuffers | server/bytearray.cc:631-659 | slices lying one behind the other from the cursor, exactly the length asked, after the least growth |
| ByteArray.ByteArray.GatheredIsFlat | server/bytearray.cc:563-592 | such slices concatenate to the flat bytes from there on |
| ByteArray.ByteArray.Scatter | server/socket_stream.cc:28-39 | filling such slices is overwriting the flat bytes from there on |
| ByteStreams.ReceiveInto | server/socket_stream.cc:28-39 | receiving into the slices and moving the cursor is the same as `write` of what arrived |
| ByteStreams.SendFrom | server/socket_stream.cc:48-59 | the next readable bytes go out and the cursor moves over those accepted |
| ByteStreams.ReadFixSize | server/stream.cc:19-29 | over any partial receives and growth, one write of exactly what was gathered |
| ByteStreams.WriteFixSize | server/stream.cc:46-56 | over any partial sends, exactly the next readable bytes in order, or a prefix; for any length, also beyond what is readable |
| Streams.PushUpToIsPush | server/stream.cc:46-56 | with enough to send that is the plain loop; otherwise it ends before the length |
| Streams.GatherIsExact | server/stream.cc:5-17 | what is gathered is a prefix of what was sent, no gap, no repeat |
| Streams.GatherFallsShort | server/stream.cc:8-12 | all the answers used are positive if everything is gathered; if not, the last one is zero or less or nothing is left to deliver, and it is the loop's answer |
| Streams.GatherSucceeds | server/stream.cc:8-16 | enough bytes and enough positive answers give everything |
| Streams.PushFallsShort | server/stream.cc:31-44 | all the answers used are positive if everything went out; if not, the last one is zero or less and is the loop's answer |
| Streams.PushUpToFallsShort | server/stream.cc:46-56 | so it is where too little is left to send |
| Streams.Connection.ReadFixSize | server/stream.cc:5-17 | the loop gathers exactly that, and its answer |
| Streams.Connection.WriteFixSize | server/stream.cc:31-44 | the loop sends exactly the accepted prefix, and its answer |
| Streams.CompleteIsPositiveIff | server/stream.cc:16 | a complete transfer answers a positive number exactly if the length modulo 2^32 lies strictly between 0 and 2^31 |
| Streams.HugeReadLooksFailed | server/stream.cc:16 | 2^31 bytes read in two calls answer a negative number |
| Codec.ZigzagOrder | server/bytearray.cc:113-127 | the wrapping negation and doubling give 0, -1, 1, -2, 2 and so on, for every number of the type |
| Codec.ZigzagIsBijection | server/bytearray.cc:129-135 | encoding and decoding undo each other, both ways |
| Codec.VarintRoundTrip | server/bytearray.cc:254-266 | reading a written number gives it back and takes exactly its bytes, whatever follows |
| Codec.VarintLength | server/bytearray.cc:142-151 | one byte for each started seven bits, in both directions |
| Codec.ScanInType | server/bytearray.cc:272-284 | whatever bytes are read: at most 5 or 10 of them, groups do not overlap, and the result is a number of the type |
| Codec.HostDoesNotMatter | server/endian.h:12-32 | what is written depends on the chosen order alone, not on the machine's |
| Codec.HostDoesNotMatterBack | server/bytearray.cc:216-223 | nor does the number read back |
| CodecBytes.WrittenBytes | server/bytearray.cc:71-111 | on every machine byte `k` of a fixed field is the number's byte at its place, the highest first in big-endian order |
| CodecBytes.BigComesFirst | server/endian.h:12-32 | 0x0102 in big-endian order is written 01 02 |
| CodecBytes.ReadIsSum | server/bytearray.cc:216-252 | the number read is the sum of the bytes, each at its place, on every machine |
| CodecBytes.EncodedBytes | server/bytearray.cc:71-202 | the bytes of every fixed-width value, negative ones in two's complement, and of a string behind its size |
| CodecBytes.VarintByte | server/bytearray.cc:142-166 | byte `k` of a varint holds the bits from `7 * k` on, and its top bit says whether more follow |
| CodecBytes.ScanIsSum | server/bytearray.cc:254-284 | whatever the bytes: reading takes them up to the first without a top bit, or until the type is full, and adds their groups |
| Codec.FixedRoundTrip | server/bytearray.cc:71-111 | a number that fits its field comes back |
| Codec.FixedTruncates | server/bytearray.cc:180-183 | one that does not comes back modulo the field |
| TypedValues.ValueRoundTrip | server/bytearray.cc:300-330 | one value comes back exactly if a string fits its prefix and an empty one does not end at the capacity |
| TypedValues.ListRoundTrip | server/bytearray.cc:71-202 | any list of typed values, each in its own byte order, comes back, ending behind it, exactly under that condition |
| TypedValues.EmptyStringAtEdge | server/bytearray.cc:391-392 | an empty string at the end of the capacity is the null dereference |
| TypedValues.LongStringIsCut | server/bytearray.cc:180-183 | a string of 65536 bytes with a prefix of two comes back empty |
| TypedValues.WrittenListIsReadBack | server/bytearray.h:35-60 | the list comes back from a buffer it was written to, whatever else it holds, exactly under that condition |
| TypedStream.WriteFixed | server/bytearray.cc:71-111 | swap if needed and write: the chosen order, whatever the machine's |
| TypedStream.FillVarint | server/bytearray.cc:157-166 | the loop writes the number's code and never overruns its 5 or 10 bytes |
| TypedStream.WriteUint | server/bytearray.cc:142-166 | one write of the number's code |
| TypedStream.WriteValue | server/bytearray.cc:71-202 | one write of the value's code, for every kind |
| TypedStream.WritePrefixed | server/bytearray.cc:180-193 | size cut to its prefix, then the string, as one write |
| TypedStream.ReadUint | server/bytearray.cc:254-284 | the loop reads what the code says, or fails where the bytes end |
| TypedStream.ReadValue | server/bytearray.cc:204-330 | every kind reads what the code says and leaves the cursor behind it |
| TypedStream.WriteAll | server/bytearray.cc:71-202 | value after value, one write of the list's code |
| TypedStream.ReadAll | server/bytearray.cc:204-330 | value after value, what the code of the list says, up to the first failure |
| TypedStream.WriteAndReadBack | server/bytearray.cc:446-462 | the whole trip on the array: write a list, seek back, read it; it comes back exactly if every string fits its prefix and the list does not end, in an empty string, at the capacity |
| Timers.FindsMember | server/timer.cc:41-50 | `find` finds what is in the set, and only that |
| Timers.FindsLive | server/timer.cc:43-46 | the unchecked `find` in `cancel` always succeeds |
| Timers.DueCountIsExact | server/timer.cc:156-162 | whatever the probe's address, the cut lies behind exactly the timers due |
| Timers.RecycleEffect | server/timer.cc:166-176 | the loop over the expired: recurring timers are set again, the others end, nothing else changes |
| TimerHistory.RefreshKeeps | server/timer.cc:52-65 | the invariant, and success exactly on a waiting timer |
| TimerHistory.ResetKeeps | server/timer.cc:67-91 | the invariant, and success exactly on a waiting timer or when nothing changes |
| TimerHistory.RolloverIff | server/timer.cc:192-200 | a rollover is seen exactly on a reading before the last one, if that was in the first hour or more than an hour later |
| TimerHistory.ExpiryIsCut | server/timer.cc:137-177 | the callbacks of exactly the timers due, or of all if a rollover is seen, in the order of deadlines, for any reading |
| TimerHistory.ExpiryIsExact | server/timer.cc:137-177 | exactly the timers due, if and only if no rollover is seen or all are due |
| TimerHistory.StaleReadingFiresEarly | server/timer.cc:138-152 | a reading older than another worker's hands out a timer far too early |
| TimerHistory.ExpireKeeps | server/timer.cc:166-176 | for any reading: the timers handed out are set again or end, all others stay, and the set stays ordered |
| TimerHistory.ExpiryLeavesLater | server/timer.cc:137-177 | afterwards only deadlines behind the reading and recurring timers of period 0; the probe's address does not matter |
| TimerHistory.StepKeeps | server/timer.cc:41-190 | every operation keeps: a timer has a callback exactly if it is in the strictly ordered set, no start lies after the clock |
| TimerHistory.NoLostWakeup | server/timer.cc:121-135 | after any look and any operations: up to the next notification no deadline is before the one seen, if and only if no expiry sees a rollover and sets a timer again before it |
| TimerHistory.NobodyOversleeps | server/timer.cc:121-135 | without such an expiry an earlier deadline means a notification since; a sleeper that heard none does not oversleep |
| TimerHistory.FreshReadingsDoNotSlip | server/timer.cc:137-153 | there is none in a history whose expiries have readings not older than others |
| TimerHistory.StaleReadingLosesWakeup | server/timer.cc:166-172 | a recurring timer set again before the deadline a sleeper saw, unnotified |
| TimerHistory.AfterFiveIsReached | server/timer.cc:100-106 | the states of both failing inputs are reached from an empty manager |
| TimerHistory.AtMostOneFire | server/timer.cc:179-190 | between two looks at most one notification, none if one is outstanding |
| TimerHistory.OneShotEndsOnce | server/timer.cc:165-175 | over any history a one-shot timer is delivered once, cancelled once or still waits, never two of these |
| TimerHistory.CancelIsFinal | server/timer.cc:41-50 | `cancel` answers true at most once; a timer that does not wait is never delivered again |
| TimerEffects.WaitIsExact | server/timer.cc:121-135 | the waiting time is the largest number exactly if no timer waits, 0 exactly if one is due, and otherwise the time to the first deadline |
| TimerEffects.AddIsExact | server/timer.cc:28-35 | a new timer is due its period after the clock was read; it notifies exactly if the flag is down and no waiting timer comes before it |
| TimerEffects.RefreshIsExact | server/timer.cc:52-65 | a refreshed timer is due its period after now, all others stay, nothing is notified |
| TimerEffects.ResetIsExact | server/timer.cc:67-91 | a timer set again is due its new period after now or after its old start, all others stay; it notifies like a new one |
| TimerEffects.CancelIsExact | server/timer.cc:41-50 | a cancelled timer loses its callback, all others stay |
| TimerEffects.ExpireIsExact | server/timer.cc:168-173 | an expired timer is set again with its period and callback if it recurs, and loses its callback otherwise |
| TimerEffects.ExpireRemembers | server/timer.cc:137-150 | an expiry remembers its reading exactly if some timer waits |
| TimerManager.TimerManager.LowerBoundOf | server/timer.cc:157-158 | the search gives the first timer not before the key |
| TimerManager.TimerManager.AddTimer | server/timer.cc:100-106 | the objects change as the function says, and it notifies as the function says |
| TimerManager.TimerManager.ArmOne | server/timer.cc:179-190 | insertion, flag and notification |
| TimerManager.TimerManager.Cancel | server/timer.cc:41-50 | the objects change as the function says |
| TimerManager.TimerManager.Refresh | server/timer.cc:52-65 | the objects change as the function says |
| TimerManager.TimerManager.Reset | server/timer.cc:67-91 | the objects change as the function says |
| TimerManager.TimerManager.GetNextTimer | server/timer.cc:121-135 | the time to wait, and the flag lowered |
| TimerManager.TimerManager.DetectClockRollover | server/timer.cc:192-200 | the answer with its unsigned subtraction, and the time remembered |
| TimerManager.TimerManager.HandOut | server/timer.cc:166-176 | the loop hands out each callback before its timer is set again or ended |
| TimerManager.TimerManager.ListExpiredCb | server/timer.cc:137-177 | the objects change as the function says, for any reading of the clock, and it returns its callbacks |
| HttpRequest.CharsToMethodIsPrefix | server/http/http.cc:16-24 | a method is recognised exactly if its name is a prefix of the text |
| HttpRequest.NamesAreBytes | server/http/http.h:18-61 | the name of every method, byte by byte, as it is printed and looked for |
| HttpRequest.KeyIsCaseless | server/http/http.cc:51-53 | two names are the same header exactly if they differ in nothing but the case of letters |
| HttpRequest.LessIff | server/http/http.cc:51-53 | the order is decided by the first byte in which the folded names differ; a beginning comes first |
| HttpRequest.SetKeepsSpelling | server/http/http.cc:73-75 | assignment to a name that is there leaves all names as they are spelled |
| HttpRequest.LessTransitive | server/http/http.cc:51-53 | the header order is transitive |
| HttpRequest.LessTotal | server/http/http.cc:51-53 | two names are ordered or have the same key |
| HttpRequest.SetKeepsSorted | server/http/http.cc:73-75 | assignment keeps the map ordered |
| HttpRequest.GetAfterSet | server/http/http.cc:61-75 | assignment changes what is found under that name, in any case, and nothing else |
| HttpRequest.Dump | server/http/http.cc:127-157 | the printer's loop prints the request line, the connection line, the other headers, the length and the body |
| HttpRoundTrip.PrintExample | server/http/http.cc:127-157 | a request with every part, and its print byte by byte |
| HttpParser.RequestParser.Perform | server/http/http11_parser.rl:53-113 | each action marks or calls back as the function says; the query callback throws exactly if the query ends in front of its start |
| HttpParser.RequestParser.ExecuteTable | server/http/http11_parser.rl.cc:91-115 | the loop over the characters runs the table; a call that throws assigns neither control state nor count |
| HttpParser.RequestParser.ExecuteInPlace | server/http/http_parser.cc:99-103 | one call, and the rest of the buffer moved to its front, unless it throws |
| HttpParser.ClosingAssertionsHoldIff | server/http/http11_parser.rl.cc:6654-6670 | all five assertions at the end of a call that gets there hold exactly if the body start left by earlier calls lies inside the input or the call finishes a request |
| HttpSession.RecvRequestDoesNotAbort | server/http/http_session.cc:17-37 | no call that `recvRequest` makes fails them |
| HttpSession.RecvRequestRaisesIff | server/http/http_parser.cc:42-45 | `recvRequest` ends with the exception of the query callback exactly if a read brings the end of a query at an offset below the one at which it started in an earlier read |
| HttpSession.CutQueryRaises | server/http/http_parser.cc:42-45 | a well-formed message in two reads that makes it throw |
| HttpSession.SecondCallAborts | server/http/http11_parser.rl.cc:6665 | a further call with less input than the request fails one, unless it finishes a request itself |
| HttpSession.OneByteAborts | server/http/http11_parser.rl.cc:6665 | a request of 16 bytes, then one byte |
| HttpGrammar.MessageIsAccepted | server/http/http11_parser.rl.cc:370-628 | every message of the grammar is accepted up to its last byte, whatever follows, and each callback got its part |
| HttpGrammar.AcceptedIsMessage | server/http/http11_parser.rl.cc:370-628 | whatever is accepted starts with a message of the grammar |
| HttpGrammar.UriRangesAreGrammar | server/http/http11_parser.rl:129-140 | the ranges the table tests are the grammar's URI characters, relaxed or not |
| HttpGrammar.TokenRangesAreGrammar | server/http/http11_parser.rl:220-234 | and its method and token characters |
| HttpGrammar.TableIsGrammar | server/http/http11_parser.rl:124-255 | the table accepts exactly the grammar of origin-form requests, over the grammar's own alphabet, consumes exactly the message and builds its meaning |
| HttpRoundTrip.PrintedIsMessage | server/http/http.cc:132-154 | a printed head is a message of the grammar's shape |
| HttpRoundTrip.PrintedIsWellFormed | server/http/http11_parser.rl:219-243 | and a well-formed one for every printable request |
| HttpRoundTrip.HeadersComeBack | server/http/http_parser.cc:66-75 | the header map read back finds every printed value under every spelling |
| HttpRoundTrip.PrintParseRoundTrip | server/http/http_parser.cc:16-75 | parsing a printed request stops just behind the empty line and rebuilds method, path, query, fragment, version and headers |
| HttpSplit.ThrowsIff | server/http/http11_parser.rl.cc:94-97 | a call throws exactly if it goes on with a query that ends in it at an offset below the one at which it started |
| HttpSplit.SplitDoesNotMatter | server/http/http11_parser.rl.cc:91-110 | control state and bytes consumed do not depend on how the input is cut into calls, unless a call throws, and exactly when one does |
| HttpCuts.SafeCutsDoNotMatter | server/http/http11_parser.rl.cc:91-97 | with cuts only where no mark is needed no call throws, and the request, too, is that of a single call |
| HttpTorn.TornVerb | server/http/http11_parser.rl:69-72 | a method cut in two: the second call looks for a method in what it sees, error flag included |
| HttpTorn.TornPath | server/http/http11_parser.rl:95-98 | a path cut in two: the second call takes what it sees of it |
| HttpTorn.TornQuery | server/http/http11_parser.rl:84-88 | a query cut in two: the second call throws, or takes what lies behind the old start in its own input; exactly when |
| HttpTorn.TornFragment | server/http/http11_parser.rl:79-82 | a fragment cut in two: the second call takes what it sees of it |
| HttpTorn.TornVersion | server/http/http_parser.cc:47-61 | a version cut in two sets the error flag, or, if it was complete, passes for 1.1 |
| HttpTorn.TornHeader | server/http/http11_parser.rl:56-67 | a header line cut in two: the name is what the second call sees of it, and without any of it the line is dropped |
| HttpTorn.CutIsHarmlessIff | server/http/http11_parser.rl.cc:91-97 | of any input that a single call reads as a request, cut once: the two calls read the same request exactly if no token is torn, the rest of the method is read as the same method, a 1.1 is complete, the empty line is cut, or the header line makes no difference |
| HttpCuts.CutPathIsLost | server/http/http11_parser.rl.cc:94-97 | for one: a path cut in two is read as its second half, without an error |
| HttpSplit.ErrorIsSticky | server/http/http11_parser.rl.cc:6654-6660 | an error stays and consumes nothing |
| HttpSplit.UnfinishedConsumesAll | server/http/http_session.cc:24-36 | a parser that neither ends, fails nor throws has consumed its whole input |
| HttpSession.NothingIsCarriedOver | server/http/http_session.cc:17-37 | so the carried offset is 0 as long as the loop goes on |
| HttpSession.Session.Round | server/http/http_session.cc:18-36 | one round of the loop, with its ways out: closed, an exception, a request |
| HttpSession.Session.RecvRequest | server/http/http_session.cc:10-65 | the whole method is the function of what arrives, the exception of a cut query included |
| HttpSession.Session.FinishRequest | server/http/http_session.cc:38-64 | the body from the buffer and from further reads |
| HttpReceived.EveryCloseFlag | server/http/http_session.cc:60-63 | in every received request, whatever arrived, the close flag is off exactly if the header `connection` is `keep-alive` in any case |
| HttpReceived.CloseFlagIsAsked | server/http/http_session.cc:60-63 | for every message: exactly if its last header line named `connection`, in any spelling, says so |
| HttpReceived.HostAloneCloses | server/http/http.h:181 | a message without such a line is received with the flag on |
| HttpReceived.LengthOfLines | server/http/http_session.cc:38 | the announced length is the value of the last line named `content-length`, as a signed number of 64 bits, or 0 |
| HttpReceived.UnknownMethodCloses | server/http/http_session.cc:25-28 | a message with an unknown method closes the session |
| HttpSession.HeadInPieces | server/http/http_session.cc:17-37 | receiving the head in pieces is parsing, in one call, what was read |
| HttpSession.BodyFraming | server/http/http_session.cc:38-59 | when the head arrives, at once or cut in safe places, the body is exactly the first Content-Length bytes behind the empty line, however the rest is cut; only a failed transfer gives nothing; what is left on the connection; all in terms of what the header loop received |
| HttpSession.OneReadIsSafe | server/http/http_session.cc:18-24 | a head that comes with the first read arrives |
| HttpSession.BytesAreLostIff | server/http/http_session.cc:43-50 | bytes behind the body are lost exactly if more came with the head than the body |
| HttpSession.ByteIsLost | server/http/http_session.cc:43-50 | one byte behind a request without a body, in the same read, is lost |
| HttpSession.SentRequestIsReceived | server/http/http_session.cc:10-65 | end to end: a printed request sent over any such connection is received as it was, exactly unless fetching the rest of its body fails |
| HttpSession.NewRequestIsReceived | server/http/http.cc:55-60 | the request every request object starts as is |

## Left out

Assumptions of the machine:

- Each locked section is one step, and so is `yield`: the code sets READY before it switches contexts.
- The three reads in `IOManager::stopping` are one step; so are the lookup and growth of the table in `addEvent`.
- A failed assertion halts: such a step does not exist in the machine, or an operation answers that it halted.
- Work from outside the workers arrives only before `stop`; a fiber switches away only after it has registered or scheduled itself
  for one wake-up and does nothing in between, as the hooked calls do; nobody deletes the event a parked fiber waits for;
  user code does not cancel the timer of a sleep.
- Answers of `epoll_wait` are arbitrary: any idle loop may report any occupied slot at any time.

Simplifications:

- Timers inside the machine are a list in deadline order from which any prefix may expire; callbacks that are not
  wake-ups may reappear anywhere (recurring, refreshed and reset timers). The timer component itself is modelled apart.
- Inside the machine an occupied slot stands for the event bit and the slot; `IoHistory` proves that they agree.
- A timer's address is never used again by another timer. Deadlines and sizes do not overflow 64 bits.
- The clock never goes back. A reading taken before the lock, for a new timer or an expiry, may be older than others.
- The byte order is an argument of the typed operations instead of a field of the array, and so is the machine's own.
- Numbers are unbounded integers with wrap-around written out; `|` of numbers without common bits is `+`, and the
  exclusive or in the zigzag decoder is with all zeros or all ones.
- Gathered sends and scattered receives take their slices in order, as the kernel does.
- `getHeaderAs` converts by a function given as a parameter; the end-to-end theorem asks that it undoes decimal printing.
- `StringWithoutLength` is `write` itself. Allocation never fails, also not for a huge announced length.
- HttpSplit.SplitDoesNotMatter: says nothing about recovered tokens, because marks restart with each call;
  `SafeCutsDoNotMatter` and `CutIsHarmlessIff` do.
- HttpTorn.CutIsHarmlessIff: compares header maps by what lookups find, not by the spelling of their names, and speaks
  of one cut.
- HttpRoundTrip.HeadersComeBack: requires the printed request's own header map to be ordered, as the map always is.

Not modelled:

- Real context switching, threads, locks, epoll, pipes and symbol lookup.
- That a wake-up comes promptly: `hasIdleThreads` is read before a worker about to sleep counts itself idle, so only the
  wait of the idle loop bounds the delay: five seconds, or nothing for far timers (`IdleTimeoutIsBoundedIff`).
- The timeout of hooked calls: one flag is shared by all retries, so an old timer in flight can disarm the next one.
- Races of several threads in growing the context table and the descriptor table.
- Files behind `writeToFile` and `readFromFile`, floating point values, hexadecimal dumps, logging, addresses, sockets.
- The rest of the request table (absolute URIs, IPv6 authorities, sockets with XML or JSON), the response parser, the
  servlet dispatcher and the server's plumbing.
