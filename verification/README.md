# Verified model of CpuUsageTracker

CpuUsageTracker samples `/proc/stat`, turns pairs of samples into usage percentages and prints them.
Five threads share two ring buffers, a log and a kill switch. This project models its three connected
cores and proves what they keep.

**The ring buffer** (`CircularBuffer.dfy`) is a class over a flat byte array, updated in place. It is
refined in two steps: bytes to slots, and slots to a bounded queue that drops its oldest item
(`DropOldest.dfy`), which is what every other part uses a ring as.

**The pipeline** of reader, analyzer and printer (`Channel.dfy`, `Pipeline*.dfy`) is a state machine.
Each thread is a program counter over the loop in its file; one event is one step of one thread, with
the environment deciding whether a lock succeeds, what a load yields and how a wait ends, or the kill
switch being set. A run is any sequence of events, so a statement about all runs is a statement about
all interleavings. Every turn of each thread's loop is checked against the loop's body as the source has
it: which tests, locks, waits and writes it makes, what each answer leads to, and what the turn brings
about (`WaitLoops.dfy`, `PipelineTurns.dfy`, `AnalyzerTurns.dfy`, `LoggerTurns.dfy`). `CpuUsage.dfy` gives
the records their meaning, and `AnalyzerLoop.dfy` is the analyzer's loop as sequential code over heap
buffers, which the state machine refines (`PipelineRefinement.dfy`). The logger's double buffer
(`Logger.dfy`, `LoggerThread.dfy`) is a smaller machine on the same ring.

**The watchdog** (`Timespec.dfy`, `Watchdog.dfy`) is a timed state machine over the hand-written
`struct timespec` helpers, modelled with their 32-bit intermediates, their carry on `>`, their borrow
on equality and a comparison that never returns 0.

A ring in the state machines is the queue that `CircularBuffer.Contents` stands for; the rings' capacities
and the number of cpu lines are parameters (the program uses 10 and 1, `app/app.c:20-21`, and 100 for
the log).

## Assumptions

- `Mutex_unlock` succeeds when called by the owner. Timed locks may fail at any time and timed waits
  may end by signal, spuriously, by time-out or by error, as sections 7.26.3.5 and 7.26.4.4 of
  ISO/IEC 9899:2011 allow. A wait that ends by error holds the mutex again, as `sync.h` says.
- A ring has at least one slot, and the byte length of its buffer fits `size_t`.
- `double` is idealised to `real`; serial numbers and event counts do not wrap.
- Clock readings are canonical (non-negative seconds, nanoseconds below 10^9), and `time_t` does not
  overflow. The clock is monotone only where a statement says so (`MonotoneClock`).

## Where the code and its documentation differ

The model follows the code; each difference is a lemma giving the exact condition, or a concrete run.

- `CircularBuffer_peekMany` copies the head item every time (`PeekManyKeepsPromiseIff`).
- `timespecCompare` returns -1 for equal times (`CompareIsThreeWayIff`), and so
  `findLowestTimespecIndex` returns the last, not the first, of equal minima
  (`LowestIndexIsFirstMinimumIff`).
- The percentage is not always in 0..100 (`PercentageInRangeIff`, `PercentageOfTicksInRangeIff`).
- The reader can write to a full ring, even when no wait times out, whatever the capacities
  (`LossWithoutTimeouts`); it does so exactly when it came straight from a wait that ended with the ring
  still full (`SampleLosses`).
- The logger enters its swap section when the lock attempt failed, so messages can come out of order,
  whatever the capacity (`UnheldSwapReorders`): exactly by a swap of two rings that both hold messages,
  or a write to the ring a swap took away while the other holds messages (`LogInOrderIff`). Holding the
  mutex at every swap excludes both (`HeldSwapsKeepOrder`), and it is held there exactly when it was held
  at the failed attempt (`TurnsToSwap`).
- The logger can end holding the mutex, with up to a full ring of messages unwritten
  (`ExitMayKeepMutex`): exactly when it held the mutex at the test that ended its loop
  (`EndsHoldingMutexIff`). What is buffered at the final lock attempt is written exactly when that
  succeeds or nothing is buffered (`ExitWritesAllIff`).
- Nothing signals the condition variable the analyzer waits on for room in its output
  (`RecordLosses`, `LostRecordsFollowTimeouts`).

## Model

| member | source | states |
|---|---|---|
| DropOldest.PushAllKeepsLast | libs/circbuf/circbuf.c:172-186 | overwriting writes of any number of items leave the last `capacity` of contents ++ input |
| DropOldest.PushAllConcat | libs/circbuf/circbuf.c:172-186 | writing xs and then ys is writing xs ++ ys |
| DropOldest.PushAllFits | libs/circbuf/circbuf.c:158-169 | a batch that fits the free space evicts nothing |
| DropOldest.WriteAccounts | libs/circbuf/circbuf.c:97-123 | a write keeps the ring a contiguous suffix of its history and loses an item exactly when the ring was full |
| DropOldest.ReadAccounts | libs/circbuf/circbuf.c:126-140 | a read takes the first position of the history not yet read or lost |
| CircularBuffers.SlotsApart | libs/circbuf/circbuf.c:7-7 | slots at offset * itemSize never overlap |
| CircularBuffers.SlotsUpdate | libs/circbuf/circbuf.c:120-122 | copying itemSize bytes to a slot replaces that slot and no other |
| CircularBuffers.WriteSlotExactIff | libs/circbuf/circbuf.c:104-109 | the slot computed with a 32-bit sum is (readOffset + itemCount) mod capacity exactly when the sum does not wrap |
| CircularBuffers.WriteSlotExactForCapacity | libs/circbuf/circbuf.c:104-109 | the slot is right in every in-range state exactly when the capacity is at most 2^31 |
| CircularBuffers.WriteRefinesPush | libs/circbuf/circbuf.c:104-118 | the new offset and count make a slot write the overwriting write of the queue, evicting exactly the oldest item of a full ring |
| CircularBuffers.ReadRefinesTail | libs/circbuf/circbuf.c:126-140 | advancing readOffset with wrap-around drops exactly the oldest item |
| CircularBuffers.PeekManyKeepsPromiseIff | libs/circbuf/circbuf.c:209-226 | the copies of the head are the promised first items exactly when the ring is empty or the first n items exist and all equal the head |
| CircularBuffers.CircularBuffer.constructor | libs/circbuf/circbuf.c:35-57 | takes any 32-bit capacity; a new ring is empty, and usable exactly for a capacity from 1 to 2^31 |
| CircularBuffers.CircularBuffer.Clear | libs/circbuf/circbuf.c:72-81 | afterwards the ring is empty |
| CircularBuffers.CircularBuffer.IsEmpty | libs/circbuf/circbuf.c:251-259 | true exactly for an empty queue |
| CircularBuffers.CircularBuffer.IsFull | libs/circbuf/circbuf.c:262-270 | true exactly for a queue of `capacity` items |
| CircularBuffers.CircularBuffer.Write | libs/circbuf/circbuf.c:97-123 | the bytes decode to the drop-oldest queue after the write, and only the slot behind the last item changed |
| CircularBuffers.CircularBuffer.TryWrite | libs/circbuf/circbuf.c:84-94 | appends exactly when there is room and otherwise changes nothing |
| CircularBuffers.CircularBuffer.Peek | libs/circbuf/circbuf.c:143-155 | copies the oldest item's bytes, or leaves the output alone when empty |
| CircularBuffers.CircularBuffer.Read | libs/circbuf/circbuf.c:126-140 | copies and drops the oldest item, or changes nothing when empty |
| CircularBuffers.CircularBuffer.WriteMany | libs/circbuf/circbuf.c:172-186 | the queue becomes the last `capacity` of contents ++ input, for any input length |
| CircularBuffers.CircularBuffer.TryWriteMany | libs/circbuf/circbuf.c:158-169 | appends exactly the first min(n, free) items, evicts none, and returns their number |
| CircularBuffers.CircularBuffer.ReadMany | libs/circbuf/circbuf.c:189-206 | removes the first min(n, count) items, lays them out in order, and leaves the rest of the output alone |
| CircularBuffers.CircularBuffer.PeekMany | libs/circbuf/circbuf.c:209-226 | fills n slots with copies of the head and leaves the rest of the output alone, or returns 0 and changes nothing when empty |
| CircularBuffers.RoundTrip | libs/circbuf/circbuf.c:158-206 | for any ring and batch, a batch appended and then a full read return the old contents and the items there was room for, unchanged and in order, and leave the ring empty |
| CpuUsage.PercentageInRangeIff | src/utils/cpuusage.c:41-49 | for any two lines the value is in the documented 0..100 exactly when the wrapped total moved and the wrapped idle time moved by no more |
| CpuUsage.PercentageOfTicksInRangeIff | src/utils/cpuusage.c:22-49 | in true times: exactly when time went on and neither idle nor busy time went back, or all in all time went back but not both of them |
| CpuUsage.ShrinkingIdleIsOutOfRange | src/utils/cpuusage.c:22-49 | one idle tick taken back while user time went on puts the value out of range |
| CpuUsage.BusyShareTimesTotal | src/utils/cpuusage.c:47-49 | weighting the value by the total delta gives 100 times the busy delta |
| CpuUsage.IdleShowsTicks | src/utils/cpuusage.c:22-23 | the sum of the two wrapped idle columns is the true idle time modulo 2^64 |
| CpuUsage.NonIdleShowsTicks | src/utils/cpuusage.c:25-39 | the sum of the six wrapped busy columns is the true busy time modulo 2^64 |
| CpuUsage.DeltasAreTrueGrowth | src/utils/cpuusage.c:22-45 | for lines showing unbounded counters modulo 2^64, of which neither time goes back and together they grow by less than 2^64, the wrapped deltas are the true growths |
| CpuUsage.PercentageUnderGrowth | src/utils/cpuusage.c:22-49 | then a percentage is in 0..100, or exactly -100 when and only when no time passed, and weighted by the total delta it is the true busy growth |
| CpuUsage.CpuUsageInfo.Calculate | src/utils/cpuusage.c:53-78 | fills one value per line of the old sample, from the same line of the new one, and touches nothing beyond |
| Timespecs.AddIsExactIff | src/threads/watchdog.c:57-70 | the sum is exact exactly when its seconds fit 32 bits, and canonical exactly when the nanoseconds do not add up to 10^9 |
| Timespecs.DifferenceIsExact | src/threads/watchdog.c:123-143 | the difference is exact with nanoseconds in 1..10^9 |
| Timespecs.AddThenSubtract | src/threads/watchdog.c:57-143 | adding and subtracting gives the time back exactly when the seconds of the sum fit 32 bits, and the same fields exactly when, besides, its nanoseconds are not 0 |
| Timespecs.CompareIsThreeWayIff | src/threads/watchdog.c:79-90 | the documented three-way result holds exactly for unequal times; positive means strictly later; never 0 |
| Timespecs.GuardIsExact | src/threads/watchdog.c:290-290 | the guard on difference and comparison is a comparison of true durations, for every canonical allowance |
| Timespecs.MsToTimespecIsExactIff | src/threads/watchdog.c:151-157 | nanoseconds are right for every 64-bit input and the value is exact exactly below 1000 * 2^32 ms |
| Timespecs.TimePointMs | src/utils/helpers.c:79-101 | for every 32-bit ms the result is canonical and exactly ms milliseconds after now |
| Timespecs.DeadlinesAgreeIff | src/utils/helpers.c:79-101 | the watchdog's helpers build the same deadline exactly when the seconds of the sum fit 32 bits and the nanoseconds do not add up to 10^9 |
| Watchdogs.FindLowestTimespecIndex | src/threads/watchdog.c:100-113 | the loop over the array ends with the index its specification function names |
| Watchdogs.LowestIndexIsLastMinimum | src/threads/watchdog.c:100-113 | that index is the last of the minimal elements |
| Watchdogs.LowestIndexIsFirstMinimumIff | src/threads/watchdog.c:93-99 | it is the documented lowest index exactly when one stamp is earlier than all others |
| Watchdogs.EqualStampsPickTheSecond | src/threads/watchdog.c:93-113 | of two equal stamps it names the second, where the documentation names the first |
| Watchdogs.CheckIsExact | src/threads/watchdog.c:282-291 | the guard holds exactly when another thread's stamp is more than 2 s old to the nanosecond, and a later time is never subtracted from an earlier one |
| Watchdogs.Watchdog.ReportActive | src/threads/watchdog.c:210-213 | sets the reporting thread's stamp and no other |
| Watchdogs.Watchdog.Start | src/threads/watchdog.c:248-266 | sets every stamp to the first reading and the deadline 2 s after it |
| Watchdogs.Watchdog.Check | src/threads/watchdog.c:282-300 | sets its own stamp, trips exactly when the kill switch is off and some thread is late, and otherwise moves the deadline to 2 s after the oldest stamp |
| Watchdogs.CheckIsStep | src/threads/watchdog.c:282-300 | a check of the state machine does what the method promises of the module state |
| Watchdogs.StampsAreLastAlive | src/threads/watchdog.c:199-266 | in every run each stamp is the thread's latest report or the initial stamp, whichever came later |
| Watchdogs.ChecksAreSoundAndComplete | src/threads/watchdog.c:259-300 | every check of every run trips exactly when the switch was off and some thread was silent for more than 2 s; after one that passed none was |
| Watchdogs.FirstStepReadsClock | src/threads/watchdog.c:248-250 | the first thing the watchdog does is to read the clock |
| Watchdogs.StepsFollowLoop | src/threads/watchdog.c:250-309 | in every run the watchdog's steps follow each other as in its loop: after a wait that was signalled or timed out comes a check, after a failed wait or a passed check the loop test, and the loop is left only for the kill switch or a silent thread |
| Watchdogs.SilenceTrips | src/threads/watchdog.c:268-297 | completeness: after every wait that did not fail the next step is a check, and it trips exactly when the switch is off and some thread has been silent for more than 2 s |
| Watchdogs.KilledOnlyBySignalOrSilence | src/threads/watchdog.c:282-297 | in every run the kill switch is set exactly when it was set from outside or some check found a thread silent for more than 2 s and its signal was handled |
| Watchdogs.DeadlineHoldsOverRuns | src/threads/watchdog.c:266-300 | under a monotone clock the pending wake-up is canonical and at most 2 s after every stamp, in every state of every run |
| Watchdogs.DeadlineIsOldestPlusAllowance | src/threads/watchdog.c:266-300 | and until the next check it stands at exactly 2 s after the oldest stamp at the lock or at the last check that passed |
| Watchdogs.WatchdogStopsAfterKill | src/threads/watchdog.c:268-314 | after the kill switch the watchdog takes at most six more steps and ends without the mutex |
| Watchdogs.EveryAnswerIsPossible | src/threads/watchdog.c:199-314 | in every run every clock reading and every answer to the watchdog is possible, and a thread can report exactly when the watchdog does not have the mutex |
| Watchdogs.ChecksJudgeStampsOfWake | src/threads/watchdog.c:270-287 | in every run a check judges the stamps there were when the wait ended |
| Watchdogs.WatchdogIsNeverStuck | src/threads/watchdog.c:234-314 | until it is done it can always step |
| Channels.PutIsSound | src/threads/reader.c:100-100 | a write to a shared ring keeps its accounts and what was read from it |
| Channels.TakeIsSound | src/threads/analyzer.c:111-111 | a read keeps the accounts and appends the oldest item to what was read |
| PipelineInvariants.RunKeepsInv | src/threads/analyzer.c:70-230 | every state of every interleaving satisfies the pipeline's invariant: mutex owners match program counters, rings account for their histories, buffers do not alias, records tile, prints are latest, losses are explained |
| PipelineInvariants.ReaderKeepsSamples | src/threads/reader.c:45-133 | each step of the reader keeps samples written in rising order of production |
| PipelineInvariants.AnalyzerInKeepsRecords | src/threads/analyzer.c:70-141 | each step of the analyzer up to the first-sample swap keeps the records tiling time |
| PipelineInvariants.AnalyzerOutKeepsRecords | src/threads/analyzer.c:143-229 | each step from the calculation to the swap keeps the records tiling time, also when a record is abandoned |
| PipelineInvariants.PrinterKeepsPrints | src/threads/printer.c:72-126 | each step of the printer keeps every print the record read last |
| PipelineTheorems.RingsAreOwned | src/threads/analyzer.c:75-127 | in every run whoever changes a ring holds its mutex, and a step by a thread that holds it neither before nor after would do the same with any other contents of the ring |
| PipelineTheorems.NobodyHoldsTwo | src/threads/analyzer.c:102-180 | no thread ever holds both mutexes, and a thread that is done holds none |
| PipelineTheorems.SamplesFlowInOrder | src/threads/reader.c:60-106 | in every run written = read + buffered + overwritten on both rings, and samples are read in strictly rising production order |
| PipelineTurns.ReaderTurns | src/threads/reader.c:45-133 | every turn of the reader under every interleaving ends the loop exactly for the kill switch, goes on without writing when nothing was loaded or the lock failed, and otherwise, after one wait loop, writes exactly the sample it loaded and signals |
| AnalyzerTurns.AnalyzerInTurns | src/threads/analyzer.c:70-141 | every turn of the analyzer up to the calculation reads the oldest sample into its new buffer exactly when it got the lock, was not stopped after its one wait loop and found the ring not empty, and keeps a first sample as the old one |
| AnalyzerTurns.AnalyzerOutTurns | src/threads/analyzer.c:143-230 | the rest of the turn: with the output lock it writes exactly the record of its two buffers after one wait loop and swaps them, unless stopped by the kill switch; without it the record is dropped and the buffers stay |
| PipelineTurns.PrinterTurns | src/threads/printer.c:72-126 | every turn of the printer that gets the lock and is not stopped reads once and prints once: the record read, or the one printed before when the ring was empty |
| PipelineTheorems.SamplesAreLoads | src/threads/reader.c:50-100 | in every run every sample written is exactly the table loaded at its place in the order of production |
| PipelineTheorems.RecordsCompareLoads | src/threads/analyzer.c:111-183 | in every run both samples of every record are tables that were loaded |
| PipelineTheorems.RecordsTileTime | src/threads/analyzer.c:134-229 | in every run each record starts where the previous one ended, the first at the first sample read, each computed line by line from an older and a newer sample read, and the old and new buffers never alias |
| PipelineTheorems.UsageIsConserved | src/threads/analyzer.c:111-229 | in every run and on every cpu line, for tables loaded that show growing counters, percentages weighted by their total time add up to 100 times the true busy growth from the first sample to the end of the last record, and total times telescope |
| PipelineTheorems.EmittedValuesInRange | src/utils/cpuusage.c:41-49 | in every run every emitted value is in 0..100, or exactly -100 when no time passed |
| PipelineLoss.SampleLosses | src/threads/reader.c:69-100 | in every run a sample is overwritten exactly by a write the reader came to straight from a wait that ended with the ring still full |
| PipelineLoss.LostSamplesHaveOwnWaits | src/threads/reader.c:69-100 | no two writes share such a wait |
| PipelineLoss.VainWaitsBoundLostSamples | src/threads/reader.c:69-100 | lost samples never outnumber such waits |
| PipelineLoss.RecordLosses | src/threads/analyzer.c:153-183 | in every run a record is overwritten exactly by a write the analyzer came to straight from a wait that ended with the ring still full |
| PipelineLoss.LostRecordsHaveOwnWaits | src/threads/analyzer.c:153-183 | no two writes share such a wait |
| PipelineLoss.LostRecordsFollowTimeouts | src/threads/printer.c:112-125 | without spurious wake-ups every overwritten record follows such a wait that timed out, since nobody signals |
| PipelineTheorems.PrintsFollowEmission | src/threads/printer.c:112-124 | every print shows the record read last, in order of emission; before the first read it shows memory never written |
| PipelineTheorems.ReadsArePrinted | src/threads/printer.c:112-124 | in every run every record read is printed, but for the last one while the printer stands between its read and its print |
| PipelineTheorems.ThreadsStopAfterKill | src/utils/threadctl.c:12-21 | the kill switch is latched, and after it reader, analyzer and printer each take at most nine more steps |
| PipelineTheorems.KilledIff | src/utils/threadctl.c:12-21 | in every run the kill switch reads set exactly when someone has set it |
| PipelineTheorems.EveryAnswerIsPossible | src/threads/analyzer.c:70-230 | in every run a thread that is not done can step under exactly the answers its mutex and condition variable allow: any lock on a free mutex, any end of a wait on a free one, a signal only after one |
| PipelineTheorems.NoDeadlock | src/threads/analyzer.c:70-181 | in every run a thread that is not done can step, or waits for a mutex whose owner can |
| PipelineTheorems.QuietMeansDone | src/threads/printer.c:72-110 | in every run, where no thread can step all three are done and both mutexes are free |
| PipelineWakeups.NoWakeupIsLost | src/threads/analyzer.c:82-132 | in every run a thread waiting for what is already there was signalled, or the other thread is about to signal |
| PipelineLoss.LossWithoutTimeouts | src/threads/reader.c:69-100 | for all capacities a run in which every lock succeeds and every wait ends by a signal, and a sample is overwritten |
| AnalyzerLoop.AnalyzerThread | src/threads/analyzer.c:45-230 | the loop over two heap buffers that trade places writes the percentages of exactly the pairs of samples its turns define |
| AnalyzerLoop.PairsTile | src/threads/analyzer.c:134-229 | those pairs tile, from the first sample on |
| PipelineRefinement.RunRefinesLoop | src/threads/analyzer.c:70-230 | in every interleaving the records written, with the one owed between lock and write, are those of the sequential loop for the turns decided by locks and reads |
| PipelineRefinement.ValuesAreLoopRecords | src/threads/analyzer.c:143-183 | and their values are what the sequential loop returns; one record can be owed, for ever only after the kill switch |
| Loggers.TerminatedText | src/threads/logger.c:71-80 | the forced terminator changes no terminated message and cuts any other by one byte |
| Loggers.Logger.Log | src/threads/logger.c:164-169 | the message enters the input ring, evicting at most its oldest message |
| Loggers.Logger.Swap | src/threads/logger.c:249-251 | the rings trade places with their contents |
| Loggers.Logger.LogAllFromCbuf | src/threads/logger.c:71-80 | appends the text of every message of the ring to the file, oldest first, and empties it |
| Loggers.Logger.SwapAndLog | src/threads/logger.c:249-258 | everything in the input ring reaches the file in order, and what the secondary ring held is input again |
| Loggers.Logger.FinalFlush | src/threads/logger.c:266-277 | the older ring's messages reach the file before the newer ring's, despite the reversed swap |
| LoggerThreads.LogInOrderIff | src/threads/logger.c:210-278 | in every run, up to any point, final flush included: what is in the file and still to reach it is in the order of writing exactly when no step before swapped two rings that both held messages, or wrote to a swapped-away ring while the input ring held messages |
| LoggerThreads.LogKeepsOrder | src/threads/logger.c:210-278 | in every run without a swap under a thread's pending write the order is kept, the secondary ring is empty at each swap, and every message is written, buffered or overwritten |
| LoggerThreads.HeldSwapIsNotRacy | src/threads/logger.c:249-256 | a swap made with the mutex held is never such a swap |
| LoggerThreads.HeldSwapsKeepOrder | src/threads/logger.c:214-256 | so the order is kept in every run in which the loop swaps only with the mutex held |
| LoggerTurns.HeldThroughSection | src/threads/logger.c:214-253 | in every run the logger holds the mutex through its swap section, but for the wait, exactly when it held it on entry |
| LoggerTurns.TurnsToSwap | src/threads/logger.c:210-251 | every turn of the logger: a lock attempt that works ends it holding the mutex; one that fails leads through one wait loop to the swap, or out of the loop for the kill switch, and the swap is held exactly when the mutex was held at the attempt |
| LoggerTurns.TurnsFromSwap | src/threads/logger.c:249-259 | the mutex is given up, and exactly what the input ring held at the swap reaches the file in order, unless a write was pending at the swap |
| LoggerTurns.OwnFailuresKeepOrder | src/threads/logger.c:214-256 | the order is kept in every run in which the loop's lock attempts fail only while the logger itself holds the mutex |
| LoggerThreads.LossesAreOverwrites | src/threads/logger.c:164-169 | in every run a message is lost exactly by a write to a full ring, which without such swaps is the input ring |
| LoggerThreads.FlushIsComplete | src/threads/logger.c:263-278 | a final flush that got the mutex writes everything buffered at that moment in order, whatever others log meanwhile |
| LoggerThreads.EndsHoldingMutexIff | src/threads/logger.c:210-282 | in every run the logger ends holding the mutex exactly when it left its loop at the loop test holding it, and then nothing moves after that test |
| LoggerThreads.ExitWritesAllIff | src/threads/logger.c:263-282 | everything buffered at the final lock attempt reaches the file in order exactly when the attempt succeeds or nothing is buffered |
| LoggerThreads.LoggerStopsAfterKill | src/threads/logger.c:210-278 | after the kill switch every own step lowers the rank of the program point or drains a message, so the logger ends within a bound |
| LoggerThreads.LoggerIsNeverStuck | src/threads/logger.c:210-290 | until it is done the logger can step, or a thread inside Log that holds the mutex can |
| LoggerTurns.EveryAnswerIsPossible | src/threads/logger.c:164-290 | the logger, and a thread inside Log, can step under exactly the answers the mutex allows |
| LoggerTurns.KilledIff | src/utils/threadctl.c:12-21 | in every run the kill switch reads set to the logger exactly when someone has set it |
| LoggerTurns.LogCallsWrite | src/threads/logger.c:164-169 | in every run a call of Log that gets the mutex writes exactly one message, to the ring its pointer names |
| LoggerFaults.UnheldSwapReorders | src/threads/logger.c:214-258 | for every capacity a run in which a swap without the mutex puts messages out of order |
| LoggerFaults.ExitMayKeepMutex | src/threads/logger.c:210-282 | for every capacity, and every number of messages up to it, a run that ends with the logger holding the mutex and that many messages unwritten |

## Left out

- CircularBuffers.CircularBuffer.constructor: rings of capacity 0 or above 2^31 are created but not used further: beyond 2^31 a write can go to the wrong slot (WriteSlotExactForCapacity), and at 0 it leaves the buffer; allocation failure is not modelled.
- CircularBuffers.CircularBuffer.Write: an item is a byte sequence of exactly itemSize bytes, where the program passes a pointer; NULL arguments are not modelled.
- Watchdogs.DeadlineHoldsOverRuns: needs clock readings whose seconds plus 2 fit 32 bits, as the helper's unsigned seconds demand.
- The threads' interleaved loops are state machines on values: an event is one step between two points where other threads can act, so data races inside one step are not modelled, except for the log's write through a loaded pointer.
- In the logger's section entered without the mutex, a wait leaves the mutex alone and an unlock fails; the C standard leaves both undefined.
- `src/utils/procstat.c` parsing and the byte layout of samples and records: a sample is any table of ten counters per line.
- File and terminal output, time strings, message formatting and log levels.
- Signal handlers, thread-specific storage, thread creation and exit codes, allocation failure in the threads: a signal or the watchdog's SIGTERM appears as the kill event.
- `offsetBackward` and `offsetForward`, which no ring operation uses.
- Real-time scheduling and floating-point rounding.
