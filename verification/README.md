# Verified model of the sylar fiber framework

This project models the stateful cores of sylar and proves what they keep over every run:

- the fiber scheduler and the epoll event table, as a step system whose workers interleave at
  lock granularity (`SchedulerModel`, `SchedulerInvariant`, `SchedulerTheorems`,
  `SchedulerDelivery`, `SchedulerPlaces`, `SchedulerPinned`, `SchedulerExecution`,
  `SchedulerIdle`), and the table and run queue as an object that makes the same changes (`EventTable`);
- the wait protocol of the hooked system calls (`HookModel`, `HookTheorems`);
- the timer manager, as steps (`TimerModel`, `TimerTheorems`) and as an object
  (`TimerManagers`);
- `ByteArray`, a list of fixed-size blocks with a cached cursor (`Blocks`, `ByteArrays`), and
  the typed codecs on it (`Codec`, `ListRoundTrip`, `TypedIo`);
- percent-encoding and query parsing (`Percent`, `Query`), the log pattern scanner
  (`LogPattern`) and the reassembly of chunked bodies (`Chunked`, `ChunkedTheorems`).

`dafny verify dfyconfig.toml` checks everything.

## How to read the models

A run is a list of actions; an action determines the next state. "In every run" is therefore a
quantification over all lists of actions, and a lemma about `RunTo(cfg, acts)` or `Play(acts)`
speaks of every reachable state. A failing `SYLAR_ASSERT` ends the run as aborted. System calls,
the clock and the way a socket cuts up a stream are parameters of the actions or arbitrary
choices, so the results hold for all of them. Integers are unbounded except in the codecs, where
every wrap-around and reinterpretation is written out.

Where the code does not keep a property, the model keeps the code and the exact condition is
proved:

- With yield and state fix-up as the two steps the code makes them, a fiber can be run by two
  workers at once if and only if there are at least two workers
  (`SchedulerTheorems.ExclusionIff`; the run is `RaceActions`, and it ends in an abort,
  `RaceAborts`), and the invariant of the step system holds in every run exactly then
  (`InvIff`). The other scheduler results assume at most one worker, or yield and fix-up in
  one step (`Safe`), except `CountersAlwaysExact`, `WaitsExactlyOnce`, `CallbackKept`,
  `TimersConserved` and `IdleEndsDrainedIff`, which do not.
- `IOManager::stopping` reads the timers, the registered events and the queue one after the
  other. Idle ends only in a drained system if and only if there is at most one worker and no
  timer is added from outside the workers (`SchedulerIdle.IdleEndsDrainedIff`; the runs that
  miss a timer are `PairActions` and `LoneActions`).
- An entry pinned to a worker can stay queued after all workers have gone
  (`SchedulerPinned.PinnedLeftBehind`): exactly if that worker was not going to scan again
  when the entry was pushed (`PinnedLeftIff`, `LeftExactly`).
- A hook timeout can be lost: the timer's callback can run between adding the timer and
  registering the event. A timed wait can always still time out if and only if there is at most
  one worker and `epoll_ctl` does not fail (`HookTheorems.TimeoutNeverLostIff`).
- `Timer::refresh` can lose a wake-up when the clock runs back
  (`TimerTheorems.RefreshSafeIff`, `BackwardClockLosesWakeup`).
- Reading an empty string whose prefix ends exactly at the end of the last block dereferences
  a null cursor (`TypedIo.EmptyStringCrashes`); every other list of typed writes reads back,
  and which lists fail can be told before the call (`TypedIo.RoundTrip`).
- A chunk-size line that arrives in pieces is parsed piece by piece, each as a line of its own.
  The body is right whatever the data if and only if no such cut loses a digit that counts
  (`ChunkedTheorems.AlwaysRightIffClean`); a run with a wrong body is `CutEndsBody`. For one
  given message the condition is sufficient (`CleanIsRight`), and necessary if the data holds
  no hexadecimal digit (`RightIffClean`), so that it cannot be taken for a size line.

## Model

| member | source | states |
|---|---|---|
| SchedulerInvariant.StepInv | sylar/scheduler.cpp:184-283 | Every step of any worker, of idle, of the event table or of an outside thread keeps the invariant: no token in two places, no finished fiber waiting, at most one worker on a stack, the recycled fiber fresh, queue and dequeued entries disjoint and without repetition |
| SchedulerTheorems.RunInv | sylar/scheduler.cpp:166-283 | The invariant holds in every state of every run |
| SchedulerTheorems.InvIff | sylar/scheduler.cpp:225-235 | The invariant holds in every run if and only if there is at most one worker or yield and fix-up are one step |
| SchedulerTheorems.OnePlace | sylar/scheduler.h:124-222 | A waiting fiber or callback is never in two places: event contexts, queue entries, workers |
| SchedulerPlaces.QueuedInOnePlace | sylar/scheduler.cpp:188-262 | Every entry ever pushed and not yet executed: its fiber or callback is in exactly one place, the queue or one worker's hands |
| SchedulerPlaces.WaitingInOnePlace | sylar/iomanager.cpp:51-382 | Every registration neither deleted nor executed: its fiber or callback is in exactly one place, its context, the queue or one worker's hands |
| SchedulerPlaces.TookIsRun | sylar/scheduler.cpp:220-246 | In every run, what a worker does with an entry it has dequeued is to execute it: a fiber itself, a callback on the recycled fiber, or a new one if there is none; the fiber is EXEC and the worker on its stack |
| SchedulerPlaces.RunRecord | sylar/scheduler.cpp:188-246 | In every run each entry dequeued is either in exactly one worker's hands or was executed exactly once, on its own fiber if it has one, and never both |
| SchedulerExecution.RunnableInOnePlace | sylar/scheduler.cpp:224-259 | In every reachable state a fiber that is READY, or INIT and not a recycled one, is in exactly one place, the queue or one worker's hands: none is forgotten |
| SchedulerExecution.YieldBecomes | sylar/fiber.cpp:242-290 | A fiber becomes HOLD, READY, TERM or EXCEPT as it asks, and a finished recycled one INIT at the fix-up |
| SchedulerExecution.FiberLife | sylar/fiber.cpp:98-290 | In every run a fiber executes only from INIT, HOLD, READY or new, leaves EXEC only by yielding or ending, and stays ended unless it is a worker's recycled fiber, which is reset to INIT |
| SchedulerExecution.OneCallbackAtATime | sylar/scheduler.cpp:237-262 | In every run a callback is executed only on a fiber whose last callback has ended, and the fiber serves it until it has ended itself, however often it yields |
| SchedulerExecution.ExecutedAtMostOnce | sylar/scheduler.cpp:188-262 | In every run no entry and no callback is executed twice |
| SchedulerExecution.CallbackKept | sylar/scheduler.h:80-135 | In every run each callback scheduled or registered has exactly one entry, or is still registered, or its registration was deleted |
| SchedulerTheorems.OnlyRegistrationAborts | sylar/fiber.cpp:159-255 | In every reachable state an assertion fails if and only if addEvent names a registered event or a readiness report names an unregistered one beside a registered one; those in swapIn, reset and the yields never fail |
| SchedulerExecution.NeverStuck | sylar/scheduler.cpp:184-283 | In every reachable state every worker that has not left run can take a next step without an abort |
| SchedulerTheorems.ExclusionIff | sylar/scheduler.cpp:188-235 | No fiber is on two workers' stacks in any run, if and only if there is at most one worker or yield and fix-up are one step |
| SchedulerTheorems.RaceAborts | sylar/fiber.cpp:206-255 | With two or more workers and separate steps, a trigger that enqueues a fiber about to yield leads to an abort |
| SchedulerTheorems.SpareIsFresh | sylar/scheduler.cpp:239-262 | At the loop head the recycled callback fiber is absent, or INIT, referred to by nobody and on no stack |
| SchedulerTheorems.CountersAlwaysExact | sylar/scheduler.cpp:184-281 | In every run m_activeThreadCount is the number of workers between dequeue and decrement, and m_pendingEventCount the number of registered events |
| SchedulerIdle.IdleEndsDrainedIff | sylar/iomanager.cpp:402-447 | In every run idle ends only with no timer, no registered event, an empty queue and no active worker, if and only if there is at most one worker and, with one, no timer comes from outside |
| SchedulerIdle.OneWorkerDrains | sylar/iomanager.cpp:402-412 | With one worker and no outside timer, what stopping read first still holds at its last read |
| SchedulerIdle.OutsideTimerMissed | sylar/iomanager.cpp:402-407 | A run in which a timer added from outside after the first read is missed |
| SchedulerIdle.WorkerTimerMissed | sylar/iomanager.cpp:402-407 | A run in which a timer added by another worker's fiber after the first read is missed |
| SchedulerIdle.ThroughIdle | sylar/iomanager.cpp:423-550 | A worker enters idle only after a scan that found nothing, and leaves it only by the yield after timers and events were looked at, or for good with stop requested, nothing queued and nobody active |
| SchedulerIdle.TimersConserved | sylar/iomanager.cpp:473-478 | In every run each timer armed is still set, or was taken by a worker that has yet to schedule its callback, or became one callback in the queue |
| SchedulerDelivery.WaitsExactlyOnce | sylar/iomanager.cpp:51-382 | Every registration is, in every reachable state, either still in its context, or the origin of exactly one queue entry carrying its token, or was dropped by delEvent with none |
| SchedulerDelivery.RunLive | sylar/scheduler.cpp:264-302 | While an entry for any thread is queued, some worker will scan again |
| SchedulerDelivery.OnlyPinnedLeft | sylar/scheduler.cpp:184-302 | Once every worker has left run, whatever is still queued is pinned to one thread |
| SchedulerDelivery.StopSafety | sylar/scheduler.cpp:184-302 | With unpinned tasks the queue is then empty and every entry ever pushed was dequeued exactly once |
| SchedulerPinned.PinnedLeftIff | sylar/scheduler.cpp:192-216 | Once every worker has left run, a pinned entry is still queued if and only if its worker was not going to scan again when it was pushed |
| SchedulerPinned.LeftExactly | sylar/scheduler.cpp:184-302 | Then the queue holds exactly those entries, pinned or not, and every other entry ever pushed was dequeued exactly once |
| SchedulerPinned.PinnedLeftBehind | sylar/scheduler.cpp:192-216 | A run that ends with all workers gone and an entry pinned to one of them still queued |
| SchedulerExecution.EveryEntryRun | sylar/scheduler.cpp:166-302 | Once every worker has left run, every entry ever pushed was executed exactly once, on its own fiber if it has one, except those pushed for a worker that was not going to scan again, which were not executed |
| SchedulerExecution.NothingRunnableLeft | sylar/scheduler.cpp:166-302 | And no fiber is left READY, or INIT and not recycled, except those of such entries |
| EventTable.ActionsMatch | sylar/iomanager.cpp:139-327 | addEvent, delEvent and cancleEvent change the step system's table and queue as they change the object's |
| EventTable.FiringsMatch | sylar/iomanager.cpp:329-382 | cancleAll, as the handling of a hang-up, and readiness do so too |
| EventTable.AbortsMatch | sylar/iomanager.cpp:500-538 | A readiness report aborts in the step system exactly when it does in the object |
| EventTable.ScanMatches | sylar/scheduler.cpp:188-216 | The step system's scan takes the same entry and leaves the same queue as the object's |
| EventTable.ReportsConserve | sylar/iomanager.cpp:482-539 | Over any batch of reports what leaves the table enters the queue one for one, and the pending count drops by as much |
| EventTable.IOManager.constructor | sylar/iomanager.cpp:104-105 | The table starts with exactly 32 empty contexts |
| EventTable.IOManager.AddEvent | sylar/iomanager.cpp:139-212 | Exactly when it aborts, fails or registers; the new table; the emptiness assertion never fires |
| EventTable.IOManager.Reserve | sylar/iomanager.cpp:127-158 | The table grows to exactly fd * 1.5 when fd is beyond it, which covers fd and changes no registration |
| EventTable.IOManager.TriggerEvent | sylar/iomanager.cpp:51-70 | Aborts exactly for an unregistered event; otherwise the context is emptied and its fiber or callback is the last queue entry |
| EventTable.IOManager.DelEvent | sylar/iomanager.cpp:215-278 | Succeeds exactly for a registered event when epoll_ctl does; the registration is gone and nothing is queued |
| EventTable.IOManager.CancleEvent | sylar/iomanager.cpp:282-327 | The same, and the registered fiber or callback is queued |
| EventTable.IOManager.CancleAll | sylar/iomanager.cpp:329-382 | Both registrations of the descriptor are queued, reading first; its assertions never fire |
| EventTable.IOManager.HandleReport | sylar/iomanager.cpp:492-538 | One report: nothing, an abort, or the reported registrations queued, with the count kept exact |
| EventTable.IOManager.HandleReports | sylar/iomanager.cpp:482-539 | The loop over a batch is the composition of its reports and aborts exactly if one of them does in its turn |
| EventTable.IOManager.Schedule | sylar/scheduler.h:80-135 | The entry goes last; tickle exactly if the queue was empty |
| EventTable.IOManager.Take | sylar/scheduler.cpp:188-216 | The first entry the worker may take is removed, the others keep their order, and tickle_me is set exactly if a skipped entry is pinned elsewhere or entries follow |
| HookTheorems.OneWakePerWait | sylar/hook.cpp:227-272 | In every run of any number of calls and retries, each wait is enqueued exactly once, in order, except the one still registered; a suspended fiber is registered or queued, never both |
| HookTheorems.RetriesCancelTimers | sylar/hook.cpp:251-268 | In every run the only timer in the manager's set is the current retry's, and only until the fiber runs again: retries and returns leave none behind |
| HookTheorems.NoEarlyTimeout | sylar/hook.cpp:240-267 | A call that reports ETIMEDOUT at some clock value had its first EAGAIN, the first in the run, at least its timeout before, whatever leftover timers and other calls' callbacks do |
| HookTheorems.ReportedIff | sylar/hook.cpp:260-268 | In every run a call has reported ETIMEDOUT at clock t if and only if its fiber looked at `cancelled` at t, after a wait, and found it set |
| HookTheorems.TimedOutIff | sylar/hook.cpp:240-268 | A call that is over reported ETIMEDOUT if and only if it was cancelled at a moment when its fiber waited or had just resumed |
| HookTheorems.TimedOutReports | sylar/hook.cpp:240-268 | A call whose timer's callback cancels it while it waits, or before it looks, cannot end but with ETIMEDOUT |
| HookTheorems.MarkedByTimer | sylar/hook.cpp:240-248 | In every run only the callback of one of the call's own timers cancels it, when that timer is due and the call not over |
| HookTheorems.TimerFromEagain | sylar/hook.cpp:239-249 | In every run each timer was added by one EAGAIN of its call and is due exactly the call's timeout after the clock at that EAGAIN |
| HookTheorems.EventWakes | sylar/hook.cpp:246-260 | Readiness, and a cancelEvent that succeeds, queue the fiber of the registered wait |
| HookTheorems.TimeoutNeverLostIff | sylar/hook.cpp:240-263 | A waiting fiber with a timeout always has a timer that will end its wait, in every run, if and only if there is at most one worker and epoll_ctl does not fail |
| HookTheorems.TimeoutStillComes | sylar/hook.cpp:240-268 | With one worker and no failing epoll_ctl, from every reachable wait with a timeout the run can go on so that the call reports ETIMEDOUT |
| TimerTheorems.FindHits | sylar/timer.cpp:17-26 | Looking a member up by its current key finds it |
| TimerTheorems.StepInv | sylar/timer.cpp:43-218 | No operation erases the end of the set or underflows, and each keeps the set ordered, its members exactly the timers with a callback, and every start time a clock value read before |
| TimerTheorems.EveryRunSafe | sylar/timer.cpp:43-218 | So in every state of every run |
| TimerTheorems.CancelInv | sylar/timer.cpp:43-53 | cancle returns true exactly for a timer with a callback, and its lookup never misses |
| TimerTheorems.RefreshInv | sylar/timer.cpp:56-72 | refresh returns true exactly for a timer with a callback |
| TimerTheorems.ResetInv | sylar/timer.cpp:75-102 | reset returns true exactly for a timer with a callback or an unchanged period, and m_next - m_ms never underflows |
| TimerTheorems.AddExact | sylar/timer.cpp:116-137 | A new timer has the fields it was given, is due its period after the clock read, and notifies exactly if it precedes every other and m_tickled was clear |
| TimerTheorems.CancelExact | sylar/timer.cpp:43-53 | cancle clears the callback and removes the timer; no other field and no other timer changes |
| TimerTheorems.RefreshExact | sylar/timer.cpp:56-72 | refresh makes the timer due one period from now; no other field and no other timer changes |
| TimerTheorems.ResetExact | sylar/timer.cpp:75-102 | reset sets the period, counted from now or from where the timer started as from_now says; no other field and no other timer changes; a timer without a callback, or reset to its own period, stays as it is |
| TimerTheorems.ExpiryCut | sylar/timer.cpp:192-199 | The cut of listExpiredCb separates deadlines up to now from later ones, whatever the probe's address |
| TimerTheorems.FiredAreDue | sylar/timer.cpp:192-208 | Exactly the members due by now are collected, in (deadline, address) order |
| TimerTheorems.FiredCells | sylar/timer.cpp:206-216 | Recurring timers collected are re-armed from now, one-shot ones lose their callback, all others are untouched |
| TimerTheorems.ExpireMembers | sylar/timer.cpp:201-216 | Exactly the due one-shot timers leave the set |
| TimerTheorems.DelayIsExact | sylar/timer.cpp:156-174 | getNextTimer returns ~0 exactly without timers, 0 exactly if one is due, and otherwise the time after which, and not before, one is |
| TimerTheorems.NoLostWakeup | sylar/timer.cpp:56-137 | If no refresh reads a clock value below an earlier one, in every run either m_tickled is set or nothing is due before the deadline last seen by getNextTimer |
| TimerTheorems.WokenAtMostOnce | sylar/timer.cpp:124-137 | Between two getNextTimer calls onTimerInsertedAtFront runs once if m_tickled is set and never otherwise |
| TimerTheorems.RefreshSafeIff | sylar/timer.cpp:56-72 | A refresh keeps the wake-up guarantee whatever was seen, if and only if m_tickled is set or the new deadline is not before the front |
| TimerTheorems.BackwardClockLosesWakeup | sylar/timer.cpp:66-71 | A run with a clock that goes back in which the guarantee fails |
| TimerTheorems.CollectedAtMostOnce | sylar/timer.cpp:43-53 | Over any run, after a one-shot callback was collected or a cancle returned true, the callback is never collected again |
| TimerTheorems.CollectedWhenDue | sylar/timer.cpp:177-218 | Over any run, what is collected has its period behind it since a clock value read before, and appears once |
| TimerManagers.TimerManager.AddTimer | sylar/timer.cpp:116-137 | The new timer has exactly the fields given, due ms after the clock read; no other timer changes; notifies exactly if the timer precedes every other and m_tickled was clear; keeps the invariant |
| TimerManagers.TimerManager.EnterTimer | sylar/timer.cpp:124-137 | Insertion, the at-front test and m_tickled |
| TimerManagers.TimerManager.Cancle | sylar/timer.cpp:43-53 | Performs the cancel step; afterwards there is no callback |
| TimerManagers.TimerManager.RefreshTimer | sylar/timer.cpp:56-72 | True exactly for a timer with a callback, which is then due one period from now; nothing else changes |
| TimerManagers.TimerManager.ResetTimer | sylar/timer.cpp:75-102 | True exactly for a timer with a callback or an unchanged period; the new period counts from now if from_now, else from the old deadline less the old period; flag, callback, address and all other timers unchanged |
| TimerManagers.TimerManager.GetNextTimer | sylar/timer.cpp:156-174 | Clears m_tickled and returns the time to the earliest deadline, 0 if it has passed, ~0 if there is none |
| TimerManagers.TimerManager.ListExpiredCb | sylar/timer.cpp:177-218 | Performs the expiry step and returns exactly the callbacks of the timers it collects, in order |
| ByteArrays.ByteArray.constructor | sylar/bytearray.cpp:46-54 | One block, position and size 0 |
| ByteArrays.ByteArray.AddCapacity | sylar/bytearray.cpp:703-735 | Enough room, by the fewest blocks, contents kept, cursor restored |
| ByteArrays.ByteArray.Write | sylar/bytearray.cpp:394-434 | The flat buffer changes at the position only, by exactly the bytes written; position and size follow; every copy is in bounds |
| ByteArrays.ByteArray.Read | sylar/bytearray.cpp:436-464 | The next n bytes and the position after them, or an exception without effect, or the null cursor at the very end |
| ByteArrays.ByteArray.SetPosition | sylar/bytearray.cpp:498-517 | Any position up to the capacity, with the cursor on its block and the size covering it; otherwise no effect |
| ByteArrays.ByteArray.Clear | sylar/bytearray.cpp:378-391 | Back to the first block |
| ByteArrays.CursorNull | sylar/bytearray.cpp:498-517 | The cursor is null exactly when the position is the capacity |
| ByteArrays.ByteArray.GetReadBuffers | sylar/bytearray.cpp:605-634 | The segments, end to end, are exactly the next min(len, readable) bytes |
| ByteArrays.ByteArray.GetWriteBuffers | sylar/bytearray.cpp:672-700 | The segments are consecutive stretches from the position that cover exactly len bytes, after growth by the fewest blocks |
| ByteArrays.ByteArray.Receive | sylar/streams/socket_stream.cpp:34-43 | Filling the first bytes of the write segments and moving the position has the flat effect of write |
| ByteArrays.EndsAtCapacity | sylar/bytearray.cpp:703-735 | A write ends exactly at the new capacity if and only if its end is a multiple of the block size and not below the old capacity |
| ByteArrays.WrittenTwice | sylar/bytearray.cpp:394-434 | Two writes are one write of the concatenation |
| Codec.WireIsHostFree | sylar/endian.h:29-62 | The bytes written depend on the array's byte order only, not on the host's |
| Codec.HostHolds | sylar/endian.h:29-62 | Byte i of an n-byte integer is v / 256^i mod 256 in little-endian order, and v / 256^(n-1-i) mod 256 in big-endian order |
| Codec.ByteSwapReverses | sylar/endian.h:29-53 | byteswap gives the n-byte value with the base-256 digits in the opposite order |
| Codec.AnyBytesHold | sylar/bytearray.cpp:243-288 | On either host, any n bytes are read as the integer they hold in the array's order |
| Codec.FixedInverse | sylar/endian.h:29-62 | The fixed-width readers undo the writers on every host |
| Codec.ZigzagValue | sylar/bytearray.cpp:134-148 | Zigzag maps v >= 0 to 2v and v < 0 to -2v - 1, the minimum value included, within the unsigned range |
| Codec.ZigzagDecodes | sylar/bytearray.cpp:134-163 | Decoding undoes encoding on the whole signed range |
| Codec.ZigzagEncodes | sylar/bytearray.cpp:134-163 | Encoding undoes decoding on the whole unsigned range |
| Codec.VarintWellFormed | sylar/bytearray.cpp:166-194 | The last byte, and no other, has a clear high bit, and is not a redundant zero |
| Codec.VarintGroups | sylar/bytearray.cpp:166-194 | Byte i of a varint is v / 128^i mod 128, with the high bit set on all but the last, and there are as many as v needs |
| Codec.VarintRoundTrip | sylar/bytearray.cpp:290-323 | The groups add up to the value |
| Codec.VarintMinimal | sylar/bytearray.cpp:166-194 | The form written is the only complete one without a redundant last group, and every other one is longer |
| Codec.VarintFits | sylar/bytearray.cpp:166-194 | At most 5 bytes for 32 bits and 10 for 64 |
| TypedIo.VarintReadsBack | sylar/bytearray.cpp:290-323 | The varint reader ends and returns the value written, from any shift |
| TypedIo.ItemReadsBack | sylar/bytearray.cpp:243-373 | A typed value that stands in the buffer reads back, with the position after it, unless it is an empty string at the very end |
| ListRoundTrip.ListInverts | sylar/bytearray.cpp:79-373 | A reader that inverts its encoder value by value inverts it on lists |
| TypedIo.ListReadsBack | sylar/bytearray.cpp:79-373 | The same for lists of typed values, in either byte order, on either host |
| TypedIo.VarintBytes | sylar/bytearray.cpp:166-194 | The byte loop, within its 5- or 10-byte array, produces the varint |
| TypedIo.EncodeLaid | sylar/bytearray.cpp:79-238 | Each typed value on the wire: two's complement in the array's order; groups of seven bits; signed varints as 2v or -2v - 1; strings after their length |
| TypedIo.WriteItem | sylar/bytearray.cpp:79-238 | The typed writers change the flat buffer by exactly that layout of the value and grow it by the fewest blocks |
| TypedIo.ReadVarint | sylar/bytearray.cpp:290-323 | The byte loop returns what its specification returns on every buffer, and leaves the position where it says, also when it throws |
| TypedIo.ReadItem | sylar/bytearray.cpp:243-373 | The typed readers return what their specification returns, exceptions and the position they leave behind included |
| TypedIo.FixedReadsAny | sylar/bytearray.cpp:243-288 | On any buffer the fixed-width readers take the integer the next bytes hold in the array's order, or throw in place if there are too few |
| TypedIo.VarintReadsAny | sylar/bytearray.cpp:290-323 | On any buffer the varint readers take the bytes up to the first without a high bit, or as many as can matter, and return their value cut to 32 or 64 bits |
| TypedIo.VarintRunsOut | sylar/bytearray.cpp:290-323 | If the readable bytes end before the varint, they throw at the end |
| TypedIo.RoundTrip | sylar/bytearray.cpp:79-373 | Any list of typed writes, setPosition to the start and the same reads give the same values and end position, for every block size and both byte orders, except exactly when the list ends in an empty string on a block boundary at or beyond the capacity before the call |
| TypedIo.EmptyStringCrashes | sylar/bytearray.cpp:436-464 | The exception occurs: an empty string in an array of two-byte blocks |
| Percent.RoundTrip | sylar/util.cpp:196-256 | Decoding undoes encoding for every byte string and either treatment of spaces |
| Percent.EncodedAlphabet | sylar/util.cpp:196-225 | Encoded text holds only unreserved characters, percent signs and plus signs |
| Percent.HexValueIff | sylar/util.cpp:173-190 | xdigit_chars gives each character its place in 0123456789abcdef or 0123456789ABCDEF, and no other character is a digit |
| Percent.EncodeCharIs | sylar/util.cpp:150-225 | Letters, digits, '-', '.', '_', '~' and '=' stay; a space becomes a plus if asked for; every other byte a percent sign and its two upper-case digits |
| Percent.DecodeEscape | sylar/util.cpp:227-256 | A percent sign and two digits, in either case, decode to the byte they name |
| Percent.DecodeOther | sylar/util.cpp:227-256 | Any other byte stays, a percent sign without two digits after it included, and a plus means a space if asked for |
| Percent.DecodePlain | sylar/util.cpp:227-256 | A text without a whole escape and without such a plus decodes to itself |
| Percent.UrlEncode | sylar/util.cpp:196-225 | The lazily copying loop computes the per-character map |
| Percent.UrlDecode | sylar/util.cpp:227-256 | The lazily copying loop computes the per-escape map |
| Query.ParseParam | sylar/http/http.cpp:268-293 | The loop inserts the pairs of the query in order |
| Query.RenderSplits | sylar/http/http.cpp:268-293 | A rendered list of pairs splits into exactly those pairs, from any position |
| Query.CaseKeyIff | sylar/http/http.cpp:74-78 | Two keys are one exactly if, up to the first NUL, they differ in the case of letters only |
| Query.QueryRoundTrip | sylar/http/http.cpp:74-78 | A rendered query parses to the first-wins map of its pairs, keys that differ in case only being one: values any bytes, keys any bytes but '=' and '&' |
| LogPattern.FindItem | sylar/log.cpp:516-558 | The inner state machine finds key, argument and end of an item, and ends on every pattern |
| LogPattern.Init | sylar/log.cpp:494-581 | The index-jumping scan ends on every pattern and computes its recursive specification |
| LogPattern.PatternRoundTrip | sylar/log.cpp:494-581 | Writing down any normal list of texts and items and scanning it gives the list back without error |
| LogPattern.UnclosedBrace | sylar/log.cpp:494-581 | A normal list followed by an item whose brace is never closed: the list, the error text, and the rest after the percent sign as text, with m_error set |
| LogPattern.KnownIff | sylar/log.cpp:585-607 | Exactly the one-letter keys m p r c t n d f l T F N have a formatter |
| LogPattern.BuildItems | sylar/log.cpp:585-631 | One item per piece; the error flag exactly for a scan error or an unknown key |
| LogPattern.InitItems | sylar/log.cpp:494-632 | The whole init: one item per piece scanned, m_error exactly for a scan error or an unknown key |
| LogPattern.FormatterRoundTrip | sylar/log.cpp:494-632 | A pattern written from a normal list yields, in order, each text, the formatter of each of the twelve keys with its argument, and the error text of every other key, and an error exactly if there is such a key |
| Chunked.ReadSize | sylar/http/http_connection.cpp:78-101 | The loop around the parser computes its specification on every stream, however it is cut into pieces |
| Chunked.ReadData | sylar/http/http_connection.cpp:105-124 | Exactly the chunk's bytes and the two after them are taken, from the buffer or across its end; it fails exactly when the stream is too short |
| Chunked.ReadChunked | sylar/http/http_connection.cpp:76-125 | The nested loops compute the body, the connection's end and the stream left over as specified, for every stream and every way it is cut |
| ChunkedTheorems.HexNumber | sylar/http/httpclient_parser.rl:95-105 | Every number is read back from its base-16 spelling in either case with any number of leading zeros |
| ChunkedTheorems.SpellsIff | sylar/http/httpclient_parser.rl:95-105 | The number taken from a text is n exactly if the text spells n in base 16 |
| ChunkedTheorems.SizeLineIs | sylar/http/httpclient_parser.rl:153-155 | What the parser makes of any buffer: a whole line of digits and a line end with the number spelled, part of one, or an error |
| ChunkedTheorems.SizeMatches | sylar/http/http_parser.cpp:255-263 | The size taken from a cut line is the number of the digits not parsed before; without a digit left the line is an error |
| ChunkedTheorems.DataMatches | sylar/http/http_connection.cpp:105-124 | A chunk's data is taken whole wherever the buffer ends |
| ChunkedTheorems.CleanIsRight | sylar/http/http_connection.cpp:76-125 | For every message whose size lines spell the sizes of their data in base 16: if no size line loses a digit that counts, the body is the concatenated data and exactly the message is consumed, for every buffered start and continuation |
| ChunkedTheorems.RightIffClean | sylar/http/http_connection.cpp:76-125 | For data without hexadecimal digits, the body is right if and only if no size line loses a digit that counts |
| ChunkedTheorems.AlwaysRightIffClean | sylar/http/http_connection.cpp:76-125 | For given sizes and pieces, the body is right whatever the data if and only if no size line loses a digit that counts |
| ChunkedTheorems.WholeLinesClean | sylar/http/http_connection.cpp:78-101 | If each size line is fully buffered when it is first parsed, none loses anything |
| ChunkedTheorems.BufferedClean | sylar/http/http_connection.cpp:76-82 | So it is when the whole message is buffered |
| ChunkedTheorems.CutEndsBody | sylar/http/http_connection.cpp:78-125 | A run with a wrong body: the size 10 arrives as 1 and then 0, and the body of 16 bytes comes out empty |

## Left out

- The kernel's interest set: the masks and operations passed to `epoll_ctl` do not track the table, so nothing is claimed about it; reports of `epoll_wait` are arbitrary.
- The table resize of `addEvent` is one step with the rest of it; two threads growing the table at once, where the later and smaller resize shrinks it, are not modelled.
- The sleep hooks, which wake a fiber from a timer directly, are not part of the step system; a fiber has at most one outstanding wait, as in `do_io`.
- In the step system a timer is only counted; its order and deadlines are in the timer model.
- SchedulerTheorems.RunInv: assumes at most one worker or the one-step yield, because without them the invariant fails (`InvIff`).
- Chunked.ReadChunked: chunk sizes are unbounded; from 2^31 on the source stores what `strtol` returns in an `int`.
- ChunkedTheorems.RightIffClean: for a single message the necessity of the condition assumes data without hexadecimal digits, because a run that took a wrong size goes on to parse the data.
- Several descriptors at once in the hook model: one fiber and one event, because other calls only meet it through the event context.
- `connect_with_timeout` has the shape of one `do_io` retry and is not modelled separately.
- TimerManagers.TimerManager.AddTimer: timers are entries of one table and a handle is a number, so the reference count of the timer object is not modelled; a new timer's address differs from those in the set.
- The block list of `ByteArray` is a sequence of arrays and the cursor an index; the `next` pointers are not modelled.
- `ByteArray::read` with a position argument, positioned `getReadBuffers`, `writeToFile`, `readFromFile` and the text dumps.
- Float and double codecs, which are the 32- and 64-bit integer codecs on reinterpreted bits.
- `Fiber` stacks and context switches, beyond who is on which stack; the caller thread's root fiber.
- Chunk extensions and trailers, and all Ragel grammars; the size line is digits and a line end.
- The body and cookie variants of PARSE_PARAM, which differ in separator and trimming only.
- Response bodies with a content length, TLS, compression, configuration, appenders, addresses, servlets and connection pools.
- `detectClockRollover`, which nothing calls.
