# Verification models of sylar

Dafny 4.11 models of five connected parts of the sylar server framework, with proofs of the
properties they are written for. `dafny verify dfyconfig.toml` checks everything. The files follow
the program's structure:

| files | what they model |
|---|---|
| `Reactor.dfy` | The fiber scheduler and the epoll manager as one state machine: task queue, fiber states, armed waits, timers, counters, and where each thread is in `Scheduler::run` or `IOManager::idle`. A step is one lock region or one stretch of code on what a thread owns. What user code does is an input; the only rule is the wake-up discipline: a wake-up for a fiber is handed out only while none is outstanding, none before it yields READY, and none is outstanding when it ends. |
| `ReactorInvariant.dfy`, `ReactorTheorems.dfy`, `ReactorDrain.dfy`, `ReactorConservation.dfy` | What every step keeps, and what follows for whole runs: one owner per fiber, a ledger of wake-ups, of armed waits and of tasks, exact counters, and when a true answer of `stopping` is final. |
| `Scheduler.dfy`, `IoManager.dfy` | The queue operations and the event operations as the classes run them, specified by the functions of the state machine. |
| `Timers.dfy`, `TimerRuns.dfy` | TimerManager: an ordered set whose keys change only outside it, and arbitrary sequences of calls on it. |
| `HookIo.dfy`, `HookDiscipline.dfy`, `HookCalls.dfy` | The retry and timeout protocol of a hooked blocking call, with the callback of its timer in the four steps that other threads can come between; such a call inside the state machine, where it keeps the wake-up discipline; and any number of them at once. |
| `Blocks.dfy`, `FlatBuffer.dfy`, `ByteArray.dfy`, `ByteArrayRuns.dfy` | ByteArray's block list on the heap as a refinement of one flat buffer, its scatter/gather views, and whole sequences of calls. |
| `Bits.dfy`, `Varint.dfy`, `Fields.dfy`, `Codecs.dfy`, `Protocol.dfy` | The typed fields, as values and as reads and writes through the cursor, and the RPC messages made of them. |
| `ParserTable.dfy`, `ParserTrace.dfy`, `ParserHistory.dfy`, `ParserDriver.dfy`, `ParserExample.dfy` | The table-driven HTTP parser, for any well-formed table: its control states, its marks and callbacks, what these mean in terms of the actions that ran, and the driver loop; and one small table. |
| `Streams.dfy`, `HttpSession.dfy` | Fixed-size reads and writes over a socket that moves what it likes, and the reception of a request. |
| `Base64.dfy`, `Hex.dfy`, `UrlCodec.dfy`, `Query.dfy` | The text codecs and the parameter parsing. |

Properties that turned out false of the code are stated with the exact condition under which they hold:

- A true answer of `IOManager::stopping` is not always final. Between `listExpiredCb` and the
  `schedule` that follows it, and between the decrement of the active counter and the re-queueing of
  a READY fiber, it can turn false again (`ReactorDrain.DrainExact`, with a reachable run for each).
- Idle tests the intersection of the named and the armed events but triggers by the named ones, so
  `triggerEvent`'s assertion can fail (`IoManager.AbortExactly`, with calls that make it fail in
  `IoManager.CancelledBeforeHandling`).
- `Timer::refresh` and `listExpiredCb` issue no front notice; after the clock has gone back either can
  lose a wake-up (`Timers.TimerManager.Refresh` and `ListExpired`, with `TimerRuns.RefreshLoses` and
  `TimerRuns.RolloverLoses`).
- The timer of an earlier wait of a blocking call can end a later wait, its callback can mark the call
  between two waits and so leave the next one without a working timeout, and it can cancel the event
  after the call returned (`HookIo.StaleIff`, `HookIo.TimeoutEndsIff`, `HookIo.LateCancelIff`, with
  reachable runs for each).
- A zero-length read at capacity goes through a null cursor, so an empty string that fills up the
  last block cannot be read back (`Codecs.RoundTripFields`, with `Codecs.EmptyStringLost`).
- `readFixSize` returns its length as an `int`, so a complete read of 2^31 bytes or more can look
  like a failure, and a request body be given up (`Streams.SocketStream.ReadFixSize`,
  `HttpSession.HttpSession.RecvRequest`, with `Streams.LargeReadLooksFailed` and
  `HttpSession.LargeBodyLost`).
- Query parameters come back from their printed form exactly when no key holds `=`
  (`Query.QueryRoundTrip`, with a concrete key that does in `Query.EqualsInKey`).
- `=` is unreserved in the table of `UrlEncode`, although the comment beside it leaves it out; the
  model follows the table.

Inputs from outside are parameters: the clock, what the kernel answers, which flags epoll delivers, how
many bytes each call on a socket moves, the content length a header's callbacks found.

## Model

| member | source | states |
|---|---|---|
| ReactorInvariant.InvInit | sylar/scheduler.cc:128-145 | The start state of any number of threads meets the invariant: wake-ups unique, one runner per fiber, fiber states and counters exact. |
| ReactorInvariant.KeepInv | sylar/scheduler.cc:152-248 | Every step of every thread, of idle and of user code keeps the whole invariant. |
| ReactorInvariant.InvAfter | sylar/scheduler.cc:144-250 | So the invariant holds after any run of steps. |
| ReactorInvariant.AllCarried | sylar/iomanager.cc:80-93 | A step moves each outstanding wake-up to one place and back: what is at a place afterwards was at one place before or is newly handed out, so none is duplicated. |
| ReactorInvariant.KeepWakeupsUnique | sylar/iomanager.cc:80-93 | Over one step, no fiber gets a second wake-up among queue, hands, armed waits, timers, expired batches and sleeping callbacks. |
| ReactorInvariant.KeepOneRunner | sylar/scheduler.cc:186-225 | Over one step, no fiber comes to be between swapIn and settling on two threads, even when it is woken before its swap-out completes. |
| ReactorInvariant.KeepRunnersOk | sylar/fiber.cc:158-217 | A fiber in swapIn is EXEC; one that yielded READY or ended has no wake-up outstanding. |
| ReactorInvariant.KeepPocketsOk | sylar/scheduler.cc:202-225 | The spare callback fiber a thread keeps for reuse is reset, is no one else's, and is named by no wake-up. |
| ReactorInvariant.KeepCounters | sylar/scheduler.cc:170-248 | m_activeThreadCount and m_idleThreadCount equal the threads holding or running a task and the threads inside idle; m_pendingEventCount equals the armed waits. |
| ReactorInvariant.BornFresh | sylar/fiber.cc:201-217 | Under the wake-up discipline a step that hands out a wake-up for a fiber finds none outstanding for it. |
| ReactorTheorems.SingleOwner | sylar/scheduler.cc:152-199 | In every reachable state no fiber is in two threads' hands, by execution or by a task taken. |
| ReactorTheorems.SwapInSafe | sylar/fiber.cc:158-170 | swapIn's assertion that the fiber is not EXEC, and reset's on a reused callback fiber, never fail in a reachable state. |
| ReactorTheorems.EarlyWakeupWaits | sylar/scheduler.cc:163-168 | A wake-up queued for a fiber that is still swapping out is eligible for no thread. |
| ReactorTheorems.PinnedPick | sylar/scheduler.cc:152-179 | In any run a thread takes an entry whose thread is -1 or its own and whose fiber is not EXEC, passing over only entries for other threads and fibers in EXEC; it takes none only if all are such. |
| ReactorTheorems.OnlySchedulePins | sylar/scheduler.h:55-94 | Only taking a task shortens the queue; an entry for one thread comes from user code's schedule alone, everything woken, re-queued or expired goes to the end for any thread. |
| ReactorTheorems.Settled | sylar/scheduler.cc:192-199 | A swapped-out fiber that yielded READY goes to the end of the queue for any thread; one that did not waits as HOLD; an ended one is not queued. |
| ReactorTheorems.EndedForGood | sylar/scheduler.cc:186-231 | A fiber that has ended, and is no thread's spare one, is not run again in any run, whatever still names it. |
| ReactorTheorems.ExpiredTimers | sylar/timer.cc:140-176 | An expiry removes exactly the one-shot timers it takes, keeps recurring and all other ones, and holds their callbacks in order. |
| ReactorTheorems.GoneMeans | sylar/scheduler.cc:186-231 | An outstanding wake-up leaves the books in a step if and only if the step resumes its fiber or discards the wake-up, never both. |
| ReactorTheorems.LedgerStep | sylar/iomanager.cc:201-307 | Per step and fiber: outstanding + handed out = outstanding afterwards + resumed + discarded. |
| ReactorTheorems.Ledger | sylar/hook.cc:118-153 | Over any run, every wake-up handed out for a fiber resumed it once, was discarded once, or is still outstanding. |
| ReactorDrain.AnswerMeansIdle | sylar/iomanager.cc:323-329 | When stopping answers true there is no armed event, no timer, no queued task, and no thread holding or running one. |
| ReactorDrain.StopNeedsRequest | sylar/scheduler.cc:257-261 | In any run stopping answers true, and a thread leaves, only after a stop was requested. |
| ReactorDrain.RequestEndsIdle | sylar/iomanager.cc:323-329 | In any run, once a stop was requested, an idle thread that finds no armed event, timer, queued task or thread with a task ends its idle fiber. |
| ReactorDrain.IdleDoneLeaves | sylar/scheduler.cc:231-236 | A thread without a task leaves run exactly if its idle fiber has ended. |
| ReactorDrain.QuietStep | sylar/scheduler.cc:144-250 | From such a state with no thread in a gap, every internal step leads to such a state again. |
| ReactorDrain.GapBreaks | sylar/iomanager.cc:323-329 | A thread that holds expired callbacks not yet queued, or a READY fiber no longer counted and not yet queued, can make a true answer false in one step. |
| ReactorDrain.DrainExact | sylar/iomanager.cc:323-329 | A true answer of stopping stays true under every further internal run if and only if no thread is in one of those two gaps. |
| ReactorDrain.BatchGapReachable | sylar/iomanager.cc:369-376 | A run in which stopping answers true while the only thread holds an expired callback, and the answer then turns false. |
| ReactorDrain.RequeueGapReachable | sylar/scheduler.cc:192-199 | A run in which stopping answers true between the decrement of the active counter and the re-queueing of a READY fiber. |
| ReactorConservation.WaitsAfter | sylar/iomanager.cc:146-307 | An armed wait keeps its parked task until the one step that deletes or fires it; arming needs the bit clear. |
| ReactorConservation.GoneWhen | sylar/iomanager.cc:201-307 | An armed wait is gone after a step exactly if the step is delEvent, cancelEvent or cancelAll for it, or the delivery of its event on its descriptor. |
| ReactorConservation.FiredOnce | sylar/iomanager.cc:80-93 | Firing an armed wait puts its parked task at exactly one new queue position; deleting it queues nothing. |
| ReactorConservation.WaitLedger | sylar/iomanager.cc:201-307 | Over any run every arm of an (fd, event) is deleted once, fired once, or still armed, whoever raced for it. |
| ReactorConservation.BalanceStep | sylar/scheduler.cc:152-199 | Per step and task: queued or in hand + accepted = queued or in hand afterwards + started. |
| ReactorConservation.TaskConservation | sylar/scheduler.h:56-121 | Over any run no accepted task is lost or duplicated between the queue, a thread's hand and its start. |
| Scheduler.Scheduler.Schedule | sylar/scheduler.h:55-66 | Appends a non-empty task and asks for a tickle exactly when the queue was empty. |
| Scheduler.Scheduler.ScheduleBatch | sylar/scheduler.h:73-87 | Appends the non-empty tasks of the batch in order and leaves the caller's vector empty-valued: ownership moves. |
| Scheduler.Scheduler.TakeTask | sylar/scheduler.cc:152-179 | Takes the first entry whose thread is -1 or the caller's and whose fiber is not EXEC, or none if there is none; counts the thread active, leaves the rest in place, and asks for a tickle exactly when an entry follows the one taken or one for another thread was passed over. |
| Scheduler.FirstIs | sylar/scheduler.cc:155-176 | The entry to take is the one before which none is eligible. |
| Scheduler.TakeKeepsOrder | sylar/scheduler.cc:170-175 | Any two entries left keep their order. |
| IoManager.FdContext.TriggerEvent | sylar/iomanager.cc:80-93 | Clears exactly the one bit, hands out the parked fiber or callback, and leaves the other event's context alone. |
| IoManager.IoManager.EpollCtl | sylar/iomanager.cc:163-176 | The interest map after an ADD, MOD or DEL; the precondition is what the kernel demands, so every caller proves its choice legal. |
| IoManager.IoManager.Resize | sylar/iomanager.cc:135-144 | Growing the table keeps every context and adds empty ones. |
| IoManager.IoManager.AddEvent | sylar/iomanager.cc:146-199 | Arms the event with the callback or the running fiber and counts it, or on a kernel error changes nothing; keeps m_pendingEventCount = armed bits and the kernel interest = the armed events. |
| IoManager.IoManager.ArmedIsWaiting | sylar/iomanager.cc:201-213 | A bit is set exactly when a wait with a parked task is recorded. |
| IoManager.IoManager.DelEvent | sylar/iomanager.cc:201-235 | Succeeds exactly when the event was armed and the kernel agrees; forgets it and queues nothing. |
| IoManager.IoManager.CancelEvent | sylar/iomanager.cc:237-267 | Succeeds exactly when the event was armed and the kernel agrees; queues its parked task once. |
| IoManager.IoManager.CancelAll | sylar/iomanager.cc:270-307 | Queues every parked task of the descriptor once, read before write, and leaves none armed. |
| IoManager.IoManager.HandleReady | sylar/iomanager.cc:387-427 | For any delivered flags: READ is hit exactly when armed and input, error or hang-up was delivered, WRITE likewise with output. Skipped exactly when neither is hit; kernel error exactly when the kernel refuses; assertion failure exactly when a flag also names an event not armed; otherwise exactly the hit waits fire, READ before WRITE, each queueing its parked task for any thread. |
| IoManager.DispatchMeans | sylar/iomanager.cc:389-424 | The intersection with the armed events, the assertion's test and the triggered waits, as the code forms them from real_events, in terms of flags and armed waits. |
| IoManager.AbortExactly | sylar/iomanager.cc:389-424 | Line 402 tests the intersection and 419-426 trigger by real_events: the assertion fails exactly when one named event is armed and the other named one is not. |
| IoManager.CancelledBeforeHandling | sylar/iomanager.cc:389-424 | Both events armed, WRITE cancelled, both delivered: the assertion fails. |
| Timers.TimerManager.LowerBound | sylar/timer.cc:6-27 | The set's lookup by comparator finds the first timer not before the key. |
| Timers.TimerManager.Find | sylar/timer.cc:46-47 | The lookups in cancel, refresh and reset always hit, because keys change only outside the set. |
| Timers.TimerManager.Insert | sylar/timer.cc:179-186 | Insertion keeps the set strictly ordered and says whether the timer is first. |
| Timers.TimerManager.InsertAndNotify | sylar/timer.cc:179-195 | A front notice is issued exactly when the timer is first and none is out. |
| Timers.TimerManager.AddTimer | sylar/timer.cc:102-108 | A fresh timer at any unused address, due at now + ms; wake-up safety is kept. |
| Timers.TimerManager.Cancel | sylar/timer.cc:42-51 | True exactly when the timer still had its callback; afterwards it has none and is out of the set. |
| Timers.TimerManager.Refresh | sylar/timer.cc:53-67 | Moves the deadline to now + ms and issues no notice: safe exactly when a notice is out or the new deadline is not before the announced one, and always under a monotone clock. |
| Timers.TimerManager.Reset | sylar/timer.cc:69-93 | New period and deadline from now or from the old start; the unchanged period succeeds even on a dead timer. |
| Timers.TimerManager.GetNextTimer | sylar/timer.cc:124-138 | Announces the earliest pending deadline, or none exactly when no timer is pending, and clears the notice flag. |
| Timers.TimerManager.ExpiredEnd | sylar/timer.cc:158-162 | The prefix cut off is exactly the timers due by now, or all on rollover. |
| Timers.TimerManager.Deliver | sylar/timer.cc:158-175 | Takes out the due prefix and delivers it. |
| Timers.TimerManager.ListExpired | sylar/timer.cc:140-176 | The callbacks of exactly the due timers (all on rollover) in deadline order; one-shots lose theirs, recurring timers go back at now + period, the others are untouched. Wake-ups stay safe exactly when a notice is out or no recurring one comes before the announced deadline, so always without a rollover. |
| Timers.RolledOverIff | sylar/timer.cc:198-206 | A rollover is found exactly when the clock went back by more than an hour, or went back at all from a reading below an hour, where the subtraction wraps. |
| TimerRuns.Run.Step | sylar/timer.cc:42-176 | Any one call does what it says to the deliveries (an expiry adds exactly the due timers, all on rollover, in deadline order), to the cancels recorded and to the timers made; it keeps the integrity of the set, at-most-once delivery of one-shots, finality of cancel, and wake-up safety if a refresh reads no earlier than what was read before and an expiry finds no rollover. |
| TimerRuns.Play | sylar/timer.cc:42-206 | Any sequence of calls under any readings, each played in turn and making the timers it should, delivers one-shots at most once and nothing after its cancel returned true; no wake-up is lost if refreshes, which read the clock under the lock, read no earlier than the calls before them and no expiry rolls over, whatever the other calls read. |
| TimerRuns.MonotoneIsTimely | sylar/timer.cc:53-67 | So none is under readings that never go back. |
| TimerRuns.RefreshLoses | sylar/timer.cc:53-67 | With the clock set back, a refresh that leaves an earlier deadline than the announced one and no notice out. |
| TimerRuns.RolloverLoses | sylar/timer.cc:140-176 | So does a rollover with a recurring timer, without any refresh. |
| HookIo.InvAfter | sylar/hook.cc:109-153 | Over any run of one blocking call, its callbacks' test, mark and cancelEvent taken apart: armed exactly when parked, at most the current wait's timer set, marks and results explained by what happened, an unmarked wait's timeout still to come. |
| HookIo.OneWakePerArm | sylar/hook.cc:109-153 | Every arm is answered by exactly one wake-up unless still parked; a call that returned left no event armed and no timer set; ETIMEDOUT only by a timer of its own; a value only from its last attempt. |
| HookIo.ArmsAreBlocks | sylar/hook.cc:109-118 | Every arming of the event answers one attempt that would have blocked; an interrupted attempt arms nothing. |
| HookIo.ValueReturned | sylar/hook.cc:112-115 | A value is returned only by an attempt that returned it. |
| HookIo.InterruptedGoesOn | sylar/hook.cc:112-114 | Attempts that end in EINTR change nothing: the call goes on trying. |
| HookIo.ArmFailureEnds | sylar/hook.cc:131-138 | The call ends with -1 for a failed addEvent exactly if one failed. |
| HookIo.StaleIff | sylar/hook.cc:118-150 | Some run from a parked call ends that wait in ETIMEDOUT without its own timer having marked it if and only if its own timer has not, and an earlier wait's timer has or has a callback still under way. |
| HookIo.StaleTimeoutReachable | sylar/hook.cc:118-150 | Runs in which the second wait is ended with ETIMEDOUT by the first wait's timer, its mark set before the second wait is armed or after. |
| HookIo.TimeoutEndsIff | sylar/hook.cc:120-128 | Some run without a firing of its event gets a parked call with a timeout out of its wait if and only if the call is unmarked or a callback is past its test. |
| HookIo.LostOnlyIfMissed | sylar/hook.cc:118-150 | A parked wait has lost its timeout only if a callback's cancelEvent came while the call had no event armed. |
| HookIo.LostTimeoutReachable | sylar/hook.cc:118-150 | A run that parks with a timer set, after which no run without a firing of the event ends the wait. |
| HookIo.LateCancelIff | sylar/timer.cc:111-116 | After a call returned, some run has a callback of it reach its cancelEvent, and so hit whatever waits for the event by then, if and only if one is past its test or has taken hold of the unmarked condition. |
| HookIo.LateCancelReachable | sylar/hook.cc:120-128 | A run in which the call returns its value and such a callback is left. |
| HookDiscipline.DisciplineMet | sylar/hook.cc:109-153 | In a reachable state every step of do_io is enabled in the state machine, the hand-out rule included, and every step that resumes or fires at its fiber is one the call is waiting for. |
| HookDiscipline.MoveKeeps | sylar/hook.cc:109-153 | Any step of the call or of the other threads keeps the tie between the two: in control with no wake-up outstanding, parked with the wait armed for its fiber, or woken with its fiber queued. |
| HookDiscipline.CallsKeepDiscipline | sylar/hook.cc:109-153 | Over any run of a blocking call among the other threads, do_io never breaks the wake-up discipline. |
| HookCalls.OwnIsAside | sylar/hook.cc:109-153 | What one call does to the reactor hands out no wake-up for the fiber of another, resumes it not, and leaves its wait alone. |
| HookCalls.TurnKeeps | sylar/hook.cc:109-153 | Any step of any of the calls, a new call, or a step of the rest keeps every call tied to its fiber and its wait. |
| HookCalls.CallsTogether | sylar/hook.cc:109-153 | From any reachable state, over any run in which any number of calls start, wait, time out and return, each on a fiber and for an event of its own, none ever breaks the wake-up discipline; only steps that are no call's are asked not to wake a call's fiber but by firing what it waits for. |
| Blocks.BlockIs | sylar/bytearray.cc:351-352 | Position p lies in block p / base at offset p % base. |
| ByteArray.ByteArray.constructor | sylar/bytearray.cc:33-41 | One block, position and size 0, big-endian. |
| ByteArray.ByteArray.CursorIs | sylar/bytearray.cc:439-455 | capacity = blocks * base, and m_cur is block position / base, or null exactly at capacity. |
| ByteArray.ByteArray.AddCapacity | sylar/bytearray.cc:499-528 | Adds as few whole blocks as make n bytes fit after the position, keeps the contents, and gives a null cursor the first new block. |
| ByteArray.ByteArray.WriteLoop | sylar/bytearray.cc:351-373 | The block-by-block copy writes the buffer over the flat contents at the position and moves the cursor, across any number of blocks. |
| ByteArray.ByteArray.Write | sylar/bytearray.cc:345-378 | write is the flat buffer's write: contents, size and position. |
| ByteArray.ByteArray.ReadLoop | sylar/bytearray.cc:385-406 | The block-by-block copy returns the flat bytes from the position and moves the cursor past them. |
| ByteArray.ByteArray.Read | sylar/bytearray.cc:380-407 | read is the flat buffer's read; too long a read throws and changes nothing. |
| ByteArray.ByteArray.ToString | sylar/bytearray.cc:530-538 | The readable bytes, with nothing changed. |
| ByteArray.ByteArray.Locate | sylar/bytearray.cc:447-454 | The walk from the root ends at the block of the position, null exactly at capacity. |
| ByteArray.ByteArray.SetPosition | sylar/bytearray.cc:439-455 | Throws exactly beyond capacity; otherwise moves the position and raises the size to it. |
| ByteArray.ByteArray.Clear | sylar/bytearray.cc:332-343 | Back to one block, empty. |
| ByteArray.ByteArray.PiecesHold | sylar/bytearray.cc:570-583 | The pieces from a block and offset hold exactly the flat bytes they cover, in order, their lengths adding up. |
| ByteArray.ByteArray.PieceBlock | sylar/bytearray.cc:570-583 | Piece i lies in the i-th block on, so no two share memory. |
| ByteArray.ByteArray.Collect | sylar/bytearray.cc:570-583 | The loop of the three functions produces exactly those pieces. |
| ByteArray.ByteArray.GetReadBuffers | sylar/bytearray.cc:556-585 | Disjoint pieces that hold the next min(len, readable) bytes; nothing changes. |
| ByteArray.ByteArray.GetReadBuffersAt | sylar/bytearray.cc:587-622 | The same number of bytes taken from a given position; inside the data when that is at or before the cursor. |
| ByteArray.ByteArray.GetWriteBuffers | sylar/bytearray.cc:624-652 | Disjoint pieces that cover [position, position + len) after growing; position, size and contents stay. |
| ByteArray.ByteArray.Fill | sylar/streams/socket_stream.cc:32-36 | Bytes stored through those pieces from the front are bytes written at the position. |
| FlatBuffer.CeilCovers | sylar/bytearray.cc:509-510 | The number of blocks added covers the need, and one less would not. |
| FlatBuffer.WroteMore | sylar/bytearray.cc:345-378 | Two writes in a row are one write of both, with the same final capacity bound. |
| FlatBuffer.SeekReads | sylar/bytearray.cc:439-455 | Moving the position ahead keeps the data and makes what it passes over readable. |
| ByteArrayRuns.Play | sylar/bytearray.cc:332-455 | One call of write, read, setPosition or clear, with any argument, shows and leaves what it does on one flat buffer; a zero-length read at the capacity shows the null cursor. |
| ByteArrayRuns.Replay | sylar/bytearray.cc:332-455 | So does any sequence of calls, up to the first that goes through a null cursor. |
| ByteArrayRuns.ShowsOnTape | sylar/bytearray.cc:332-455 | Calls whose result the data alone decides show and leave what they do on a plain tape of bytes, without blocks or capacity. |
| ByteArrayRuns.BlockSizeNeverShows | sylar/bytearray.cc:33-41 | Two arrays of any two block sizes show what the tape shows for any sequence of calls the data alone decides. |
| Varint.EncodeFits | sylar/bytearray.cc:142-166 | Every 32-bit value takes 1 to 5 bytes, every 64-bit value 1 to 10. |
| Varint.EncodeAt | sylar/bytearray.cc:142-166 | Byte i holds bits 7i to 7i + 6, the low ones first, with 128 added on all but the last. |
| Varint.EncodeRead | sylar/bytearray.cc:142-151 | 300 is AC 02. |
| Varint.EncodeLength | sylar/bytearray.cc:142-166 | At most k bytes exactly when the value is below 128^k. |
| Varint.DecodeEncode | sylar/bytearray.cc:250-284 | Decoding an encoding followed by any bytes gives the value and stops at its last byte. |
| Varint.EncodeMinimal | sylar/bytearray.cc:142-166 | No byte string the reader accepts for a value is shorter than its encoding. |
| Varint.ShortIffRunsOut | sylar/bytearray.cc:250-284 | The reader runs out exactly when fewer than its maximum of bytes are there and all ask for more. |
| Varint.ZigzagMeaning | sylar/bytearray.cc:113-127 | 0, -1, 1, -2, ... become 0, 1, 2, 3, ..., the least value included, with the negation wrapping. |
| Varint.ZigzagRoundTrip | sylar/bytearray.cc:129-135 | Decoding undoes encoding on every signed value. |
| Varint.ZigzagOnto | sylar/bytearray.cc:129-135 | Encoding undoes decoding on every word. |
| Bits.BitOfEach | sylar/bytearray.cc:129-151 | The operators or, and, exclusive or on unsigned words, bit by bit. |
| Bits.XorAllOnes | sylar/bytearray.cc:129-135 | Exclusive or with k ones is the complement, for every width; ZigzagDecode is written with it. |
| Bits.OrOfDisjointBits | sylar/bytearray.cc:250-284 | Or of the low k bits with a multiple of 2^k is the sum, for every width; the readers' or-ing is reduced to it. |
| Bits.SevenBits | sylar/bytearray.cc:147 | (v & 0x7F) or-ed with 0x80 is v mod 128 + 128, so the writers' byte is that of the encoding. |
| Fields.StoredSameOnAnyHost | sylar/bytearray.cc:71-111 | The bytes of a fixed-width write depend on the array's byte order only, not on the machine's. |
| Fields.LoadedSameOnAnyHost | sylar/bytearray.cc:216-248 | Nor do the numbers read back. |
| Fields.ImageAt | sylar/bytearray.cc:71-111 | Byte i of a big-endian word is its i-th from the top, of a little-endian one from the bottom. |
| Fields.ImageRead | sylar/bytearray.cc:71-111 | 0x01020304 is 01 02 03 04 big-endian, 04 03 02 01 little-endian. |
| Fields.ImageRoundTrip | sylar/bytearray.cc:71-111 | A word stored and loaded in one byte order is the word. |
| Fields.NumRoundTrip | sylar/bytearray.cc:64-166 | Every number in range is read back as written, whatever follows it. |
| Fields.RoundTrip | sylar/bytearray.cc:180-198 | So is every field, strings included, if its length fits its prefix. |
| Fields.TextLayout | sylar/bytearray.cc:180-198 | A string is written as its length, in 2, 4 or 8 bytes or as a varint by its prefix, and then its bytes. |
| Fields.TextCut | sylar/bytearray.cc:180-183 | A longer string is read back cut to its length modulo the prefix's range. |
| Fields.TextRoundTripExact | sylar/bytearray.cc:180-198 | A string comes back whole if and only if its length fits the prefix. |
| Fields.RoundTripAll | sylar/bytearray.cc:64-330 | A list of fields decodes to the list written and ends where it ended. |
| Codecs.WriteFixed | sylar/bytearray.cc:64-111 | Writes the value in the array's byte order on a machine of either order. |
| Codecs.FillVarint | sylar/bytearray.cc:142-151 | The loop fills the temporary buffer with the encoding and never past it. |
| Codecs.WriteVarint | sylar/bytearray.cc:142-166 | Writes the encoding at the position. |
| Codecs.WriteField | sylar/bytearray.cc:180-198 | A string is its length and then its bytes, as one write. |
| Codecs.Take | sylar/bytearray.cc:380-387 | read as the typed readers use it: out of range, through a null cursor (zero bytes at capacity), or the next n bytes; each exactly when. |
| Codecs.ReadFixed | sylar/bytearray.cc:216-248 | Reads back the number the next bytes decode to, or throws and changes nothing. |
| Codecs.OrAdds | sylar/bytearray.cc:250-284 | Or-ing a shifted group of seven bits into the result adds it modulo the word size, also where the top bits are lost. |
| Codecs.ReadVarint | sylar/bytearray.cc:250-284 | Returns what the next bytes decode to and takes just those; running out leaves the cursor behind the last byte. |
| Codecs.ReadText | sylar/bytearray.cc:302-330 | Length, then bytes; throws when either is cut short; null cursor exactly for an empty string at the capacity. |
| Codecs.ReadField | sylar/bytearray.cc:206-330 | Any field read does what decoding the readable bytes says. |
| Codecs.RoundTripFields | sylar/bytearray.cc:64-330 | Any list of fields written at any position of any array and read back gives the same values and end position, except exactly when the list ends with an empty string that fills up the last block. |
| Codecs.EmptyStringLost | sylar/bytearray.cc:302-330 | One empty string in an array of one-byte blocks is read through the null cursor. |
| Protocol.RoundTripMessage | sylar/protocol.cc:19-69 | A request, response or notification serialized anywhere and parsed after its type byte is the message; the only exception is an empty result string at the very end of the last block. |
| Protocol.RequestBytes | sylar/protocol.cc:19-24 | A request with small numbers is the bytes 1, sn, cmd. |
| Protocol.ResponseBytes | sylar/protocol.cc:39-46 | A response is 2, sn, cmd, result, the length of the string and the string. |
| Protocol.NotifyBytes | sylar/protocol.h:21-24 | A notification is 3 and its number. |
| Protocol.Serialize | sylar/protocol.cc:19-24 | Writes the type byte and the message's fields in order. |
| Protocol.Parse | sylar/protocol.cc:26-30 | Reads the fields of the given type. |
| ParserTable.FirstKeyIs | sylar/http/http11_parser.cc:2180-2203 | Among sorted keys, the one that matches is the first that a linear lookup finds. |
| ParserTable.FirstRangeIs | sylar/http/http11_parser.cc:2205-2228 | The same among disjoint sorted ranges. |
| ParserTable.CondMeans | sylar/http/http11_parser.cc:2230-2264 | The entry picked has key 1 exactly if uri_relaxed is set and the transition's condition space is 0, else key 0. |
| ParserTable.NotStoppedAllRead | sylar/http/http11_parser.cc:2402-2434 | An execution that neither failed nor was done used up all its input; a failing one ends in the error state before the end. |
| ParserTable.RunAppend | sylar/http/http11_parser.cc:2142-2434 | Executing on a and then b ends in the same control state, with the same characters used and the same end, as on a ++ b. |
| ParserTable.CutsDoNotShow | sylar/http/http11_parser.cc:2142-2434 | However an input is cut into pieces, executing them in turn is executing the whole. |
| ParserTrace.DoAllInBuffer | sylar/http/http11_parser.cc:2266-2401 | The actions at one character keep the marks at or before it, but for a query_start left from an earlier buffer; slices given to callbacks lie inside the buffer, but for a query string that starts there, and of a field name start and length do, each by itself; only an ending action moves body_start. |
| ParserTrace.TraceInBuffer | sylar/http/http11_parser.cc:2142-2434 | So they do over a whole execution, and body_start is where it was unless the execution was done. |
| ParserHistory.ExecutionTold | sylar/http/http11_parser.cc:2266-2401 | In any execution a field's value and the other elements run from where action 0 or 3 last ran to the callback's place, a field's name from where action 1 last ran over the length action 2 measured, a query from where action 8 last ran; body_start and the content length are those of the ending action, and these are all the callbacks, in order. |
| ParserExample.LineRead | sylar/http/http11_parser.cc:2142-2434 | A table for lines like ab:c reads that line as the field at offset 0 of length 2 with the value at offset 3 of length 1, and ends behind it. |
| ParserDriver.SearchKey | sylar/http/http11_parser.cc:2180-2203 | The binary search among single keys equals the linear lookup. |
| ParserDriver.SearchRange | sylar/http/http11_parser.cc:2205-2228 | The binary search among ranges, which steps by pairs, equals the linear lookup. |
| ParserDriver.HttpParser.constructor | sylar/http/http11_parser.cc:2118-2138 | A fresh parser: start state, no mark, body_start 0. |
| ParserDriver.HttpParser.FindTrans | sylar/http/http11_parser.cc:2176-2228 | The transition a state takes on a character. |
| ParserDriver.HttpParser.FindCond | sylar/http/http11_parser.cc:2230-2264 | The entry the condition picks, if any. |
| ParserDriver.HttpParser.RunActions | sylar/http/http11_parser.cc:2266-2401 | The actions of an entry in order up to and with the one that ends the execution: flags, marks and callbacks are those of the action list. |
| ParserDriver.HttpParser.Turn | sylar/http/http11_parser.cc:2176-2406 | One character of the loop does what the table says. |
| ParserDriver.HttpParser.Execute | sylar/http/http11_parser.cc:2142-2434 | Marks and callbacks are exactly those of the trace over the table, characters used and control state are those of the table run, an error stays an error, and the closing assertions hold exactly when body_start fitted the buffer before or the call set it anew, so always from a fresh parser. |
| Streams.SocketStream.Read | sylar/streams/socket_stream.cc:21-26 | What comes is the next bytes in order; nothing else of the buffer changes. |
| Streams.SocketStream.ReadFixSize | sylar/stream.cc:5-17 | Stores exactly the next bytes in order, all of them or those before the failing read, however they came in pieces; complete whenever the stream goes on flowing; the result is positive if and only if all came and the length, taken modulo 2^32, lies between 0 and 2^31. |
| Streams.LargeReadLooksFailed | sylar/stream.cc:5-17 | A complete read of 2^31 bytes returns a negative result. |
| Streams.SocketStream.ReadArray | sylar/streams/socket_stream.cc:28-39 | A scattering read into a ByteArray is a write of the bytes that came. |
| Streams.SocketStream.ReadFixArray | sylar/stream.cc:19-29 | So is a fixed-size read, over any number of reads. |
| Streams.SocketStream.WriteArray | sylar/streams/socket_stream.cc:48-59 | What is sent is what the array would read next, and the position moves past it. |
| Streams.SocketStream.WriteFixArray | sylar/stream.cc:46-56 | A fixed-size write sends exactly the next bytes in order, all or those before the failing send. |
| Streams.SocketStream.WriteFixSize | sylar/stream.cc:31-44 | The same from memory. |
| Streams.Scatter | sylar/streams/socket_stream.cc:32-38 | Filling the pieces and moving the position is a write. |
| HttpSession.RunDone | sylar/http/http11_parser.cc:2436-2452 | For tables whose final states are entered with the ending action, finished and done are the same. |
| HttpSession.CharsAt | sylar/http/http11_parser.cc:2153-2160 | The parser sees bytes as signed characters: those from 128 on are negative. |
| HttpSession.OnePiece | sylar/http/http_parser.cc:167-171 | One more piece of a header: what it does in the pieces so far is what the whole input does. |
| HttpSession.HttpSession.MoveToFront | sylar/http/http_parser.cc:167-171 | What the parser left is moved to the front of the buffer. |
| HttpSession.HttpSession.RecvHeader | sylar/http/http_session.cc:20-41 | The loop ends with a header exactly when the whole input has one, with the bytes read beyond it kept; how much it has read by then follows from the sizes the reads brought and where the header ends; it never finds the buffer full. |
| HttpSession.HttpSession.RecvBody | sylar/http/http_session.cc:42-63 | The body is what the buffer has left of it and the bytes that follow in the stream, however they come; when all of it comes it is set if and only if the buffer keeps enough or the read of the rest does not look like a failure. |
| HttpSession.LargeBodyLost | sylar/http/http_session.cc:11-67 | A request with a body of 2^31 bytes, none of it in the buffer, is given up although all of it comes. |
| HttpSession.HttpSession.RecvRequest | sylar/http/http_session.cc:11-67 | The body is exactly the content-length bytes after the header end, however they were split between the leftover and later reads; a request that is all there on a flowing stream is received if and only if what the header's last read brought beyond the header is enough of the body or the read of the rest does not look like a failure, so always below 2^31 bytes. |
| Base64.Encode | sylar/util/hash_util.cc:201-239 | The loop computes the encoding. |
| Base64.Decode | sylar/util/hash_util.cc:133-195 | The loop computes the decoding into a buffer of size * 3 / 4 that it never overruns; "" is returned exactly for rejected or empty input. |
| Base64.RoundTrip | sylar/util/hash_util.cc:133-239 | Decoding undoes encoding for every byte string. |
| Base64.DecodesIffAccepted | sylar/util/hash_util.cc:133-195 | Accepted are exactly whole groups of four letters with at most the last two characters as padding. |
| Base64.EncodesBackIff | sylar/util/hash_util.cc:133-239 | Encoding undoes decoding of an accepted string if and only if its spare bits are zero. |
| Base64.Alphabet | sylar/util/hash_util.cc:202-203 | The letters are in bijection with 0 to 63. |
| Base64.AlphabetText | sylar/util/hash_util.cc:202-203 | They are A-Z, a-z, 0-9, + and /, with = as padding. |
| Base64.FooRead | sylar/util/hash_util.cc:201-239 | foo, fo and f encode to Zm9v, Zm8= and Zg==. |
| Hex.RoundTrip | sylar/util/hash_util.cc:357-460 | Reading undoes printing on every byte string, and what is printed is accepted. |
| Hex.HexedAt | sylar/util/hash_util.cc:357-369 | The higher digit comes first, both in lower case. |
| Hex.HexesBackIff | sylar/util/hash_util.cc:357-460 | Printing undoes reading of an accepted text if and only if it has no upper-case digit. |
| Hex.HexFromData | sylar/util/hash_util.cc:357-369 | The loop writes the two digits of every byte and nothing else. |
| Hex.HexString | sylar/util/hash_util.cc:371-384 | The text of a byte string. |
| Hex.DataFromHex | sylar/util/hash_util.cc:386-460 | Throws exactly on an odd length or a character that is no digit; the bytes of the pairs before that one are written, and nothing else. |
| Hex.DataString | sylar/util/hash_util.cc:462-474 | The decoded string exactly for accepted texts. |
| UrlCodec.UrlEncode | sylar/util.cc:429-458 | The lazily copying loop equals the per-byte map. |
| UrlCodec.UrlDecode | sylar/util.cc:460-489 | The lazily copying loop equals the per-position map. |
| UrlCodec.RoundTripIff | sylar/util.cc:429-489 | Decoding undoes encoding if and only if + is read as a space, or was not written for one, or there is no space. |
| UrlCodec.EncodingClean | sylar/util.cc:383-458 | An encoding holds only unreserved bytes, + and %. |
| UrlCodec.UnreservedText | sylar/util.cc:383-402 | Unreserved are letters, digits and - . _ ~ =. |
| UrlCodec.HexText | sylar/util.cc:404-458 | The digits after a % are printed in upper case and read in both. |
| UrlCodec.RawKept | sylar/util.cc:460-489 | Text without escapes decodes to itself, reserved characters included, + too unless it stands for a space. |
| UrlCodec.PercentKept | sylar/util.cc:460-489 | A % before anything but two hexadecimal digits stands for itself. |
| Query.ParseParam | sylar/http/http.cc:217-233 | The loop inserts the pairs in order, the first for a key winning. |
| Query.FoldIff | sylar/http/http.cc:53-56 | Two keys share an entry exactly when, up to their first 0 byte, they have the same length and each two bytes are equal or the two cases of one ASCII letter. |
| Query.FirstWins | sylar/http/http.cc:227-228 | After the inserts a key has what it had, or else its first pair. |
| Query.GetAfterInserts | sylar/http/http.cc:217-233 | A lookup after any inserts finds the first pair whose key is the same in that sense, and nothing if there is none. |
| Query.TrimIs | sylar/http/http.cc:252-263 | Trimming cuts off exactly the spaces, tabs and line ends at both ends. |
| Query.ParseJoin | sylar/http/http.cc:217-233 | Pairs with =-free keys and percent-encoded values, joined by & or ;, parse back to themselves, up to trimming. |
| Query.KeyLost | sylar/http/http.cc:217-233 | If a key holds =, something else comes back, whatever the other pairs are. |
| Query.QueryRoundTrip | sylar/http/http.cc:212-237 | So every pair comes back, in order, if and only if no key holds =; a lookup then finds the first pair of the same key, and every pair its own value if no two keys are the same. |
| Query.EqualsInKey | sylar/http/http.cc:217-233 | The key `a=` does not come back. |
| Query.QueryRead | sylar/http/http.cc:212-237 | a=1&b=2 is read as those two parameters. |
| Query.CookiesRead | sylar/http/http.cc:252-263 | a=1; b=2 is read as those two cookies, the second key without its leading space. |
| Query.HttpRequest.InitQueryParam | sylar/http/http.cc:212-237 | Parses the query once; a lookup finds the first pair of the same key. |
| Query.HttpRequest.InitBodyParam | sylar/http/http.cc:239-250 | Parses a form body once. |
| Query.HttpRequest.InitCookies | sylar/http/http.cc:252-263 | Parses the cookies once, with ; and trimmed keys. |
| Query.HttpRequest.InitParam | sylar/http/http.cc:206-210 | The query's pairs come before the body's; calling it again changes nothing. |
## Left out

- Tickling through the pipe, and with it how soon a queued task is noticed: `tickle` is best effort with a three-second cap.
- ucontext switching, stacks and the destructors of fibers: only fiber states and ownership are kept. A task that throws `std::exception` leaves its fiber in state EXEC (`sylar/fiber.cc:234-238`) and is excluded; other exceptions end it as EXCEPT.
- Thread pinning after a READY fiber is queued again: it is queued for any thread, as `sylar/scheduler.cc:195` does.
- IOManager::stopping(timeout) is one step of the state machine; the reads it makes under three locks are not interleaved with other steps.
- The two-phase locking of addEvent (`sylar/iomanager.cc:148-160`): the table grows inside the step, because the code takes the lock again without checking the size again.
- Event bits are sets of events, not masks; epoll's edge triggering and its own pipe descriptor are not modelled.
- TimerManager: deadlines are unbounded, so the wrap-around of uint64 sums is not modelled, except in the test for clock rollover. A recurring timer in the state machine carries no wake-up. Callbacks are never empty: a timer made with an empty function would stay in the set without a callback.
- HookIo: a callback's release of the condition is part of its last step; the other hooked functions (connect, sleep, fcntl, close) and the descriptor table; they use the same arm, timer and yield steps, with one attempt instead of a loop. A delEvent from elsewhere would leave a parked call waiting for good, and an epoll_ctl that fails inside cancelEvent would leave it armed; neither is a step.
- ByteArray: file input and output, floats, hexadecimal dumps, and the const read at a position in another block than the cursor; memory freed by clear is not tracked. A caller's buffer is a sequence given to write and returned by read.
- ByteArray.Read: its precondition leaves out the zero-length read at capacity, which has no defined behaviour; the typed readers model it as an outcome of its own.
- ByteArray.ByteArray.GetReadBuffersAt: the bytes taken from the given position must lie within the blocks; further on the code walks off the end of the list.
- Protocol.RoundTripMessage: messages of the three known types; other type bytes are not part of this model.
- Protocol.Parse: when a read throws, which fields of the message object have been overwritten by then.
- Sizes are unbounded where the C++ uses size_t; a string length near 2^64 cannot occur in memory.
- The generated tables of the parser: the driver is proved for any table with sorted keys, disjoint ranges and indices in range. Callbacks are not claimed to be independent of how the input is cut, because the marks are reset on each call.
- ParserTrace.TraceInBuffer: a query_start left from an earlier buffer and the slice that starts there are not bounded, as the code resets it nowhere; nor is the sum of a field name's start and length.
- ParserTrace.DoAllInBuffer: the same two exceptions.
- ParserDriver.HttpParser.Execute: a query string given to a callback may start at a mark from an earlier buffer, and of a field name only start and length are claimed to lie inside the buffer, each by itself.
- HttpSession.HttpSession.RecvRequest: errors that the header's callbacks set, and the content length they find, are outside the model; the length is a parameter.
- Streams: a socket is its incoming and sent bytes and a plan of what each call moves; time-outs and shutdown are results of that plan.
- Query: whether the content type names a form is a field of the request, and header lookup is not part of this model.
- Logging, configuration, mutexes, TLS, digests, ZooKeeper, servlets, and the HTTP enumerations: plumbing or library functions.
