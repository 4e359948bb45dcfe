# Tiger, modelled and proved in Dafny

Tiger is a coroutine network framework in C++: coroutines run on scheduler threads, hooked
system calls park them on I/O events or timers, and HTTP and WebSocket clients and servers
sit on top. This project models the parts whose correctness is hard to see from the code and
proves what they promise, for every input, every run and every interleaving.

| file | what it models |
|---|---|
| `ParkWake.dfy` | coroutines, scheduler, event table and hooked calls as one transition system over any number of threads |
| `TaskQueue.dfy` | the scheduler's task list, refining the queue of that system |
| `Resumption.dfy` | where its coroutines are resumed, and how long callbacks and idle coroutines last |
| `EarlyWakeups.dfy` | a run of that system in which wake-ups come before the yield |
| `Draining.dfy` | which tasks that system can leave behind when all its threads have left |
| `IoTimeouts.dfy` | the timeout of a hooked socket call, over all rounds of its retry loop |
| `Tickles.dfy` | the tickle pipe and the idle count, by which waiting threads learn of tasks |
| `IoEvents.dfy` | `IOManager`'s event table, its pending count and the kernel's interest set |
| `Bytes.dfy`, `ByteArrays.dfy` | byte sequences; `ByteArray`, a linked list of chunks refining a flat byte sequence with a position |
| `Codec.dfy`, `TypedIo.dfy` | fixed-width integers, zigzag, varints and strings; the typed reads and writes of `ByteArray` |
| `Timers.dfy` | `TimerManager`, an ordered set keyed by deadlines that its members carry |
| `WsFrames.dfy`, `WsIo.dfy` | WebSocket frames (section 5.2 of RFC 6455), the receive loop as a function, and the operations over short reads and writes |
| `ChunkedBody.dfy` | the loop that reads a chunked HTTP body (section 7.1 of RFC 9112) |
| `HttpPool.dfy` | the HTTP connection pool |
| `Base64.dfy` | Base64 (section 4 of RFC 4648) |
| `Wrappers.dfy` | optional values |

How the parts connect. `ParkWake` is the protocol at the granularity of the source's critical
sections; its event map is the abstract value `Armed` that `IoEvents.IOManager` keeps, and its
queue search is what `TaskQueue.Scheduler.Search` computes on the real list. `ByteArrays` gives
the flat meaning of `read` and `write`; `TypedIo` adds the formats of `Codec` and proves the
round trip of arbitrary lists of values through a chunked array. `WsFrames.Receive` says what
`recv_message` makes of a byte stream; `WsIo.Stream.RecvMessage` proves that the loop, with any
split into short reads, does exactly that; `WsIo.Deliver` sends and receives. `ChunkedBody` and
`Timers` state their results about a function or a relation in the same way, over all arrivals
and over whole runs, and prove the methods against it.

Conventions. A failing call returns `None`, `false` or an outcome instead of throwing or
returning a null pointer. Clock readings, random keys, the reachability of peers, the failure of
kernel calls and the bytes that arrive are parameters. Reads and writes of a stream move some
positive number of bytes, any number, or what the next segment of the arrivals holds; every
contract holds for every choice. Integers are unbounded, and widths are written out where the
code depends on them: the varints, zigzag, byte swapping, and the WebSocket size test. Ghost
fields and ghost results record history or who holds what; no branch depends on them.

Properties that turned out false of the code are kept as the code has them, with an input that
shows it and the exact condition under which the code does meet them:

- no task is left after `stop`: `ParkWake.DrainRace` with `Draining.RemainsIffAllHadSearched` and `LeftBehindIff`;
- a hooked call reports ETIMEDOUT only if its round's own timeout ended the wait: `IoTimeouts.StaleTimeout` and `ReadyAndTimedOut` with `ForeignIff` and `GenuineIff`;
- no thread waits beside a task it may run: `Tickles.LostInTheWindow` and `LostBehindAnother` with `PromptIffNoGap`;
- `write` overwrites or extends at the position: `ByteArrays.WriteAtEndOverwrites` with `ByteArray.Write`;
- whatever lowers the earliest deadline signals a refresh: `Timers.NegativeIntervalGoesBack` with `UnsignalledIff`;
- a received frame stays in its buffer: `WsFrames.CorruptReached` with `CorruptIff`;
- a frame within the limit is received: `WsFrames.LongLengthMisread` with `SingleFrameReceivedIff`;
- machines of different byte order understand each other: `WsFrames.LittleToBigCloses` with `ReceivedIffSameHost`;
- a chunked body arrives however it is split: `ChunkedBody.SplitLineLosesBody` with `SizeRightIff` and `ReceivedIff`;
- encoding a decoded text gives it back: `Base64.NotCanonical` with `ReencodesIff`.

`dafny verify dfyconfig.toml` checks everything.

## Model

| member | source | states |
|---|---|---|
| `ParkWake.NoWakeupIsDiscarded` | src/hook.cc:141-157 | In every run of any number of threads, a coroutine whose wake-up was dequeued is INIT or YIELD, even when the wake-up was queued before the yield; resuming it is what happens, never the discard |
| `ParkWake.DequeuedIsResumable` | src/scheduler.cc:88-128 | The state fact behind it: the wake-up of a coroutine still RUNNING is pinned to the very thread that runs it, so no thread can have dequeued it |
| `Resumption.ResumedWhereItYielded` | src/scheduler.cc:88-108 | In every run, a coroutine that yields on a thread is next resumed on that thread, whatever consumed its registration and on whatever thread that was |
| `Resumption.FirstResumedWhereScheduled` | src/scheduler.h:122-133 | In every run, a coroutine scheduled for a thread is first resumed on that thread |
| `ParkWake.ExactlyOneWakeup` | src/hook.cc:118-157 | In every run, armed event, sleep timer, expired timer in a thread's local list, queued callback, queued task and dequeued task together hold at most one wake-up of a coroutine; none when it runs or has ended; exactly one while it waits and the scheduler is not stopping |
| `ParkWake.ConsumedOnce` | src/iomanager.cc:41-60 | In every run, a coroutine has registered wake-ups as often as registrations of it were consumed by readiness, timeout, close or expiry, plus the one that is waiting; until stop each consumption has resumed it, but for the one on its way |
| `ParkWake.ConsumptionStep` | src/iomanager.cc:130-179 | Every action keeps that count, because a coroutine never has two wake-ups |
| `EarlyWakeups.EarlyWakeupsHappen` | src/hook.cc:141-157 | A run from the start in which another thread dispatches the event, and then takes out and schedules the expired timer, before the coroutine yields; it is resumed both times, and all threads leave |
| `Resumption.CallbackWaits` | src/iomanager.cc:256-266 | In every run, a callback registered for an event stays registered until the event is consumed, and is then scheduled for any thread |
| `ParkWake.TasksConserved` | src/scheduler.h:122-158 | In every run, the accepted tasks are the queued ones plus the dequeued ones, disjointly; none is dequeued twice; a pinned one only by its thread |
| `Draining.RemainsIffAllHadSearched` | src/scheduler.cc:83-152 | In every run, after all threads have left, a task some member could run is still queued if and only if, at its acceptance, every thread that may run it had found nothing to run and not yet acted on that, or had left, and then left without another search |
| `Draining.TakenIfSomeoneSearches` | src/scheduler.h:122-158 | If at its acceptance some thread that may run it is anywhere else, the task is gone when all have left |
| `Draining.LeftBehindIff` | src/scheduler.cc:129-152 | From any state of any run in which a task is queued, its acceptance for one: some continuation ends with all threads gone and the task behind, if and only if every thread that may run it has found nothing to run and not yet acted on that, or has left |
| `Draining.NotLeftBehind` | src/scheduler.cc:83-152 | If one such thread is elsewhere, no continuation leaves the task behind |
| `Draining.LeaveAll` | src/scheduler.cc:129-152 | Otherwise a continuation that does: stop, each worker finishes what it can and leaves, then the main thread |
| `Draining.DriveOut` | src/scheduler.cc:83-152 | Once stopping, every thread can be driven to its end from wherever it is, with no other thread moving |
| `ParkWake.RemainsIffMissed` | src/scheduler.cc:83-113 | The same by numbers: it remains exactly if it was accepted after the last search of every thread that may run it |
| `ParkWake.DrainRace` | src/scheduler.cc:109-152 | A run in which a task accepted before `stop` remains: search, then push, then stop flag, then the test of the flag |
| `ParkWake.IdleNeverResumedAfterEnd` | src/scheduler.cc:129-181 | In every run, a thread whose idle coroutine has terminated never enters it again; its next decision is to leave |
| `Resumption.IdleEndedForGood` | src/iomanager.cc:181-196 | In every run, once the idle coroutine of a thread has ended, the thread is never again inside it |
| `ParkWake.MainLeavesLast` | src/scheduler.cc:129-153 | In every run, a member main thread has left only when all workers have, and until then the thread count is the number of live workers |
| `ParkWake.RunInv` | src/scheduler.cc:77-153 | The invariant of wake-ups, queue, count and balance holds in every state of every run |
| `ParkWake.StepInv` | src/scheduler.cc:77-153 | Every action of every thread keeps that invariant |
| `ParkWake.TokenStep` | src/coroutine.cc:140-165 | Every action keeps wake-ups unique, homed on the thread that still runs the coroutine, and present for every waiting one |
| `ParkWake.MovedKeeps` | src/iomanager.cc:41-60 | A wake-up that moves from one place to another, appears at a park or disappears at a resume, with all others untouched, keeps the token invariant |
| `ParkWake.QueueStep` | src/scheduler.cc:83-113 | Every action keeps tasks conserved, and a thread that found nothing has left only later tasks behind |
| `ParkWake.CountStep` | src/scheduler.cc:129-153 | Every action keeps the thread count equal to the live workers until the main thread leaves |
| `Tickles.PromptIffNoGap` | src/iomanager.cc:101-131 | In every run, a thread waits beside a queued task it may run only while a tickle is in the pipe or owed or some thread is on its way to a search, if and only if no step is a gap: a push, onto a list that is not empty, for a waiting thread; or the start of a wait beside such a task |
| `Tickles.PromptStep` | src/scheduler.cc:90-147 | The same for one step, for every action |
| `Tickles.IdleAfterEmpty` | src/scheduler.cc:140-147 | A search leads to idleness if and only if it saw an empty list: with a tickle due the thread searches again |
| `Tickles.GapNeedsPush` | src/scheduler.cc:83-147 | In every run, a gap is a push; or the thread that begins to wait comes from a timeout, or a push came between its search of an empty list and its being counted |
| `Tickles.FollowsProtocol` | src/scheduler.cc:83-147 | Search, branch, push and idle steps are those of the park/wake system on the matching state, so that both speak of the same runs |
| `Tickles.TickledForAReason` | src/iomanager.cc:101-108 | A tickle is sent only while a thread is counted as idle, and only for a push onto an empty list or a search that passed a task by or left one behind |
| `Tickles.NothingToTickle` | src/scheduler.cc:90-117 | In every run, while nothing has been pushed no tickle is sent, owed or due |
| `Tickles.LostInTheWindow` | src/iomanager.cc:115-128 | A run with a gap: the task arrives while the thread is inside `idle` and not yet counted |
| `Tickles.LostBehindAnother` | src/scheduler.h:122-138 | A run with a gap: the task is pushed behind one for a busy thread that came while the waiting thread was not yet counted |
| `Tickles.LostAfterDrain` | src/iomanager.cc:133-142 | A run through a whole life of a tickle, drained from the pipe, with a gap after it |
| `IoTimeouts.ForeignIff` | src/hook.cc:116-166 | For every reachable state between two rounds: another round's timeout can consume the next round's registration or raise its flag, and the call report ETIMEDOUT, if and only if a callback of an earlier round is still on its way or has raised the flag since its reset |
| `IoTimeouts.GenuineIff` | src/hook.cc:116-166 | In a round that begins with neither, ETIMEDOUT comes from its own timeout, which consumed the registration if and only if readiness did not |
| `IoTimeouts.OwnTimeoutReported` | src/hook.cc:148-155 | A round whose own timeout consumed the registration always reports ETIMEDOUT |
| `IoTimeouts.FlagWasRaised` | src/hook.cc:128-156 | In every run, a flag that is up was raised by a callback and not reset since |
| `IoTimeouts.CallbackOnce` | src/hook.cc:128-136 | In every run, a callback that begins with the flag up or after the call's end never raises or cancels, and none cancels twice |
| `IoTimeouts.EndedForGood` | src/hook.cc:158-166 | In every run, a call that has ended otherwise never reports a timeout |
| `IoTimeouts.CleanRound` | src/hook.cc:116-166 | Along every continuation of such a round only its own timer, callback and flag are about |
| `IoTimeouts.StepInv` | src/hook.cc:121-160 | Every access keeps the timer of the current round the only pending one, and the flag up while its own callback is about to cancel or has cancelled |
| `IoTimeouts.StaleTimeout` | src/hook.cc:124-140 | A call whose second round reports ETIMEDOUT because of the first round's callback |
| `IoTimeouts.ReadyAndTimedOut` | src/hook.cc:124-155 | A round that reports ETIMEDOUT although readiness consumed its registration |
| `TaskQueue.Scheduler.Schedules` | src/scheduler.h:122-158 | Refused when stopping; otherwise the tasks are appended in order, and a waiting thread is tickled exactly if the list was empty |
| `TaskQueue.Scheduler.Search` | src/scheduler.cc:83-113 | The list search takes the task of least number that the thread may run, as the protocol's search does, and asks for a tickle exactly if it skipped a task or left some with a thread idle |
| `TaskQueue.SearchFinds` | src/scheduler.cc:88-108 | The first runnable entry of the list is the runnable task of least number of the map |
| `TaskQueue.AsMapErase` | src/scheduler.cc:101-105 | Erasing an entry removes exactly its number from the map |
| `IoEvents.IOManager.constructor` | src/iomanager.cc:62-76 | The empty table satisfies the invariant |
| `IoEvents.IOManager.FdContextResize` | src/iomanager.cc:205-218 | Grows to the size asked for, keeps every context, new ones are empty |
| `IoEvents.IOManager.EnsureContext` | src/iomanager.cc:222-235 | Growing by half always reaches the descriptor and arms nothing |
| `IoEvents.IOManager.EpollCtl` | src/iomanager.cc:243-253 | Callable only with a legal operation: ADD on an unknown descriptor, MOD and DEL on a known one; so each operation the callers choose is proved legal |
| `IoEvents.IOManager.AddEvent` | src/iomanager.cc:220-268 | True exactly if the direction was not armed and the kernel agreed; arms exactly that one; keeps bit = continuation = kernel interest and count = number of bits |
| `IoEvents.IOManager.TriggerEvent` | src/iomanager.cc:41-60 | Hands out the stored continuation and clears it, or does nothing if the bit is no longer set |
| `IoEvents.IOManager.Consume` | src/iomanager.cc:329-344 | Deregisters and triggers one armed direction, leaving the other; one continuation handed out |
| `IoEvents.IOManager.Dispatch` | src/iomanager.cc:143-179 | One ready event: consumes at most one direction, WRITE over READ, exactly if armed and the kernel agreed |
| `IoEvents.IOManager.CancelEvent` | src/iomanager.cc:309-345 | True exactly if it consumed the registration, which is then handed out once |
| `IoEvents.IOManager.CancelAllEvent` | src/iomanager.cc:347-386 | Afterwards nothing of the descriptor is armed; what was is handed out once each, READ before WRITE |
| `IoEvents.ArmedPut` | src/iomanager.cc:256-266 | Setting a bit with its continuation adds exactly that registration |
| `IoEvents.ArmedDrop` | src/iomanager.cc:41-60 | Clearing a bit removes exactly that registration |
| `IoEvents.MirrorSet` | src/iomanager.cc:247-255 | A change of one descriptor on both sides keeps the kernel's interest equal to the bits of all descriptors |
| `ByteArrays.ByteArray.constructor` | src/bytearray.cc:74-78 | An empty array of one chunk, for every base size over zero |
| `ByteArrays.ByteArray.AddFreeCapacityTo` | src/bytearray.cc:93-116 | Nothing if more than n bytes are free; otherwise free capacity ends in [n + base, n + 2 * base); stored bytes stay |
| `ByteArrays.ByteArray.Write` | src/bytearray.cc:475-511 | Overwrites or extends the flat contents at the position, and keeps the cursor at position / base, exactly if the position is not the very end of storage |
| `ByteArrays.WriteAtEndOverwrites` | src/bytearray.cc:105-115 | At the very end of storage, reached by `clear` and `set_position`, the written byte replaces the first one and the cursor falls behind |
| `ByteArrays.ByteArray.Read` | src/bytearray.cc:547-580 | Fails exactly if too few bytes follow; otherwise the slice at the position, and the position moves past it |
| `ByteArrays.ByteArray.ReadAt` | src/bytearray.cc:582-621 | The same slice from any position, with nothing changed |
| `ByteArrays.ByteArray.SetPosition` | src/bytearray.cc:777-795 | Refused exactly beyond the capacity; otherwise the position and its cursor node, extending the size if needed |
| `ByteArrays.ByteArray.Clear` | src/bytearray.cc:459-473 | Back to one chunk, now counted by the capacity |
| `ByteArrays.ByteArray.CursorIsQuotient` | src/bytearray.cc:777-795 | The cursor node is number position / base of the chain |
| `ByteArrays.ByteArray.Seek` | src/bytearray.cc:590-597 | The walk from the root finds the chunk and offset of any stored byte and never follows a null pointer |
| `ByteArrays.ByteArray.Views` | src/bytearray.cc:680-699 | Non-empty slices of consecutive chunks, each ending its chunk except the last, of the asked total length |
| `ByteArrays.ByteArray.GetReadBuffers` | src/bytearray.cc:670-700 | The views tile the range from the position on and hold exactly those bytes of the contents |
| `ByteArrays.ByteArray.GetReadBuffersAt` | src/bytearray.cc:702-738 | The same from a given position, starting at chunk position / base |
| `ByteArrays.ByteArray.GetWriteBuffers` | src/bytearray.cc:740-770 | The views tile [position, position + len), with capacity beyond it |
| `ByteArrays.ByteArray.GatherTiles` | src/bytearray.cc:670-700 | Views that tile a range gather exactly the bytes of that range |
| `ByteArrays.TileAddress` | src/bytearray.cc:670-770 | View n starts where the views before it end |
| `ByteArrays.ByteArray.Receive` | src/streams/socket_stream.cc:51-62 | Filling the write views and moving the position puts the bytes where `write` does, with the same position and, before the very end of storage, the same contents |
| `ByteArrays.ByteArray.Send` | src/streams/socket_stream.cc:72-83 | What is sent is the next r bytes of the contents, and the position moves past them |
| `Codec.LittleRoundTrip` | src/endian.h:20-33 | The bytes of an integer determine it |
| `Codec.FromLittleRoundTrip` | src/endian.h:20-33 | Every byte string of a width is an integer of that width, with those bytes |
| `Codec.ByteSwapTwice` | src/endian.h:20-33 | `byteswap` stays in its width and undoes itself |
| `Codec.FixedWriteOrder` | src/bytearray.cc:118-180 | On either host the bytes written are in the selected order |
| `Codec.FixedRoundTrip` | src/bytearray.cc:261-357 | Reading back a fixed-width integer, for every host and selected order |
| `Codec.ZigzagMeaning32` | src/bytearray.cc:24-34 | 0, -1, 1, -2, ... become 0, 1, 2, 3, ..., the least value included |
| `Codec.ZigzagMeaning64` | src/bytearray.cc:36-46 | The same with 64 bits |
| `Codec.UnzigzagMeaning` | src/bytearray.cc:48-56 | The exclusive-or form decodes even numbers to their half and odd ones to the complement |
| `Codec.ZigzagRoundTrip` | src/bytearray.cc:24-56 | Decoding undoes encoding on the whole range of both widths |
| `Codec.VarintRoundTrip` | src/bytearray.cc:187-216 | A varint followed by anything is read back and uses exactly its bytes, within the scratch buffer's size |
| `Codec.VarintMeaning` | src/bytearray.cc:187-216 | A varint holds its number in groups of seven bits, low bits first, with the top bit set on all bytes but the last |
| `TypedIo.WriteFixed` | src/bytearray.cc:118-180 | The contents get the integer's bytes at the position |
| `TypedIo.VarintBytes` | src/bytearray.cc:187-216 | The writing loop produces the varint and never overruns its buffer |
| `TypedIo.WriteVarint` | src/bytearray.cc:187-216 | The contents get the varint at the position |
| `TypedIo.WriteStr` | src/bytearray.cc:232-248 | Fixed-width length, then the bytes |
| `TypedIo.WriteVarStr` | src/bytearray.cc:250-254 | Varint length, then the bytes |
| `TypedIo.WriteValue` | src/bytearray.cc:118-254 | Any typed write puts its value's encoding at the position |
| `TypedIo.ReadFixed` | src/bytearray.cc:261-357 | Fails exactly if too few bytes are left, otherwise the decoded integer |
| `TypedIo.ReadVarint` | src/bytearray.cc:364-405 | The byte-wise loop, which ors shifted groups into a number of fixed width, is the decoder truncated to that width, failures included |
| `TypedIo.OrDisjoint` | src/bytearray.cc:364-381 | Oring a group in above the bits so far is adding it |
| `TypedIo.ReadStr` | src/bytearray.cc:423-448 | The decoder of a string with fixed-width length, failures included |
| `TypedIo.ReadVarStr` | src/bytearray.cc:450-457 | The decoder of a string with varint length, failures included |
| `TypedIo.ReadValue` | src/bytearray.cc:261-457 | Any typed read decodes the bytes from the position on and moves past what it used |
| `TypedIo.RoundTrip` | src/bytearray.cc:118-457 | Decoding an encoding followed by anything gives the value and exactly its bytes, for every kind of value |
| `TypedIo.WriteAll` | src/bytearray.cc:118-254 | A list of typed writes puts the concatenated encodings at the position |
| `TypedIo.ReadAll` | src/bytearray.cc:261-457 | The same list of typed reads returns the values and uses exactly their bytes |
| `TypedIo.EveryArgumentFits` | src/bytearray.cc:118-254 | The values meant are all of the integer types, and all strings whose length the prefix can hold |
| `TypedIo.WriteThenRead` | src/bytearray.cc:118-457 | Any list of typed writes, back to the start, the same list of reads: the original values, for every base size and host |
| `Timers.FoundIffMember` | src/timer.cc:27-38 | Searching by the comparator agrees with membership, since members are sorted by the deadlines they have now |
| `Timers.TimerManager.Find` | src/timer.cc:84-88 | The search returns the place of a member, and fails exactly for others |
| `Timers.TimerManager.AddTimer` | src/timer.cc:48-58 | Inserted in order; a refresh is signalled exactly if it comes first |
| `Timers.TimerManager.IsValidTimer` | src/timer.cc:84-88 | Exactly membership |
| `Timers.TimerManager.ResetTimer` | src/timer.cc:90-109 | A changed interval makes the timer a member and leaves its deadline; a refresh is signalled exactly if it then comes first; order and history are kept |
| `Timers.TimerManager.CancelTimer` | src/timer.cc:111-128 | True exactly for a member; it leaves and loses its callback, and a refresh is signalled exactly if it was first |
| `Timers.TimerManager.CancelAllTimer` | src/timer.cc:130-139 | All members leave and lose their callbacks, in order; others are untouched; one refresh |
| `Timers.TimerManager.NextTimerLeftTime` | src/timer.cc:141-156 | -1 without timers, 0 exactly if some deadline has passed, otherwise the exact time to the earliest |
| `Timers.TimerManager.AllExpiredCbs` | src/timer.cc:158-188 | Exactly the timers with deadline <= now, in deadline order, once each; looping ones keep callback and interval and get the deadline interval + now, the others leave without callback |
| `Timers.RunGuarantees` | src/timer.cc:48-188 | Over every run of operations from the constructor: no callback is handed out before its timer's deadline by the clock reading compared with it, a one-shot's at most once and at the deadline it was given, none after a successful cancel |
| `Timers.RunRefreshes` | src/timer.cc:48-188 | Over every run with non-negative intervals: every operation that lowers the earliest deadline signals a refresh |
| `Timers.LoopingStays` | src/timer.cc:158-188 | Over every run: a looping timer added with a callback and not cancelled since is a member with that callback |
| `Timers.LoopingFires` | src/timer.cc:158-188 | Over every run: every expiry at or after its deadline hands that callback out |
| `Timers.OneShotFires` | src/timer.cc:158-188 | Over every run: a one-shot added with a callback and not cancelled since has been handed out for its deadline, or is a member with it and no expiry has reached it |
| `Timers.DeadlineStays` | src/timer.cc:48-109 | Over every run: a one-shot's deadline is the clock reading at its adding plus its interval, whatever is done to it |
| `Timers.HistoryStep` | src/timer.cc:90-188 | Every operation keeps what has been handed out and cancelled consistent with the timers |
| `Timers.UnsignalledIff` | src/timer.cc:48-188 | An operation lowers the earliest deadline without a refresh if and only if it is an expiry in which a looping timer goes back before it |
| `Timers.ExpiryLowers` | src/timer.cc:158-188 | Expiry lowers the earliest deadline if and only if an expired looping timer goes back before it |
| `Timers.NonNegativeNeverGoesBack` | src/timer.cc:158-188 | With non-negative intervals that never happens |
| `Timers.NegativeIntervalGoesBack` | src/timer.cc:158-188 | With a negative one it does: by a clock that stands still the earliest deadline moves from 5 to 2, unsignalled |
| `WsFrames.HeadRoundTrip` | src/servers/http/ws_session.h:22-45 | The packed header bits lose nothing in either direction, in the layout of either byte order |
| `WsFrames.XorTwice` | src/servers/http/ws_connection.cc:264-268 | Exclusive or with the same byte undoes itself |
| `WsFrames.MaskedTwice` | src/servers/http/ws_session.cc:162-168 | Unmasking undoes masking, for every payload and key |
| `WsFrames.MaskedBits` | src/servers/http/ws_connection.cc:259-268 | Masking flips bit n of byte i exactly if that bit of byte i % 4 of the key is set, for all bytes and bits |
| `WsFrames.KeptFits` | src/servers/http/ws_session.cc:126-176 | A stored fragment leaves less than the maximum, whatever 64-bit length it announced, wrap-around included |
| `WsFrames.MessageFits` | src/servers/http/ws_session.cc:97-191 | Every message returned, from any byte stream, is strictly shorter than the configured maximum |
| `WsFrames.WrappedLengthIsNegative` | src/streams/stream.cc:13-28 | A length that passes the size test by wrapping around is negative as the `int` result, hence a failure |
| `WsFrames.StoreStaysInside` | src/servers/http/ws_session.cc:156-170 | With a maximum up to 2^31 no fragment is stored outside the buffer |
| `WsFrames.NeverCorrupt` | src/servers/http/ws_session.cc:97-191 | The same for whole streams of any bytes |
| `WsFrames.CorruptReached` | src/servers/http/ws_session.cc:99-170 | With a larger maximum, two fragments of 2^30 bytes and the start of a third store before the buffer |
| `WsFrames.CorruptIff` | src/servers/http/ws_session.cc:97-191 | Some stream does so if and only if the maximum is over 2^31 |
| `WsFrames.LengthRoundTrip` | src/servers/http/ws_session.cc:126-144 | Extended lengths under 65536 are read back |
| `WsFrames.LongLengthMisread` | src/servers/http/ws_session.cc:224-229 | A 64-bit length, sent in one byte order and read in the other, comes back as at least 2^32 |
| `WsFrames.WireFormat` | src/servers/http/ws_session.cc:193-236 | The frame byte by byte: opcode and last-frame bit, mask bit and length, or 126 with two bytes in network order, or 127 with eight in the other, then key and payload |
| `WsFrames.UnmaskedRefused` | src/servers/http/ws_session.cc:121-125 | A server closes on an unmasked data frame |
| `WsFrames.ControlRound` | src/servers/http/ws_session.cc:107-118 | CLOSE ends the loop, PING is answered or ends it, all others are passed over |
| `WsFrames.FrameRoundTrip` | src/servers/http/ws_connection.cc:224-278 | A data frame is stored as it was sent, masked or not |
| `WsFrames.SingleFrameReceivedIff` | src/servers/http/ws_session.cc:193-236 | A finished frame within the limit is received, exactly, if it has 1 to 65535 bytes; otherwise the connection is closed |
| `WsFrames.LittleToBigCloses` | src/servers/http/ws_session.h:22-45 | To a big-endian machine every finished data frame of a little-endian one is a CLOSE |
| `WsFrames.BigToLittleNeverFinishes` | src/servers/http/ws_session.h:22-45 | To a little-endian machine no data frame of a big-endian one is finished |
| `WsFrames.ReceivedIffSameHost` | src/servers/http/ws_session.cc:104-187 | A finished frame that the receiver would accept is taken for what it is if and only if both have the same byte order |
| `WsFrames.Reassembles` | src/servers/http/ws_session.cc:97-191 | Fragments under 65536 bytes with interleaved pings and pongs: the concatenated payload, the first data opcode, every ping answered, nothing more consumed |
| `WsIo.Stream.ReadFixedSize` | src/streams/stream.cc:13-28 | For every 64-bit length and every split into short reads: the whole range filled and the length as `int`, or a failure with the input used up |
| `WsIo.Stream.WriteFixedSize` | src/streams/stream.cc:45-60 | For every split into short writes: all bytes in order, or a prefix and a failure |
| `WsIo.Unmask` | src/servers/http/ws_session.cc:162-168 | The loop masks exactly the stored range of the buffer |
| `WsIo.FrameMessage.MaskInPlace` | src/servers/http/ws_connection.cc:264-268 | The client's loop leaves the message masked |
| `WsIo.Stream.TakePayload` | src/servers/http/ws_session.cc:159-170 | Resize, read and unmask store what the receive function says, within the buffer |
| `WsIo.Stream.TakeFrame` | src/servers/http/ws_connection.cc:154-203 | A data frame after its header, on either side, with all its failures |
| `WsIo.Stream.RecvRound` | src/servers/http/ws_session.cc:104-187 | One turn of the loop is one round of the receive function |
| `WsIo.Stream.RecvMessage` | src/servers/http/ws_connection.cc:133-222 | For every pattern of short reads and writes: outcome, bytes consumed and pongs sent are those of the receive function |
| `WsIo.Stream.Ping` | src/servers/http/ws_session.cc:243-255 | Sends a ping frame; closes on a negative result only |
| `WsIo.Stream.Pong` | src/servers/http/ws_session.cc:257-269 | Sends a pong frame; closes on any failure |
| `WsIo.ControlBytes` | src/servers/http/ws_session.cc:243-269 | The two bytes sent are the frames that the receive function understands |
| `WsIo.Stream.SendMessage` | src/servers/http/ws_connection.cc:224-278 | The output gets the frame's bytes, or the part that fits; the result is the size plus two or -1 with the connection closed; the client's message is left masked |
| `WsIo.Deliver` | src/servers/http/ws_session.cc:97-236 | Frames of a message sent with these operations and received by the other side arrive as one message, for every short read and write, on machines of the same byte order |
| `ChunkedBody.ParsesLine` | src/servers/http/http_response_parser.rl:134-137 | On a buffer that begins a size line, the parser finds the whole line exactly if it is there, and otherwise takes everything for the start of one |
| `ChunkedBody.DigitTable` | src/servers/http/http_response_parser.rl:77-80 | The digits of both cases have their values |
| `ChunkedBody.OnlyDigits` | src/servers/http/http_response_parser.rl:134 | And no other byte is a digit |
| `ChunkedBody.HexTextValue` | src/servers/http/http_response_parser.rl:77-80 | Reading the hexadecimal text of a number gives the number |
| `ChunkedBody.LineRead` | src/servers/http/http_connection.cc:73-100 | Exactly what the inner loop makes of a size line, however it arrives: the value of the digits from the piece on that holds the line's end, using up the line; or failure if that piece begins with no digit |
| `ChunkedBody.SizeRightIff` | src/servers/http/http_parser.cc:218-227 | It reads the line's own size if and only if a digit comes with the line's end and the digits that came before are zeros |
| `ChunkedBody.ReceivedIff` | src/servers/http/http_connection.cc:68-126 | The loop reads the chunks' sizes and comes to its end if and only if every size line is so, a condition on the sizes of the arrivals; then the body is the concatenated payloads and exactly the chunks are used up, for every buffer size |
| `ChunkedBody.SentBodyReceived` | src/servers/http/http_connection.cc:68-126 | A body sent in any non-empty pieces, each with its size in hexadecimal, is received whole if every size line is understood |
| `ChunkedBody.WholeIsRight` | src/servers/http/http_connection.cc:73-100 | In particular if every size line is whole in the buffer when first parsed |
| `ChunkedBody.SplitLineLosesBody` | src/servers/http/http_connection.cc:68-126 | A run in which a size line in two pieces loses the whole body without a sign of failure |
| `ChunkedBody.SizeLine` | src/servers/http/http_connection.cc:73-100 | The inner loop on its buffer computes the function these results are about, failures included |
| `ChunkedBody.ReadRest` | src/servers/http/http_connection.cc:108-120 | Exactly the missing bytes, in pieces of at most the buffer's size |
| `ChunkedBody.TakeChunk` | src/servers/http/http_connection.cc:101-124 | From buffer or stream: the payload without its line end is appended, exactly the chunk is consumed |
| `ChunkedBody.RecvChunked` | src/servers/http/http_connection.cc:68-126 | The outer loop computes the function these results are about: success, body, and what is left in buffer and stream |
| `HttpPool.BooksBalance` | src/servers/http/http_connection.cc:338-392 | In every run of any threads: total = idle + leased + those between two steps of an operation; nothing idle twice or idle and leased; idle ones have served fewer than `max_request`, none ever more than max(1, `max_request`) |
| `HttpPool.NeverLeasedTwice` | src/servers/http/http_connection.cc:344-362 | In every run, no step leases a connection that is leased |
| `HttpPool.SearchTakesUsable` | src/servers/http/http_connection.cc:344-362 | In every run, a connection that a search leases is connected and not too old, each one it takes out of use is not connected or too old, and the others stay |
| `HttpPool.StepInv` | src/servers/http/http_connection.cc:521-536 | Every step of either operation keeps the books |
| `HttpPool.RunInv` | src/servers/http/http_connection.cc:338-392 | The books are right in every state of every run |
| `HttpPool.Pool.PopUsable` | src/servers/http/http_connection.cc:344-362 | The search pops exactly the prefix of those not connected or too old, and the first one that is neither |
| `HttpPool.Pool.TakeIdle` | src/servers/http/http_connection.cc:343-362 | Under the lock: one leasing step of the transition system |
| `HttpPool.Pool.DiscardAll` | src/servers/http/http_connection.cc:363-367 | The total goes down by the number of deleted connections |
| `HttpPool.Pool.ConnectNew` | src/servers/http/http_connection.cc:369-390 | A new connection is leased and counted |
| `HttpPool.Pool.CountRequest` | src/servers/http/http_connection.cc:523-526 | Counts the request and decides: dead exactly if disconnected, too old or used up |
| `HttpPool.Pool.PushBack` | src/servers/http/http_connection.cc:534-535 | Back to the end of the list |
| `HttpPool.Pool.GetConnection` | src/servers/http/http_connection.cc:338-392 | Undisturbed: the first idle connection that is connected and not too old, else a new one, else nothing; those before it are neither, gone and subtracted |
| `HttpPool.Pool.ReleasePtr` | src/servers/http/http_connection.cc:521-536 | Undisturbed: deleted and subtracted exactly if disconnected, too old or used up, else at the end of the list |
| `Base64.SymbolRoundTrip` | src/hash.cc:82-113 | The alphabet and the decoder's ranges are inverse to each other |
| `Base64.AlphabetTable` | src/hash.cc:147 | The alphabet, character by character |
| `Base64.EncodeMeaning` | src/hash.cc:145-186 | Four characters stand for the 24 bits of three bytes, six bits each, most significant first; the last group is filled with zeros and `=` |
| `Base64.RoundTrip` | src/hash.cc:63-186 | Decoding an encoding gives the bytes back, for all byte strings |
| `Base64.DecodesIff` | src/hash.cc:63-138 | Decoding succeeds if and only if the length is a multiple of four and all characters are of the alphabet but up to two `=` at the end; the length of the result |
| `Base64.NonEmptyIff` | src/hash.cc:63-138 | A non-empty result if and only if the text is non-empty and so shaped |
| `Base64.ReencodesIff` | src/hash.cc:63-186 | Encoding a decoded text gives it back if and only if the bits dropped before the padding are zero |
| `Base64.NotCanonical` | src/hash.cc:63-138 | "QR==" is accepted and comes back as "QQ==" |
| `Base64.Base64Encode` | src/hash.cc:145-186 | The nested loops compute the encoding |
| `Base64.Base64Decode` | src/hash.cc:63-138 | The nested loops compute the decoding, failures included, and never write past three quarters of the text's length |

## Left out

- `IOManager::del_event`: resets the context chosen by the remaining status and copies the mutex instead of locking it; nothing calls it.
- The mutex-free test of `cancel_event` and `cancel_all_event` before they lock: test and act are one step here, so the count invariant is stated at that granularity.
- A hangup waking every waiter: the dispatch loop keeps a single ready direction, and the model follows it.
- `errno` is taken to be preserved across the yield. In `ParkWake` an I/O timeout is a consumption of the registration by a running callback; its flag and its rounds are in `IoTimeouts`, for one call with a timeout and with no other call on the same direction of the descriptor.
- Coroutines that yield without a wake-up, rescheduling a coroutine that already has one, tasks with a null coroutine, and `stop` racing with `start`: outside the protocol of the hooked calls. `start` is one step.
- `Tickles.PromptIffNoGap`: while the stop flag is not set; the two readings of the idle count around a tickle are one.
- Context switching and stacks: a parked or runnable coroutine is a state. Liveness: that a thread on its way to a search gets there, or that the kernel reports a tickle, is not claimed.
- `Node.buf` of `ByteArrays` is a sequence that each `memcpy` replaces as a whole, not an array; in the source no two nodes share a buffer, so only the sharing of bytes with raw pointers held by a caller is not captured.
- `ByteArrays.ByteArray.ReadAt`: positions up to the size and before the end of storage; beyond it the source follows a null pointer.
- `ByteArrays.ByteArray.AddFreeCapacityTo`: the floating-point `ceil` is the integer ceiling, and sizes do not overflow 64 bits.
- `ByteArray` file input and output, hex dump and `to_string`, and `float` and `double`, which go through the unsigned integers.
- Conditional timers, which wrap a callback and drop the loop flag; the order of timers with equal deadlines is by an arbitrary number standing for the address.
- `WsFrames.HeadRoundTrip`: the bit-field layout is that of the usual compilers, low bit first on little-endian and high bit first on big-endian machines; the language leaves it open.
- WebSocket handshakes, and control frames of other implementations that carry a payload: the receive loop reads that payload as a header, and so does the model, but nothing is proved about it.
- `WsIo.Stream.SendMessage`: a string is shorter than 2^63 bytes; sending the same client message twice sends it masked twice, which follows from the contract but is not stated.
- `WsIo.Stream.TakePayload`: storing at a negative index or counting bytes that were never read ends the model with `Corrupt`; what the machine does then is not modelled.
- `Stream::write_fixed_size(ByteArray)`: it tests the requested length instead of the written one.
- `ChunkedBody.ReadRest`: a read that returns zero is taken for a failure; in the source this loop then repeats for ever.
- `ChunkedBody.ParsesLine`: size lines with extensions, and responses in the place of a size line, are the result `Other`, which ends the loop; sizes do not overflow an `int`.
- Reading response headers and bodies of known length, the Ragel grammars and decompression.
- `HttpPool.BooksBalance`: the total is not wrapped at 32 bits, creation time plus lifetime not at 64; the pool's `max_size` is not used by the source; memory of deleted connections is not modelled.
- `Base64.Base64Encode`: the reserve call, which only sets a capacity.
- Servlet lookup, URL decoding, IPv6 masks and the descriptor manager: small, and several of their loops or masks do not do what their names say.
- Sockets, TLS, DNS, zlib, digests, configuration, logging and files: calls into code outside the repository, or plumbing.
