# GodNet, modelled and verified

GodNet is a reactor network library: an event loop per thread, timers, a hierarchical
timing wheel, a lock-free task queue, byte buffers and TCP connections. This project
models its stateful core in Dafny and proves what the code promises, and, where the code
does less than it means to, exactly when it keeps the promise.

| file | what it models |
|---|---|
| `Radix.dfy`, `WheelModel.dfy`, `TimerWheel.dfy`, `WheelRuns.dfy` | the timing wheel: mixed-radix arithmetic, wheels as a flat calendar, the class, whole runs |
| `QueueProtocol.dfy`, `LockFreeQueue.dfy`, `SendOrder.dfy` | the multi-producer queue as interleaved atomic steps over an explicit heap; its calls as a class; order per thread |
| `EventLoop.dfy` | the loop's phases, `queueInLoop`, `stop` and the eventfd, interleaved with any number of threads |
| `TimerSpec.dfy`, `TimerRuns.dfy`, `TimerQueue.dfy`, `TimerCancel.dfy` | timers as a plain map of live timers with a log; what commands, rounds and runs make of a request; the heap and id set that refine it; when a cancellation is final |
| `Endian.dfy`, `MessageBuffer.dfy` | byte order on hosts of either order; the growable buffer over an array |
| `EventChannel.dfy`, `TcpConnection.dfy`, `TcpConnector.dfy` | channels and their registration, a connection's streams and closing, connection attempts and runs of them |
| `ConnectionRuns.dfy`, `SenderStreams.dfy` | whole lives of a connection; the blocks of many sending threads in one connection's stream |

`dafny verify dfyconfig.toml` checks the whole project.

## How the model is built

- The wheel, the queue's calls, the timer queue, the buffer, the poller, channels,
  connections and connectors are classes whose methods have the source's branches and loops
  and are proved against a value: the calendar of release ticks, the pending tasks, the map
  of live timers, the readable bytes, the bytes sent so far.
- Producers and the loop thread interleave, so queue and loop are also state machines of
  atomic steps. A step that touches memory that is not live, frees it twice or leaks a
  payload sets `fault`; the invariant says it never is set.
- Facts about runs quantify over all runs. `Drive` in `WheelRuns`, `TimerQueues`,
  `MessageBuffers` and `Connectors`, `Live` in `ConnectionRuns` and `Deliver` in
  `SenderStreams` tie runs of the classes to functions of the run.
- Time, the kernel and user code are parameters: the time of a round, which part of a write
  a socket has room for, what a read returns, which descriptor or address is handed out,
  what a callback does.

## What the code does that a reader may not expect

- With a single wheel, a delay of exactly `B` ticks is clamped and released one tick early
  (`WheelRuns.MaxTimeoutExactIff`, `WheelModel.ExactReleaseIff`).
- A task queued by a timer callback on the loop thread writes no wakeup, so poll may sleep
  on it. This is the only way that can happen (`EventLoopProtocol.SleepsOnTaskIff`,
  `EventLoopProtocol.TimerTaskSleeps`).
- A timer callback that stops the loop writes no wakeup either, so the loop polls once more
  before it stops. Again this is the only way (`EventLoopProtocol.SleepsOnStopIff`,
  `EventLoopProtocol.TimerStopSleeps`).
- Cancelling a timer whose addition by another thread is still queued does nothing, and the
  timer can fire later; otherwise a cancellation is final (`TimerCancel.CancelFinalIff`).
- `MessageBuffer::reallocate` compares the readable size with itself; called from `write`
  it never compacts, growth is always by a fresh block (`MessageBuffers.MessageBuffer.Write`).
- `forceCloseInLoop` clears the status before `handleClose` asserts on it: it closes an
  open connection exactly in builds without assertions (`ForceCloseInLoop`).
- A hang-up without EPOLLIN but with EPOLLPRI or EPOLLRDHUP closes twice when the read
  fails (`HandleEvent`); `disableAll` on a channel that is not registered puts it into the
  poller with an empty mask (`EventChannel.DisableAll`).
- A connection attempt whose failure is reported with EPOLLHUP is never retried, because
  only writability without a hang-up is dispatched (`Connectors.TcpConnector.HandleEvent`).
- `connect` called by a user while a retry is pending forgets the timer without cancelling
  it (`Connectors.TcpConnector.Connect`).

## Model

| member | source | states |
|---|---|---|
| WheelModel.Landing | include/godnet/net/timer_wheel.cpp:102-103 | the position a destroyed wrapper inserts at is always one of the B buckets |
| WheelModel.DueAfterShift | include/godnet/net/timer_wheel.cpp:43-51 | whatever a wheel above 0 drops at a shift is released strictly after that tick, so shifting low wheels first misses nothing |
| WheelModel.NothingOverdue | include/godnet/net/timer_wheel.cpp:39-52 | between ticks no stored entry is already due, and only the front bucket of wheel 0 holds entries due next |
| WheelModel.FirstShift | include/godnet/net/timer_wheel.cpp:43-49 | the front bucket of wheel 0 is exactly the calendar's entries for the next tick |
| WheelModel.AlignStep | include/godnet/net/timer_wheel.cpp:43-51 | within a tick the wheel below a shifting wheel has just completed a whole turn |
| WheelModel.CascadePairs | include/godnet/net/timer_wheel.cpp:99-104 | a bucket of wrappers and what their destruction puts one wheel down stand for the same calendar entries |
| WheelModel.CascadeIds | include/godnet/net/timer_wheel.hpp:43-56 | destroying a bucket of a coarse wheel keeps every entry it held |
| WheelModel.LevelIndexStep | include/godnet/net/timer_wheel.cpp:112-114 | one turn of the insertion loop is one step of the closed form of the index at wheel i |
| WheelModel.LevelIndexFits | include/godnet/net/timer_wheel.cpp:88-95 | once an index fits a wheel it fits every wheel above it |
| WheelModel.WrapKeepsDue | include/godnet/net/timer_wheel.cpp:97-114 | wrapping an entry for the next wheel keeps the tick it is due at, and the next index is positive |
| WheelModel.InsertionEnds | include/godnet/net/timer_wheel.cpp:88-115 | wherever the insertion loop stops, its bucket is dropped at the release tick |
| WheelModel.ClampedDue | include/godnet/net/timer_wheel.cpp:106-110 | an index too large for the last wheel brings the release forward by exactly (index - B) * B^(w-1) ticks |
| WheelModel.ExactReleaseIff | include/godnet/net/timer_wheel.cpp:81-116 | released exactly at T + D if and only if T % B^(w-1) + D is below B^w + B^(w-1) + 1 + B + ... + B^(w-2) |
| WheelModel.AlwaysExactIff | include/godnet/net/timer_wheel.cpp:81-116 | a distance is exact at every insertion tick if and only if it is at most B^w + 1 + B + ... + B^(w-2) |
| WheelModel.ReleaseTickBounds | include/godnet/net/timer_wheel.cpp:97-114 | never late, never in the past; an overlong delay still waits more than (B-1) * B^(w-1) ticks |
| WheelModel.DistanceMeans | include/godnet/net/timer_wheel.cpp:85 | a delay has run out at the d-th tick from now and not a whole tick length before; a negative one waits for the next tick |
| WheelModel.ReleaseIsRight | include/godnet/net/timer_wheel.cpp:81-116 | the release is never later than the tick by which the delay has just run out, and not before it has run out if and only if the last wheel has room at the insertion tick |
| TimingWheel.TimerWheel.constructor | include/godnet/net/timer_wheel.cpp:10-37 | picks the least number of wheels, at least one, whose span covers the longest timeout; empty calendar |
| TimingWheel.TimerWheel.OnTick | include/godnet/net/timer_wheel.cpp:39-52 | lets go exactly the calendar's entries for the new tick and keeps all others, for any number of wheels |
| TimingWheel.TimerWheel.ShiftWheel | include/godnet/net/timer_wheel.cpp:45-49 | popping a front bucket above wheel 0 leaves the calendar unchanged; on wheel 0 it lets go that bucket's entries |
| TimingWheel.TimerWheel.DestroyBucket | include/godnet/net/timer_wheel.hpp:43-56 | destroying a bucket drops user entries or puts every wrapped content into its computed bucket one wheel down |
| TimingWheel.TimerWheel.InsertEntryInLoop | include/godnet/net/timer_wheel.cpp:81-116 | adds exactly one calendar entry, at a tick that is right for the delay: never late, and not early if and only if the last wheel has room |
| TimingWheel.TimerWheel.PlaceItem | include/godnet/net/timer_wheel.cpp:91-95 | one item in one bucket is one calendar entry, at the due tick of the bucket's next drop |
| TimingWheel.TimerWheel.Clear | include/godnet/net/timer_wheel.cpp:55-64 | top-down teardown lets go every pending entry and leaves every wheel empty |
| TimingWheel.TimerWheel.ClearOne | include/godnet/net/timer_wheel.cpp:60-63 | clearing one wheel cascades only into wheels that still have all B buckets and loses no entry |
| WheelRuns.CalendarIsTheFuture | include/godnet/net/timer_wheel.cpp:39-52 | after any run the calendar holds exactly the scheduled releases still ahead |
| WheelRuns.ReleasedExactlyWhenDue | include/godnet/net/timer_wheel.cpp:81-116 | in any interleaving of inserts and ticks, tick n lets go exactly the entries with an insertion due at n |
| WheelRuns.HeldUntilLatestDue | include/godnet/net/timer_wheel.cpp:88-115 | an entry inserted several times is held if and only if one of its due ticks is still ahead |
| WheelRuns.MaxTimeoutExactIff | include/godnet/net/timer_wheel.cpp:23-31 | with the constructor's wheel count every delay up to the longest timeout is exact, except B ticks or more on a single wheel |
| WheelRuns.TimeoutKeptIff | include/godnet/net/timer_wheel.cpp:81-116 | over every run, in terms of the delay asked for: an insertion is let go within the tick in which its delay runs out, or before that exactly if the last wheel has no room |
| WheelRuns.Drive | include/godnet/net/timer_wheel.cpp:39-116 | the wheels release and hold, over every run, exactly what the flat calendar does |
| QueueProtocol.StepKeepsInv | include/godnet/util/lock_free_queue.hpp:30-57 | the invariant over gaps, ownership and order is kept by every atomic step of every thread |
| QueueProtocol.RunKeepsInv | include/godnet/util/lock_free_queue.hpp:15-64 | the invariant holds at every moment of every interleaving from the constructor on |
| QueueProtocol.LinkKeepsPlaces | include/godnet/util/lock_free_queue.hpp:33-34 | a producer's store hits a live predecessor and turns exactly its own missing link into a link |
| QueueProtocol.DequeuedIsPrefix | include/godnet/util/lock_free_queue.hpp:44-57 | dequeued values are always a prefix of the exchange order, and no step ever faults |
| QueueProtocol.StalledIff | include/godnet/util/lock_free_queue.hpp:33-34 | a producer is paused behind the dummy exactly when the oldest pending node's link is missing |
| QueueProtocol.LoadFailsIff | include/godnet/util/lock_free_queue.hpp:46-51 | dequeue and empty see nothing if and only if nothing is pending or the oldest node is not linked; else they see the oldest |
| QueueProtocol.QuiescentHeap | include/godnet/util/lock_free_queue.hpp:67-83 | with nobody inside an operation the live nodes are exactly the dummy and the pending ones |
| QueueProtocol.EnqueuedIs | include/godnet/util/lock_free_queue.hpp:30-42 | an undisturbed enqueue appends one task and links one node |
| QueueProtocol.DequeuedIs | include/godnet/util/lock_free_queue.hpp:44-57 | an undisturbed dequeue takes the oldest task, deletes its payload once and frees the old dummy |
| LockFreeQueues.LockFreeQueue.constructor | include/godnet/util/lock_free_queue.hpp:15-18 | one dummy node, nothing pending |
| LockFreeQueues.LockFreeQueue.Enqueue | include/godnet/util/lock_free_queue.hpp:30-42 | appends to the pending tasks, with other producers paused anywhere |
| LockFreeQueues.LockFreeQueue.Empty | include/godnet/util/lock_free_queue.hpp:59-64 | true if and only if nothing is pending or the oldest producer is paused before its link |
| LockFreeQueues.LockFreeQueue.Dequeue | include/godnet/util/lock_free_queue.hpp:44-57 | fails exactly in that case and then changes nothing; else takes the oldest task and frees one node |
| LockFreeQueues.LockFreeQueue.Destroy | include/godnet/util/lock_free_queue.hpp:20-28 | drains the pending tasks in order and leaves no node behind |
| SendOrder.AlwaysInCallOrder | include/godnet/util/lock_free_queue.hpp:30-42 | at every moment a thread's exchanged tasks plus its call in flight are its calls so far, in order |
| SendOrder.RunsInCallOrder | include/godnet/net/tcp_connection.cpp:119-132 | what has run of a thread's queued blocks is a prefix of its calls: none skipped, repeated or overtaken |
| EventLoopProtocol.StepKeepsInv | include/godnet/net/event_loop.cpp:63-121 | the wakeup invariant is kept by every step of the loop and of every other thread |
| EventLoopProtocol.RunKeepsInv | include/godnet/net/event_loop.cpp:63-121 | it holds at every moment of every interleaving |
| EventLoopProtocol.NoLostWakeup | include/godnet/net/event_loop.cpp:114-121 | from finding the queue empty to the return of poll, a task the loop could dequeue has a wakeup posted or about to be posted, unless a timer callback queued in this round |
| EventLoopProtocol.NoStrandedTask | include/godnet/net/event_loop.cpp:81-88 | the same for tasks behind a gap in the chain: the gap's producer is still to write its wakeup |
| EventLoopProtocol.SleepsOnTaskIff | include/godnet/net/event_loop.cpp:72-75 | with an idle eventfd and nobody inside queueInLoop, the loop sleeps on a task if and only if a timer callback queued one |
| EventLoopProtocol.TimerTaskSleeps | include/godnet/net/event_loop.cpp:117-120 | a concrete run in which it does |
| EventLoopProtocol.SleepsOnStopIff | include/godnet/net/event_loop.cpp:92-100 | with an idle eventfd and nobody about to write it, a polling loop has been told to stop if and only if a timer callback of this round did so |
| EventLoopProtocol.TimerStopSleeps | include/godnet/net/event_loop.cpp:96-99 | a concrete run in which it polls although it was stopped |
| EventLoopProtocol.EventfdCounts | include/godnet/net/event_loop.cpp:39-42 | over every run the eventfd is the number of wakeups written since it was last read, and the loop is to run exactly if it was started after the last stop, both counted from the events alone |
| EventLoopProtocol.LoopEndsIff | include/godnet/net/event_loop.cpp:63-100 | the loop goes round again if and only if it was not told to stop since its start |
| EventLoopProtocol.FlagsMean | include/godnet/net/event_loop.cpp:72-75 | the two history flags say exactly that a timer callback queued a task, or stopped the loop, since the queue was last found empty |
| EventLoopProtocol.WokenAndBack | include/godnet/net/event_loop.cpp:70-89 | a concrete run in which the loop is woken, reads the wakeup, runs what was queued and polls again with the eventfd at 0 |
| EventLoopProtocol.TasksRunInOrder | include/godnet/net/event_loop.cpp:81-88 | tasks run once each, in exchange order, at every moment of every run |
| TimerSpec.FiresIff | include/godnet/net/timer_queue.cpp:79-88 | a due live timer fires in a round if and only if no timer fired before it in that round cancels it |
| TimerSpec.RoundFiresInOrder | include/godnet/net/timer_queue.cpp:75-89 | a round fires the firing due timers in (expiration, id) order, each once, whatever callbacks add or cancel |
| TimerSpec.DueOrderUnique | include/godnet/net/timer.hpp:73-80 | any two lists of the due timers in (expiration, id) order are equal |
| TimerSpec.RunKeepsHistory | include/godnet/net/timer_queue.cpp:75-149 | over every run ids are drawn once and the log agrees with the live timers |
| TimerRuns.NeverEarly | include/godnet/net/timer_queue.cpp:17-35 | over every run no timer fires before the time it was requested for, and its first firing has exactly that expiration |
| TimerRuns.FiringsSpaced | include/godnet/net/timer.hpp:54-57 | two firings of a timer are at least its requested interval apart, a one-shot fires at most once, a cancelled id never again |
| TimerRuns.RunIsAsRequested | include/godnet/net/timer_queue.cpp:17-35 | the n-th request of a run draws id n, and whatever is live, queued or logged under it has the interval asked for and, until it first fires, the expiration asked for |
| TimerRuns.RoundOutcome | include/godnet/net/timer_queue.cpp:75-133 | after a round a live timer is live if and only if no callback cancelled it and it was not a due one-shot; a due repeating one is due an interval after the round's time |
| TimerRuns.RoundRevivesNothing | include/godnet/net/timer_queue.cpp:112-133 | a round makes no timer live that was not |
| TimerRuns.CommandOutcome | include/godnet/net/timer_queue.cpp:17-49 | what each call of a callback leaves: a timer live as asked for unless a later call cancels it, or a task in the loop's queue |
| TimerCancel.CancelFinalIff | include/godnet/net/timer_queue.cpp:37-49 | after a cancellation the id can fire in some continuation of the run if and only if its addition by another thread is still queued |
| TimerCancel.StaysSilent | include/godnet/net/timer_queue.cpp:75-149 | no operation makes an id fire that is neither live nor queued |
| TimerCancel.DueOrderExists | include/godnet/net/timer.hpp:73-80 | at every time the due timers have an (expiration, id) order |
| TimerQueues.EmplaceSorted | include/godnet/net/timer.hpp:73-80 | the priority queue stays in (expiration, id) order |
| TimerQueues.HeapPops | include/godnet/net/timer_queue.cpp:95-109 | popping from the top moves the earliest entries out and keeps one entry an id |
| TimerQueues.FireNext | include/godnet/net/timer_queue.cpp:81-87 | skipping stale popped entries, the firing loop is the loop over the due live timers |
| TimerQueues.ResetNext | include/godnet/net/timer_queue.cpp:118-132 | skipping stale popped entries, the reset loop is the loop over the due live timers |
| TimerQueues.TimerQueue.GenerateTimerId | include/godnet/net/timer.cpp:8-12 | an id never drawn before, never zero |
| TimerQueues.TimerQueue.AddTimerInLoop | include/godnet/net/timer_queue.cpp:135-141 | adds one live timer |
| TimerQueues.TimerQueue.DelTimerInLoop | include/godnet/net/timer_queue.cpp:143-149 | removes one live timer, leaving its heap entry stale; reports whether it was live |
| TimerQueues.TimerQueue.AddTimer | include/godnet/net/timer_queue.cpp:17-35 | on the loop thread the timer asked for is live, else its addition is queued and nothing else changes; the id is drawn at the call |
| TimerQueues.TimerQueue.DelTimer | include/godnet/net/timer_queue.cpp:37-49 | on the loop thread the id is no longer live, else the cancellation is queued and nothing else changes |
| TimerQueues.TimerQueue.RunTask | include/godnet/net/timer_queue.cpp:28-48 | a queued addition makes its timer live, a queued cancellation ends it |
| TimerQueues.TimerQueue.GetExpiredTimers | include/godnet/net/timer_queue.cpp:91-110 | takes out exactly the entries due, live timers unchanged |
| TimerQueues.TimerQueue.HandlerTimer | include/godnet/net/timer_queue.cpp:75-89 | is the round of the specification over the due live timers |
| TimerQueues.TimerQueue.FireTurn | include/godnet/net/timer_queue.cpp:81-87 | runs one callback, unless the id was cancelled meanwhile |
| TimerQueues.TimerQueue.ResetExpiredTimers | include/godnet/net/timer_queue.cpp:112-133 | reschedules the repeating fired timers that are still live, drops the one-shots and the stale entries |
| TimerQueues.TimerQueue.ResetOneTimer | include/godnet/net/timer_queue.cpp:118-132 | a live repeating timer is due an interval after now, a live one-shot is gone, a stale entry changes nothing |
| TimerQueues.TimerQueue.GetNextTimeout | include/godnet/net/timer_queue.cpp:51-73 | -1 only without live timers, else never past a live expiration nor before every entry's, despite stale entries and the clamp |
| TimerQueues.Drive | include/godnet/net/timer_queue.cpp:17-149 | any sequence of calls on the queue is a legal run of the specification and ends in its state |
| Endian.Swap64Reverses | include/godnet/util/endian.hpp:43-44 | the two-halves form reverses all eight bytes and undoes itself |
| Endian.WireFormat | include/godnet/util/endian.hpp:28-49 | on either host the converted object lies in memory in network order |
| Endian.MostSignificantFirst | include/godnet/util/endian.hpp:28-49 | the most significant byte comes first |
| Endian.Read64 | include/godnet/util/endian.hpp:63-71 | on either host the converted value is the one whose network encoding was read |
| Endian.Injective64 | include/godnet/util/endian.hpp:28-72 | different values have different encodings |
| MessageBuffers.GrowthIsPaid | include/godnet/net/message_buffer.cpp:166-181 | one growth costs no more than the credit saved up plus two units a byte written |
| MessageBuffers.Drive | include/godnet/net/message_buffer.cpp:99-190 | over every run of writes, scatter reads and reads, what was taken out followed by the contents is all that was appended, in order; growth copies at most twice the bytes added, and capacity stays within the larger of the first one and twice the peak |
| MessageBuffers.Do | include/godnet/net/message_buffer.cpp:99-158 | one operation takes the asked number of bytes, or all there are, off the front and appends at the back |
| MessageBuffers.MessageBuffer.constructor | include/godnet/net/message_buffer.cpp:11-17 | an empty buffer of the given capacity |
| MessageBuffers.MessageBuffer.Reallocate | include/godnet/net/message_buffer.cpp:166-190 | keeps the readable bytes; for any positive length takes a fresh block of twice the new size |
| MessageBuffers.MessageBuffer.Write | include/godnet/net/message_buffer.cpp:99-107 | appends in order; replaces the block if and only if the room is too small, and then pays for it |
| MessageBuffers.MessageBuffer.Retrieve | include/godnet/net/message_buffer.cpp:134-145 | drops the oldest bytes; an emptied buffer starts over at the front |
| MessageBuffers.MessageBuffer.RetrieveAll | include/godnet/net/message_buffer.cpp:154-158 | drops every readable byte and gives the whole block back as room |
| MessageBuffers.MessageBuffer.RetrieveUntil | include/godnet/net/message_buffer.cpp:147-152 | drops the readable bytes before a position |
| MessageBuffers.MessageBuffer.Read | include/godnet/net/message_buffer.cpp:114-120 | returns and drops the oldest bytes |
| MessageBuffers.MessageBuffer.ReadUntil | include/godnet/net/message_buffer.cpp:122-127 | returns the readable bytes before a position and keeps the rest |
| MessageBuffers.MessageBuffer.ReadAll | include/godnet/net/message_buffer.cpp:129-132 | returns all readable bytes in order |
| MessageBuffers.MessageBuffer.AdvanceWrite | include/godnet/net/message_buffer.cpp:160-164 | makes readable exactly the next bytes of the block |
| MessageBuffers.MessageBuffer.PeekInt16 | include/godnet/net/message_buffer.cpp:30-34 | the value whose network encoding is the first two bytes |
| MessageBuffers.MessageBuffer.PeekInt32 | include/godnet/net/message_buffer.cpp:36-40 | the value whose network encoding is the first four bytes |
| MessageBuffers.MessageBuffer.PeekInt64 | include/godnet/net/message_buffer.cpp:42-46 | the value whose network encoding is the first eight bytes |
| MessageBuffers.MessageBuffer.ReadInt32 | include/godnet/net/message_buffer.cpp:62-67 | takes exactly that encoding off the front |
| MessageBuffers.MessageBuffer.ReadInt64 | include/godnet/net/message_buffer.cpp:69-74 | takes exactly that encoding off the front |
| MessageBuffers.MessageBuffer.WriteInt16 | include/godnet/net/message_buffer.cpp:81-85 | appends the network encoding and accounts for it |
| MessageBuffers.MessageBuffer.WriteInt32 | include/godnet/net/message_buffer.cpp:87-91 | appends the network encoding and accounts for it |
| MessageBuffers.MessageBuffer.WriteInt64 | include/godnet/net/message_buffer.cpp:93-97 | appends the network encoding and accounts for it |
| MessageBuffers.CarryInt16 | include/godnet/net/message_buffer.cpp:55-85 | a 16-bit value written on one host and carried over as bytes is read back on any other as itself, between whatever surrounds it |
| MessageBuffers.CarryInt32 | include/godnet/net/message_buffer.cpp:62-91 | the same for 32 bits |
| MessageBuffers.CarryInt64 | include/godnet/net/message_buffer.cpp:69-97 | the same for 64 bits |
| Channels.EventPoller.UpdateChannel | include/godnet/net/event_poller.cpp:79-104 | registered set, kernel interest and masks agree afterwards, unless and only unless an unregistered channel is handed in with an empty mask |
| Channels.EventChannel.constructor | include/godnet/net/event_channel.cpp:20-25 | an unregistered channel that watches nothing |
| Channels.EventChannel.Destroy | include/godnet/net/event_channel.cpp:27-31 | a channel that watches nothing can go, everything still agrees |
| Channels.EventChannel.EnableReading | include/godnet/net/event_channel.hpp:83-87 | reading interest on, writing interest kept, registration in agreement |
| Channels.EventChannel.EnableWriting | include/godnet/net/event_channel.hpp:89-93 | writing interest on, reading interest kept, registration in agreement |
| Channels.EventChannel.DisableReading | include/godnet/net/event_channel.hpp:95-99 | reading interest off, writing interest kept; agreement if and only if the channel was registered |
| Channels.EventChannel.DisableWriting | include/godnet/net/event_channel.hpp:101-105 | writing interest off, reading interest kept; agreement if and only if the channel was registered |
| Channels.EventChannel.DisableAll | include/godnet/net/event_channel.hpp:107-111 | no interest left; agreement if and only if the channel was registered |
| Connections.SplitBlock | include/godnet/net/tcp_connection.cpp:187-195 | a block of which the socket took a prefix is neither lost nor reordered |
| Connections.TcpConnection.constructor | include/godnet/net/tcp_connection.cpp:11-37 | a disconnected, unregistered connection with empty streams and no shutdown |
| ConnectionRuns.Live | include/godnet/net/tcp_connection.cpp:58-279 | a life from construction over any sequence of calls and events goes through if and only if every step that finds it open passes; then one up, and one down and one close exactly if a step closed, registered exactly while open, all bytes sent until the close kept in order, half-closed exactly if asked to |
| ConnectionRuns.Take | include/godnet/net/event_channel.cpp:57-96 | what one call or event does to the status, the counts and the bytes sent, and exactly when it leaves the connection intact |
| Connections.TcpConnection.InitInLoop | include/godnet/net/tcp_connection.cpp:58-68 | connected and registered for reading, one more up callback; all invariants hold if and only if nothing waits and the socket was not shut down, as for a fresh connection |
| Connections.TcpConnection.ShutdownInLoop | include/godnet/net/tcp_connection.cpp:84-94 | shuts the write side down at once exactly if connected with nothing waiting, else leaves it to HandleWrite |
| Connections.TcpConnection.SendInLoop | include/godnet/net/tcp_connection.cpp:180-201 | accepted bytes followed by waiting bytes stay the concatenation of all blocks sent; writes directly only if nothing waits |
| Connections.TcpConnection.QueueRest | include/godnet/net/tcp_connection.cpp:193-200 | the rest of a block waits behind what waited, writing interest on, registration in agreement |
| Connections.TcpConnection.HandleWrite | include/godnet/net/tcp_connection.cpp:241-266 | moves exactly what the socket takes; at the last byte interest goes off and a requested half-close is done |
| Connections.TcpConnection.Drained | include/godnet/net/tcp_connection.cpp:252-259 | writing interest off and reading kept; shuts down only when disconnecting |
| Connections.TcpConnection.Stream | include/godnet/net/tcp_connection.cpp:84-266 | over any run of sends, half-close and writable events with arbitrary partial or failed writes, no byte is lost, repeated or reordered; the write side is shut down at most once, after it was asked for and with everything sent by then accepted, and once no byte waits |
| Connections.TcpConnection.StreamOne | include/godnet/net/tcp_connection.cpp:84-266 | after a shutdown nothing more is accepted; the step that shuts down finds everything sent accepted |
| SenderStreams.Deliver | include/godnet/net/tcp_connection.cpp:119-201 | whatever the interleaving of sending threads, of the loop thread's own sends and of partial writes, each thread's blocks lie in the stream whole and in the order of its calls |
| SenderStreams.FindBlock | include/godnet/net/tcp_connection.cpp:127-130 | the block of a thread's k-th call lies whole behind the blocks before it, k of which are the thread's own |
| MessageBuffers.MessageBuffer.Scatter | include/godnet/net/tcp_connection.cpp:210-227 | the two-part scatter read appends exactly the received bytes, in order |
| Connections.TcpConnection.Receive | include/godnet/net/tcp_connection.cpp:207-227 | receiving into the read buffer keeps every invariant of the connection |
| Connections.TcpConnection.HandleRead | include/godnet/net/tcp_connection.cpp:203-239 | received bytes reach the user's buffer, end of stream and errors close; when the assertion lets a close through; open afterwards exactly if nothing closed; what the callback sent |
| Connections.TcpConnection.HandleClose | include/godnet/net/tcp_connection.cpp:268-279 | closes once with one down and one close callback, unregistered; goes through if and only if open or built without assertions |
| Connections.TcpConnection.ForceCloseInLoop | include/godnet/net/tcp_connection.cpp:110-117 | on an open connection it passes the assertion if and only if there are none |
| Connections.TcpConnection.CloseAndRead | include/godnet/net/event_channel.cpp:67-87 | hang-up, then input: how often it closes, what is received, sent and asked for, and what stays untouched |
| Connections.TcpConnection.HandleEvent | include/godnet/net/event_channel.cpp:57-96 | by the flags of the event: how often it closes, and all invariants if and only if at most once; input is received whole; writability, after the input and not after a close, moves what the socket takes and does a due half-close |
| Connectors.BackoffDoubles | include/godnet/net/tcp_connector.cpp:98-102 | doubling and capping the current delay gives min(retryDelay * 2^(k+1), maxDelay) |
| Connectors.TcpConnector.constructor | include/godnet/net/tcp_connector.cpp:12-25 | disconnected, nothing pending, first delay ready |
| Connectors.TcpConnector.Connect | include/godnet/net/tcp_connector.cpp:45-73 | connecting with a channel that owns a new socket, or that socket closed and a retry with the current delay pending; all invariants hold if and only if no retry was pending |
| Connectors.TcpConnector.Watch | include/godnet/net/tcp_connector.cpp:60-67 | the attempt's channel owns the new socket and watches for writability only |
| Connectors.TcpConnector.Retry | include/godnet/net/tcp_connector.cpp:86-103 | the socket is closed once, a timer with the k-th delay is pending, the next delay is the (k+1)-th |
| Connectors.TcpConnector.Fire | include/godnet/net/tcp_connector.cpp:94-96 | the retry timer finds a disconnected connector without a channel; one more socket, and its channel or exactly one new pending retry with the next delay |
| Connectors.TcpConnector.Reconnect | include/godnet/net/tcp_connector.cpp:75-84 | one more socket, and its channel or exactly one pending retry with the first delay |
| Connectors.TcpConnector.ResetChannel | include/godnet/net/tcp_connector.cpp:105-116 | the channel leaves the poller, everything else in agreement, and its socket is given back |
| Connectors.TcpConnector.HandleWrite | include/godnet/net/tcp_connector.cpp:118-136 | the newest socket is handed over once, or closed once with a retry pending; the channel leaves the poller |
| Connectors.TcpConnector.HandleEvent | include/godnet/net/event_channel.cpp:57-96 | an event ends the attempt if and only if it is writability without a hang-up |
| Connectors.TcpConnector.Destroy | include/godnet/net/tcp_connector.cpp:27-43 | nothing pending is left, and every socket ever opened was closed or handed over once |
| Connectors.Attempt | include/godnet/net/tcp_connector.cpp:45-136 | one attempt, due as the first, a retry or a reconnect, leaves one socket closed or handed over and schedules the retry with the delay for that many consecutive failures |
| Connectors.Drive | include/godnet/net/tcp_connector.cpp:45-136 | over any run of refused, failed and successful attempts the k-th consecutive retry waits min(retryDelay * 2^k, maxDelay) and every socket was closed once or handed over once |

## Left out

- Machine width: tick counts, powers of B, sizes, times and timer ids are unbounded; wrap-around is not modelled. Byte values are bit-vectors; an event mask is the set of its flags.
- Weak memory: every atomic operation of the queue and the loop is one sequentially consistent step.
- System calls: sockets, epoll, eventfd and time are parameters or small models of their effect; EINTR and errno mapping, socket options, wepoll and poll array growth are not modelled. Each poll result is arbitrary except that the wakeup channel is ready only if the eventfd was written.
- TimingWheel.TimerWheel.InsertEntryInLoop: needs delay > -ticksInterval, because for smaller delays the code's index is 0 or wraps and is used as a bucket position.
- TimingWheel.TimerWheel.DestroyBucket: a bucket is a set of values; two wrappers with equal captures and equal content are one, so how often an entry is referenced is not counted. A bucket is taken out before its content is destroyed, and entry destructors written by users that insert entries themselves are not modelled.
- LockFreeQueues.LockFreeQueue.Enqueue: the class runs one call to its end while other producers are paused; arbitrary interleavings are the state machine's subject.
- EventLoopProtocol.StepKeepsInv: the loop is a state machine on values, since other threads interleave with it; which callback runs and the channel list are left out, callbacks only queue tasks and call stop.
- TimerQueues.TimerQueue.HandlerTimer: std::priority_queue is a sorted sequence by its contract, and a Timer is a value, so rescheduling puts a changed value back instead of changing a shared object. A callback is the list of calls it makes.
- TimerQueues.TimerQueue.DelTimerInLoop: cancelling an id that is not live reports it and changes nothing, as in builds without assertions.
- MessageBuffers.MessageBuffer.FillWritable: stands for the kernel or a user filling the memory behind mutWritePeek().
- Endian.WireFormat: the 64-bit conversion is htobe64; the two-halves form is the little-endian one, as on Windows. Unaligned access is not an issue here.
- Connections.TcpConnection.SendInLoop: requires an open connection, which the code does not check; sends after a close are left out.
- Connections.TcpConnection.Callback: user callbacks send while the connection is open, half-close or force a close; callbacks that take bytes out of the read buffer are calls on MessageBuffer. Events of a connection closed earlier in the same poll batch, and channels destroyed inside a batch, are left out.
- ConnectionRuns.Live: what happens after a step that trips an assertion or closes twice is not followed. A closed connection gets no events and sends nothing.
- Connectors.TcpConnector.Connect: a descriptor is an integer not used by any known channel; failing to open a socket is left out. ResetChannel destroys the channel at once; the code keeps it alive until the event being handled is over.
- TcpServer, TcpAcceptor, TcpClient, EventLoopThread and the thread pool: thin glue over what is modelled.
- InetAddress, Logger, Socket, UdpSocket and system wrappers: library calls and text.
