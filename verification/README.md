# M-Server reactor: a verified model

M-Server is a reactor library in C++: an event loop over `poll(2)`, timers on one timerfd, a
byte buffer, TCP connections, a connector and a server. This project models its stateful core in
Dafny and proves what that core is for. `dafny verify dfyconfig.toml` verifies everything.

| file | what it models |
|---|---|
| `ByteBuffer.dfy` | the sliding-window buffer: as written, and repaired as a FIFO queue |
| `PollHandles.dfy`, `Spoller.dfy` | interest masks, dispatch order, the dense pollfd array and its index |
| `EventLoop.dfy`, `LoopThread.dfy` | functor hand-off between threads and wake-up through the eventfd; the loop object |
| `Clock.dfy`, `Multimap.dfy`, `TimerQueue.dfy`, `TimerRuns.dfy` | arming the timerfd, the ordered multimap, the timer queue object, its whole runs |
| `ConnectionOutput.dfy`, `TcpConnection.dfy` | partial writes, write interest, graceful shutdown; the connection object |
| `Connecting.dfy`, `Connector.dfy` | one connection attempt at a time with backoff; the connector object |
| `ServerRuns.dfy`, `TcpServer.dfy` | connection lifecycle in a single-loop server; the connection map and its names |
| `LoopThreadPool.dfy` | round robin over the I/O loops |

Code that changes state is a class whose methods are proved against a specification; protocols
and whole runs are state machines (`Enabled`, `Apply`, `Legal`, `Exec`) with an invariant kept by
every step. Other threads, the kernel and user callbacks are nondeterministic: what they do is an
argument of a step, under the contract stated there (`WriteResult` for `write`, `PollContract` for
`poll`, `Accepted` for `timerfd_settime`).

## Where the code misses its own intent

In these places a property its callers rely on is false of the code. Each has a model of the code
as it is written, a lemma with a concrete input or run on which it fails, and a lemma saying for
exactly which inputs the code does meet the property. Where a repair is named, the property is
proved of the repaired form on all inputs; the others are kept as they are.

- **Buffer growth and append.** `append` never moves `write_idx_`, `make_space` grows to the wrong
  size and saves the wrong count, and two assertions are strict where they must not be. As written
  `append` works exactly for the empty string, neither branch of `make_space` ever helps, and a
  failed read, kept in a `size_t`, asks for almost 2^64 bytes.
  Repaired in the class `Buffer`: the write index advances, the new size is `write_idx_ + size`,
  compaction keeps the readable count, the assertions allow equality, a failed read adds nothing.
- **Output of a connection.** `send_in_loop` keeps the result of `write` in a `size_t` and
  `handle_write` offers the writeable count. As written a message survives exactly when the kernel
  takes all of it at once, once write interest is on only the empty one does, and the buffer can never
  drain; over a whole run the stream survives exactly when every message is taken whole. Repaired in
  `Connection`.
- **High-watermark callback.** It runs between the direct write and the append, so a callback that
  sends overtakes the rest of the message, and one that shuts down shuts the socket under it; and
  since that rest is not queued yet, a send of the callback's own can run the callback again, without
  end if it always sends. `Conservation` says for callbacks nested to any depth when the stream and
  the shutdown survive a run, `WatermarkExactly` for one send; callbacks that do not call back are
  always safe (`QuietRunsConserve`). Kept as it is.
- **Removing a poll handle.** The handle whose slot moved keeps its old index; the structure stays
  consistent exactly when the removed slot was the last. Repaired by looking the owner up by index.
- **Overdue timers.** Arming for an expiry a second or more in the past is rejected by the kernel
  and leaves the OS timer as it was. Repaired by clamping the wait at zero.
- **Cancelling a timer of the running batch.** A one-shot whose turn has not come runs all the
  same, and a repeater goes on repeating. `CancelStopsExactly` shows that in every other case a
  cancelled timer never runs again. Kept as it is.
- **quit() before loop()** is forgotten, and by that step only; functors the loop thread queues
  before the first drain wait for the poll timeout, and no others. Kept as they are.
- **Closing a connection.** `handle_close` can run twice in one event, and a send on a connection
  already out of the map can leave bytes that its own event does not drain, so that the removal
  queued by the close finds the handle wanting output. `OnlyTwoFailures` shows these are the only
  two ways an assertion of the lifecycle code can fail; after such a send the loop never polls
  again and runs into the failing removal. Kept as they are.
- **A connector without a callback** dereferences its released socket; with one, no run faults.
  Kept as it is.

The comment on `shotdown` (src/net/include/tcp_connection.hh:122-124) says a writing connection
will not be shut down; the code shuts it down when the buffer drains, and the model follows the
code. `MAX_RETRY_DELAY_MS` (30000) is declared but the code caps retries at 3000 ms.

## Model

| member | source | states |
|---|---|---|
| ByteBuffer.EnsureWriteableAsWrittenExactly | src/net/source/buffer.cc:40-63 | as written the call keeps the content and gives the room asked for exactly when there was strictly more room before it |
| ByteBuffer.AppendAsWrittenExactly | src/net/include/buffer.hh:56-60 | as written append queues its argument exactly when that is empty and a byte is spare |
| ByteBuffer.RetrieveAsWrittenExactly | src/net/include/buffer.hh:72-76 | as written retrieve works exactly when it does not empty the buffer |
| ByteBuffer.ReadSocketAsWrittenExactly | src/net/source/buffer.cc:10-38 | as written a read is kept exactly when it did not fail and is empty or smaller than the window |
| ByteBuffer.EnsureWriteableAsWrittenOutcome | src/net/source/buffer.cc:40-63 | what happens otherwise, by number: a stop, a throw for what no vector can hold, or a vector shrunk below the write index |
| ByteBuffer.AppendAsWrittenOutcome | src/net/include/buffer.hh:56-60 | the bytes are stored behind the readable ones and not counted |
| ByteBuffer.ReadSocketAsWrittenOutcome | src/net/source/buffer.cc:10-38 | a short read is queued, and one that just fills the window stops |
| ByteBuffer.AppendAsWrittenLosesData | src/net/include/buffer.hh:56-60 | a concrete append after which the buffer is still empty |
| ByteBuffer.EnsureWriteableAsWrittenStops | src/net/source/buffer.cc:56-63 | a new buffer stops when asked for its own size, and when asked to grow |
| ByteBuffer.RetrieveAsWrittenStops | src/net/include/buffer.hh:72-76 | a buffer of one byte stops when that byte is retrieved |
| ByteBuffer.ReadSocketAsWrittenStops | src/net/source/buffer.cc:10-38 | a read that fills the window stops, and a failed read throws |
| ByteBuffer.Buffer.MakeSpace | src/net/source/buffer.cc:40-54 | the content is kept and there is room; the array grows only if moving the content to the front would not free enough |
| ByteBuffer.Buffer.MoveLeft | src/net/source/buffer.cc:49 | moving the readable bytes down over an overlapping range keeps them |
| ByteBuffer.Buffer.EnsureWriteableBytes | src/net/source/buffer.cc:56-63 | afterwards there is room and the content is unchanged; nothing at all changes if there was room |
| ByteBuffer.Buffer.Append | src/net/include/buffer.hh:56-60 | the queue grows by exactly the given bytes |
| ByteBuffer.Buffer.Retrieve | src/net/include/buffer.hh:72-76 | the queue loses exactly its first bytes, possibly all |
| ByteBuffer.Buffer.RetrieveAsString | src/net/include/buffer.hh:84-89 | returns the whole queue and empties it |
| ByteBuffer.Buffer.ReadSocket | src/net/source/buffer.cc:10-38 | a scatter read appends what the kernel delivered, window first, whatever its size |
| PollHandles.EnableReading | src/net/source/poll_handle.cc:85-89 | turns read interest on and leaves write interest as it was |
| PollHandles.EnableWriting | src/net/source/poll_handle.cc:91-95 | turns write interest on and leaves read interest as it was |
| PollHandles.DisableWriting | src/net/source/poll_handle.cc:97-101 | turns write interest off and leaves read interest as it was |
| PollHandles.ChangedExactly | src/net/source/poll_handle.cc:85-107 | by number, what each of the four changes makes of a mask |
| PollHandles.RaisesExactly | src/net/source/poll_handle.cc:53-83 | by number, which flags lead to which callback |
| PollHandles.DispatchOrderExact | src/net/source/poll_handle.cc:53-83 | an event runs exactly the callbacks its flags raise, once each, in the order error, close, read, write |
| Spoller.ActiveFdsExact | src/net/source/poll/spoller.cc:60-78 | a descriptor is reported exactly when a slot of it has positive revents |
| Spoller.Poller.SameSize | src/net/source/poll/spoller.cc:46 | the assertion of register_polling: map and array have one size |
| Spoller.Poller.RegisterPolling | src/net/source/poll/spoller.cc:33-58 | an old descriptor changes nothing; a new one gets the last slot, wanting nothing; everything still agrees |
| Spoller.Poller.UpdateHandle | src/net/source/poll/spoller.cc:80-99 | the slot mirrors the mask again and no other slot changes |
| Spoller.Poller.SetEvents | src/net/source/poll_handle.cc:85-107 | a mask change reaches the kernel's view of that descriptor and of no other |
| Spoller.Poller.RemoveHandleAsWritten | src/net/source/poll/spoller.cc:101-116 | as written the structure still agrees exactly when the removed slot was the last |
| Spoller.StaleIndexExample | src/net/source/poll/spoller.cc:101-116 | a concrete removal that leaves an index past the end of the array |
| Spoller.Poller.RemoveHandle | src/net/source/poll/spoller.cc:101-116 | with the moved index reset, swap-remove is deletion from the map: the other descriptors keep their slots' content |
| Spoller.Poller.ActiveSlotOwned | src/net/source/poll/spoller.cc:69 | the lookup by descriptor in the scan cannot miss |
| Spoller.Poller.FindActiveHandles | src/net/source/poll/spoller.cc:60-78 | the early-exit scan returns the handles of all active slots, in array order, each told its revents; no other handle is touched |
| Spoller.RefinesAsks | src/net/source/poll/spoller.cc:80-99 | in a refined state the kernel is asked for exactly the wanted masks |
| Spoller.MasksExactly | src/net/source/poll_handle.cc:85-107 | over any operations a descriptor is asked for input exactly when reading was enabled, and for output exactly when writing was, since its registration and the last change that ends it; and it is registered exactly since a registration that no removal has ended |
| Spoller.PerformPoll | src/net/source/poll/spoller.cc:23-31 | a poll reports each registered descriptor that wants something and has something, once, and no other, and tells its handle the flags |
| Spoller.Replay | src/net/source/poll/spoller.cc:23-116 | after any sequence of registrations, mask changes, removals and polls the kernel is asked exactly for what the operations on each descriptor want, and every poll on the way was answered completely |
| EventLoop.StepKeepsInv | src/net/source/event_loop.cc:37-161 | order, phases, wake-ups and live handles are kept by every step of every thread |
| EventLoop.EventfdExactly | src/net/source/poller_waker.cc:22-36 | a wake-up adds one to the eventfd, the handler of the waker empties it, and nothing else touches it |
| EventLoop.NoLostWakeup | src/net/source/event_loop.cc:133-144 | blocked in poll with functors waiting or quit set, the eventfd is readable or about to be written, except for functors the loop thread queued itself before the first drain of this loop() call |
| EventLoop.NoExcessWakeup | src/net/source/poller_waker.cc:22-36 | in every run the eventfd is readable exactly when a wake-up has happened since its handler last ran, and polls return for it at most once per wake-up |
| EventLoop.PollReportsWaker | src/net/source/event_loop.cc:47-58 | the next poll reports the waker exactly when a wake-up has arrived |
| EventLoop.FirstFunctorsWaitForTimeout | src/net/source/event_loop.cc:140-143 | that exception happens for every functor |
| EventLoop.QuitSurvivesOneStep | src/net/source/event_loop.cc:42-43 | a quit is forgotten by exactly one step, the entry of loop() |
| EventLoop.QuitBeforeLoopIsForgotten | src/net/source/event_loop.cc:42-43 | a concrete run whose quit has no effect |
| EventLoop.QuitEndsTheLoop | src/net/source/event_loop.cc:65-72 | until loop() is called again a quit is kept, and no poll begins but the one under way |
| EventLoop.EveryStepNearerExit | src/net/source/event_loop.cc:47-58 | once quit is set a rank falls with every step of the loop thread, and no other thread raises it |
| EventLoop.QuitExits | src/net/source/event_loop.cc:47-72 | from any point inside loop() a quit leads to its return, without the poll timeout |
| EventLoop.ExactlyOnceInLockOrder | src/net/source/event_loop.cc:133-161 | functors run once each in the order of their pushes; the others wait in that order |
| EventLoop.DispatchNeverStale | src/net/source/event_loop.cc:47-58 | a dispatched handle is still registered |
| EventLoop.EveryStepCloser | src/net/source/event_loop.cc:146-161 | a rank bounds the wait of every functor: loop steps decrease it, other threads do not raise it |
| EventLoop.NeverStuck | src/net/source/event_loop.cc:47-58 | inside loop() the loop thread can step, or another thread is about to wake it; it sits out the poll timeout only without a quit and without functors but the first ones |
| EventLoop.FunctorRuns | src/net/source/event_loop.cc:47-161 | from any point inside loop() a waiting functor is run unless someone quits, and after the first drain without the poll timeout |
| EventLoop.BoundedWait | src/net/source/event_loop.cc:146-161 | while a functor waits at most one more poll pass and one more snapshot begin, and only functors pushed before it run |
| LoopThread.Loop.QueueInLoop | src/net/source/event_loop.cc:133-144 | a push on the loop thread wakes the poller only inside a drain |
| LoopThread.Loop.QueueFrom | src/net/source/event_loop.cc:133-144 | a push from another thread always wakes it |
| LoopThread.Loop.Interfere | src/net/source/event_loop.cc:65-72 | what another thread queues comes behind what is pending; it may quit the loop, and changes nothing else |
| LoopThread.Loop.Quit | src/net/source/event_loop.cc:65-72 | quit_ is set, and from another thread the poller is woken |
| LoopThread.Loop.DoPendingFunctors | src/net/source/event_loop.cc:146-161 | runs exactly the functors pending at the swap, in order; what they and other threads queue meanwhile is all that is pending afterwards |
| LoopThread.Loop.HandleEvent | src/net/source/poller_waker.cc:33-36 | the waker's handler empties the eventfd; other handlers only queue and leave it |
| LoopThread.Loop.Iterate | src/net/source/event_loop.cc:47-58 | one pass runs, in order, what was pending, then what the handlers of the reported events and other threads queued; what the functors and other threads queue meanwhile is all that pends |
| Clock.ParseTimeDuration | src/base/source/clock.cc:6-13 | seconds truncated toward zero and the rest, with one sign |
| Clock.ArmExactly | src/net/source/timer_queue.cc:123-131 | as written arming works exactly for expiries less than a second overdue; clamped, always |
| Clock.ArmsOrNot | src/net/source/timer_queue.cc:123-131 | the deadline arming leaves, by number |
| Clock.OverdueTimerIsNotArmed | src/net/source/timer_queue.cc:123-131 | a concrete overdue expiry that arms nothing |
| Multimap.InsertAt | src/net/source/timer_queue.cc:160 | an entry goes behind every key not above its own and moves nothing else |
| Multimap.LowerBoundSplits | src/net/source/timer_queue.cc:137 | the keys below now are exactly a prefix |
| Multimap.EraseExactly | src/net/source/timer_queue.cc:95-104 | erasing a timer found by identity removes its entry alone, equal keys included |
| TimerQueue.Timer.Restart | src/net/source/timer.cc:19-25 | a repeater is due one interval after now; a one-shot is unchanged |
| TimerQueue.Queue.Insert | src/net/source/timer_queue.cc:147-162 | keys stay the timers' expiries; the result is true exactly when the map was empty or the expiry is below its first key |
| TimerQueue.Queue.PopExpired | src/net/source/timer_queue.cc:133-145 | takes exactly the timers due, in key and insertion order, each once |
| TimerQueue.Queue.AddTimerInLoop | src/net/source/timer_queue.cc:76-86 | the object takes the Add step of the runs: equal keys in insertion order, and arming only for a new first |
| TimerQueue.Queue.AddNew | src/net/source/timer_queue.cc:36-46 | a new timer is in the map under the expiry asked for |
| TimerQueue.Queue.CancelTimerInLoop | src/net/source/timer_queue.cc:88-105 | the object takes the Cancel step: that timer leaves the map and no other does |
| TimerQueue.Queue.ResetTimers | src/net/source/timer_queue.cc:107-121 | every repeater of the batch returns once with its next expiry, and no one-shot does or changes |
| TimerQueue.Queue.RunCallback | src/net/source/timer_queue.cc:36-52 | the object takes exactly the steps of the calls, in order: the clock and an add of a new timer, or a cancel |
| TimerQueue.Queue.RunBatch | src/net/source/timer_queue.cc:60-65 | the timers run in order, each followed by the steps of its callback |
| TimerQueue.Queue.HandleRead | src/net/source/timer_queue.cc:54-74 | one reading of the timerfd is exactly: take the due timers, run them with what their callbacks do, return the repeaters, arm for the earliest key |
| TimerRuns.ReturningExactly | src/net/source/timer_queue.cc:107-121 | the entries re-inserted are the batch's repeaters, once each |
| TimerRuns.StepKeepsPlaced | src/net/source/timer_queue.cc:54-162 | every key is its timer's expiry and every timer is in at most one place, once |
| TimerRuns.TimersAreConserved | src/net/source/timer_queue.cc:54-162 | in every run an added timer is in exactly one place, due in the map, in hand, or over after its one run, and in none exactly when it was cancelled while in the map |
| TimerRuns.InsertKeepsOrder | src/net/source/timer_queue.cc:160 | entries with equal keys stay in the order they were inserted |
| TimerRuns.StepKeepsOrdered | src/net/source/timer_queue.cc:54-162 | so they do over every step, re-insertions included |
| TimerRuns.StepKeepsInv | src/net/source/timer_queue.cc:54-162 | places, order and run counts are kept by every step, with callbacks interfering mid-batch |
| TimerRuns.MapExactly | src/net/source/timer_queue.cc:54-162 | who is in the map after each step |
| TimerRuns.QueueExactly | src/net/source/timer_queue.cc:54-131 | what each step makes of the clock, the batch and the OS timer, by number |
| TimerRuns.StepArmsExactly | src/net/source/timer_queue.cc:54-131 | the OS timer stays armed for the earliest key through every step of the repaired code, and as written exactly through steps that do not arm late, adds by callbacks, and steps that find it due within the slack |
| TimerRuns.RunArmsExactly | src/net/source/timer_queue.cc:54-131 | so it is armed in time in every state of a run exactly when every step of the run is one of these |
| TimerRuns.NoTimerForgotten | src/net/source/timer_queue.cc:54-131 | in every run, as written in those of such steps, the timerfd is readable once the earliest key and the arming slack have passed |
| TimerRuns.ExpireTakesTheDue | src/net/source/timer_queue.cc:133-145 | the batch is exactly the timers due, by key and among equal keys by insertion, and the rest stay |
| TimerRuns.FinishDisposes | src/net/source/timer_queue.cc:107-121 | a popped repeater is back once, a popped one-shot is gone |
| TimerRuns.CancelRemovesOne | src/net/source/timer_queue.cc:88-105 | cancelling takes that timer out of the map and no other, and touches nothing else |
| TimerRuns.CancelStopsExactly | src/net/source/timer_queue.cc:54-121 | a cancelled timer never runs again in any run exactly when it is not still to run in the batch under way and is not a repeater of it |
| TimerRuns.CancelledOneShotRuns | src/net/source/timer_queue.cc:61-65 | a concrete run in which a one-shot runs after it was cancelled by the callback before it |
| TimerRuns.DeadForever | src/net/source/timer_queue.cc:88-121 | a cancelled timer never runs nor returns in any later step |
| TimerRuns.SelfCancelIsForgotten | src/net/source/timer_queue.cc:61-67 | a concrete run in which a repeater cancels itself and is due again |
| TimerRuns.RunsInPace | src/net/source/timer_queue.cc:60-67 | in every run, however late the arming, no timer runs early, one-shots run once, and runs of a repeater are more than an interval apart |
| ConnectionOutput.Conservation | src/net/source/tcp_connection.cc:64-235 | for callbacks nested to any depth, the invariant holds in every state of a run exactly when in every step what is emitted is what was given and no callback shuts under a rest |
| ConnectionOutput.QuietRunsConserve | src/net/source/tcp_connection.cc:64-235 | with watermark callbacks that do not call back and any write-complete callbacks the invariant always holds |
| ConnectionOutput.StreamIsWhatWasSent | src/net/source/tcp_connection.cc:64-225 | kernel bytes and waiting bytes are together what the run emitted, and so the messages sent while connected, in order, exactly when the two agree |
| ConnectionOutput.SendGrows | src/net/source/tcp_connection.cc:170-225 | a send puts behind the stream its written part, then what its callback emits, then its rest, without loss, and write interest follows the buffer |
| ConnectionOutput.CallExactly | src/net/source/tcp_connection.cc:64-89 | only a connected connection sends, the first len bytes or all of them, and only a connected one starts to shut down |
| ConnectionOutput.SendExactly | src/net/source/tcp_connection.cc:170-225 | a send by number: what the kernel takes, the watermark callback exactly if the rest takes the buffer from below 64 MiB to above it, and then the rest |
| ConnectionOutput.SendAccepts | src/net/source/tcp_connection.cc:202-218 | accepted are the message, and what the callback gives exactly at such a send |
| ConnectionOutput.RunUnderTheMark | src/net/source/tcp_connection.cc:202-218 | a run without such a send is the same with no watermark callback set |
| ConnectionOutput.HandleWriteExactly | src/net/source/tcp_connection.cc:111-145 | the write that empties the buffer runs the write-complete callback on a connection no longer writing, or performs the pending shutdown; any other write runs nothing |
| ConnectionOutput.WriteCompleteSends | src/net/source/tcp_connection.cc:121-128 | the messages of the write-complete callback are accepted exactly at the write that empties the buffer |
| ConnectionOutput.StepExactly | src/net/source/tcp_connection.cc:64-145 | one call or write event, with all its callbacks do, keeps the invariant exactly when it is harmless |
| ConnectionOutput.NoByteAfterShutdown | src/net/source/tcp_connection.cc:227-235 | at shutdown every accepted byte is in the kernel, and no later step writes |
| ConnectionOutput.DrainPerformsShutdown | src/net/source/tcp_connection.cc:121-134 | a pending shutdown is performed by the write that drains the buffer, and by no other |
| ConnectionOutput.WatermarkExactly | src/net/source/tcp_connection.cc:202-218 | for one send that crosses the mark in any state: the stream stays in order exactly when what the callback emits followed by the rest is the rest followed by what it gives, and the invariant holds exactly when it also does not shut under that rest |
| ConnectionOutput.ShutsExactly | src/net/source/tcp_connection.cc:81-89 | a callback, with those nested in it, shuts the socket exactly when it asks to before any byte waits |
| ConnectionOutput.CallbackIsReentered | src/net/source/tcp_connection.cc:206-214 | a send by the callback that leaves as much as the message that triggered it triggers it again |
| ConnectionOutput.AlwaysSendingNeverEnds | src/net/source/tcp_connection.cc:206-214 | a callback that always sends is run again at every depth |
| ConnectionOutput.WatermarkSendExample | src/net/source/tcp_connection.cc:202-218 | a concrete message overtaken by its callback |
| ConnectionOutput.WatermarkShotdownExample | src/net/source/tcp_connection.cc:202-218 | a concrete message under which its callback shuts the socket |
| ConnectionOutput.ReentryExample | src/net/source/tcp_connection.cc:206-214 | two zeros sent by the callback behind two zeros, which the callback run for them overtakes |
| ConnectionOutput.SendAsWrittenExactly | src/net/source/tcp_connection.cc:170-225 | as written a message survives exactly when a write is tried and the kernel takes all of it, or the message is empty and none is tried |
| ConnectionOutput.SendAsWrittenOutcome | src/net/source/tcp_connection.cc:170-225 | what happens instead: a stop after a failed write, else the rest is dropped without a word |
| ConnectionOutput.PartialWriteExample | src/net/source/tcp_connection.cc:170-225 | two bytes of which one is lost |
| ConnectionOutput.HandleWriteAsWrittenExactly | src/net/source/tcp_connection.cc:111-120 | as written a write event is harmless exactly when it cannot drain the buffer |
| ConnectionOutput.HandleWriteAsWrittenOutcome | src/net/source/tcp_connection.cc:111-120 | nothing, a partial drain, or a stop |
| ConnectionOutput.DrainingWriteExample | src/net/source/tcp_connection.cc:111-120 | one waiting byte whose write stops at an assertion |
| ConnectionOutput.SurvivesExactly | src/net/source/tcp_connection.cc:111-225 | as written, over whole runs from an idle connection, the stream survives exactly when the kernel takes every message whole |
| TcpConnection.Connection.SendInLoop | src/net/source/tcp_connection.cc:170-225 | the object's new state is the specified one, watermark callback included |
| TcpConnection.Connection.Send | src/net/source/tcp_connection.cc:64-79 | only a connected object sends, and only the first len bytes |
| TcpConnection.Connection.Shotdown | src/net/source/tcp_connection.cc:81-89 | only a connected object starts to shut down |
| TcpConnection.Connection.HandleWrite | src/net/source/tcp_connection.cc:111-145 | the object's new state is the specified one, and keeps the invariant |
| Connecting.RetryKeepsBackoff | src/net/source/connector.cc:146-160 | retry n waits min(500 * 2^n, 3000) ms |
| Connecting.ErrorThenWriteIsSafe | src/net/source/connector.cc:61-96 | the write callback after the error callback of one event touches nothing |
| Connecting.EventCallbacks | src/net/source/poll_handle.cc:53-83 | of one event only the error and write callbacks act, in that order |
| Connecting.ConnectExactly | src/net/source/connector.cc:98-160 | by the answer of connect(2): the wait for a writable socket, a retry after the delay, or nothing more |
| Connecting.EventExactly | src/net/source/connector.cc:61-96 | by the flags of an event: the handle and the socket given up and a retry, the socket handed over, or nothing |
| Connecting.RemovalExactly | src/net/source/connector.cc:85-87 | a queued removal takes a registered descriptor out that is not the current one |
| Connecting.StepIsSafe | src/net/source/connector.cc:42-160 | no step dereferences null or fails assert(!poll_hd_), and every queued removal finds its handle |
| Connecting.OneAttemptAtATime | src/net/source/connector.cc:26-160 | in every run at most one of: a socket in flight, a scheduled retry, a delivered socket; with the exact waits |
| Connecting.RetryThenDeliver | src/net/source/connector.cc:61-160 | a concrete run: refused, retried after 500 ms, handed over |
| Connecting.NoCallbackFaults | src/net/source/connector.cc:61-80 | a concrete run that faults when no callback is set |
| Connecting.SafeExactlyWithCallback | src/net/source/connector.cc:61-80 | no run faults exactly when a callback is set |
| Connector.Client.ConnectInLoop | src/net/source/connector.cc:102-144 | one step of the attempt, by connect() or by the retry timer |
| Connector.Client.HandleWrite | src/net/source/connector.cc:61-80 | delivers the socket exactly when it is connecting without an error |
| Connector.Client.HandleError | src/net/source/connector.cc:82-96 | the handle's removal is queued, the socket released and the retry started |
| Connector.Client.HandleEvent | src/net/source/poll_handle.cc:53-83 | the object makes the specified step for any flags |
| ServerRuns.StepKeepsInv | src/net/source/tcp_connection.cc:24-62 | stages, maps and queued functors of every connection agree after every safe step |
| ServerRuns.ConnExactly | src/net/source/tcp_connection.cc:24-161 | what each step makes of each connection, by the flags of the event |
| ServerRuns.MapExactly | src/net/source/tcp_server.cc:51-90 | what each step makes of the connection map and the queue |
| ServerRuns.MovesForward | src/net/source/tcp_connection.cc:36-62 | connecting, connected, disconnecting, disconnected: never backwards |
| ServerRuns.LifecycleHolds | src/net/source/tcp_server.cc:51-98 | in every run a connection is in the map or erased once, and its callback sees connected, then disconnected |
| ServerRuns.ClosedIsRemoved | src/net/source/tcp_connection.cc:147-161 | a closed connection is removed by the loop left alone, unless a failure is ahead |
| ServerRuns.OnlyTwoFailures | src/net/source/tcp_connection.cc:147-161 | after any run an assertion fails exactly at a second close by one event, or at the removal of a connection sent to after it left the map with bytes its own event did not drain |
| ServerRuns.LateBytesStay | src/net/source/tcp_connection.cc:147-161 | such bytes stay in every safe run once the event is over, and the loop never polls again |
| ServerRuns.LateSendDooms | src/net/source/tcp_connection.cc:147-161 | and whatever happens in between, the loop left alone runs into the failing removal |
| ServerRuns.PoliteServersAreSafe | src/net/source/tcp_connection.cc:147-161 | a server whose runs avoid both never fails an assertion |
| ServerRuns.DoubleCloseHappens | src/net/source/poll_handle.cc:68-76 | a concrete run to the first failure |
| ServerRuns.LateSendHappens | src/net/source/tcp_connection.cc:157-160 | a concrete run to the second failure |
| TcpServer.NamesDistinct | src/net/source/tcp_server.cc:53 | different counter values give different connection names |
| TcpServer.NameExactly | src/net/source/tcp_server.cc:53 | a name is the server's, a number sign and at least five digits that stand for the counter |
| TcpServer.Server.RegisterConnection | src/net/source/tcp_server.cc:51-67 | a new connection never displaces one in the map, and is the Accept step of the runs |
| TcpServer.Server.RemoveConnectionInLoop | src/net/source/tcp_server.cc:82-90 | erase returns 1 exactly when the connection is in the map |
| TcpServer.Server.RemoveConnection | src/net/source/tcp_server.cc:76-90 | called by a close, erase returns 1 exactly when the event has not closed the connection before; the map then follows the run |
| TcpServer.Replay | src/net/source/tcp_server.cc:51-90 | through any safe run the object's map is that of the run, and every erase finds its entry |
| LoopThreadPool.FairRoundRobin | src/net/source/loop_thread_pool.cc:39-54 | after q * k + r picks every loop has been picked q times, and once more exactly if it is among the next r |
| LoopThreadPool.Pool.GetNextLoop | src/net/source/loop_thread_pool.cc:39-54 | the index stays in range and moves on by one, wrapping |
| LoopThreadPool.Pool.GetLoops | src/net/source/loop_thread_pool.cc:39-54 | calls in a row make the picks that are counted |

## Left out

- LoopThread.Loop.Iterate: other threads act between handlers and between functors there; finer interleavings are in EventLoop.
- Conservation and shutdown are for calls on the loop thread, before handle_close, with callbacks that end; a cross-thread send racing with a shutdown is not modelled.
- Lifecycle is for a single-loop server; callback registration racing with establishment in other threads is not modelled. The connection callback is assumed set, as connection_destroyed calls it without looking.
- handle_read of a connection takes a failed read for data, since the result is unsigned; the model treats any non-zero result as data and leaves the message callback to the user steps.
- poll returning -1: the scan would reserve a negative count.
- Clock.ParseTimeDuration: the floating-point division is exact integer division there, and durations beyond the range of int seconds are not modelled.
- connector::stop and retry_timer_, which points to a local, and reconnect.
- The lifetime of C++ objects: connections and handles are identities, and handle_close is assumed to have an owner while it runs.
- epoller, acceptor, socket and address conversion, logger, latch, thread wrappers, and the string form of times.
