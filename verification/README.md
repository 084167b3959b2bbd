# A verified model of the reactor and logging library

This project models the parts of the library that carry state, arithmetic or
interleavings, and proves what they are for:

- the asynchronous double-buffered logger, as interleaved steps on texts and
  again with real buffer objects (who holds which buffer, all of them different),
- the monitors: thread pool, blocking queue and countdown latch, for any number
  of threads, with spurious wake-ups and barging,
- posting work to an event loop, with the eventfd counter that wakes it,
- the sliding-window byte buffer and, on it, big-endian integers, CRLF framing
  and the sending side of a TCP connection,
- registration of channels with epoll, against the kernel's own table,
- integer formatting and the log line builder, and round-robin loop selection.

Code that several threads go through is modelled twice. A *machine* gives the
state as a value, one action for every stretch of code between two points where
another thread may come in (a locked region, a test of a flag, a write to the
eventfd), and theorems over every run of any length. A *class* has the original's
fields; each of its methods keeps the machine's invariant, is one of its actions
whenever that is enabled, and says what the invariant makes of it for a caller. A
`Serve` method takes an object through any run and ensures the theorems on its fields.
What the threads can get done is proved beside what they keep: from every reachable
state the writer brings the file up to date, the pool serves its calls and the loop
executes what was posted.
Code that one thread goes through is a class or an array algorithm proved against
functions on sequences, with a driver method for whole lives of the object.
`hide` statements in proofs only keep definitions out of the solver's way.

Everything outside the code enters as a parameter: which threads a signal wakes
(any non-empty subset of the waiters, as POSIX allows), what `readv` and `write`
return (a count up to the length requested, or an error), what `fwrite` counts as
written and `snprintf` prints, when `poll` and the timed wait come back (at any
moment), which thread comes next.

## What the code does and what one might expect of it

Where the code falls short of its evident intent the model follows the code. The
exact condition is proved, with a concrete input that shows the failure.

- `TcpConnection::send` discards a message whole when output is already waiting,
  or when `write` fails for any reason (`TcpOutput.SendIsAllOrNothing`,
  `TcpOutput.SecondSendIsLost`).
- `Channel::disableAll` does not tell the poller, so the kernel keeps its interest
  (`Registration.DisableAllSynchronisesOnlyIfIdle`,
  `Registration.DisableAllIsNotSeenByTheKernel`).
- A functor posted by the loop thread itself before it calls `loop` comes without
  a wake-up, and `poll` is entered with it pending (`EventLoops.StrandedExactly`,
  `EventLoops.EarlyPostIsStranded`).
- The log writer stops without collecting what arrived after its last swap
  (`LogPipeline.LostAtShutdown`, `LogPipeline.LateMessageIsLost`).
- `fwriten` starts at the front of its text again after a short write
  (`FileOutput.RightExactlyIfComplete`, `FileOutput.ShortWriteIsWrong`).
- `operator<<` for an address cuts off its last two digits
  (`LogStreams.AddressesShownAlike`).
- The constructor of `Buffer` ignores its argument.

## Model

| member | source | states |
|---|---|---|
| LogPipeline.OrderedConservation | base/AsyncLogging.cpp:61-138 | In every interleaving of any number of appenders with the writer, file, unwritten part of the batch, collected buffers and front buffer are together exactly the accepted messages in lock order, each whole and followed by its space; the file is a prefix of them |
| LogPipeline.RecyclingIsSafe | base/AsyncLogging.cpp:68-134 | In every run no null buffer is dereferenced and no `back()` meets an empty vector; there always is a front buffer; a missing spare implies a full buffer is waiting; outside its writing phase the writer owns two empty buffers |
| LogProgress.RoundWritesAll | base/AsyncLogging.cpp:95-136 | While `_isRuning` is set, one round of the writer's steps from the test of the flag puts everything accepted before it in the file and comes back to the test |
| LogProgress.WriterCatchesUp | base/AsyncLogging.cpp:84-138 | After any run whatever, if the flag is set, steps of the writer alone bring the file up to the whole history |
| LogProgress.FinishBatch | base/AsyncLogging.cpp:111-134 | From anywhere in its writing phase the writer writes and recycles the rest of the batch |
| LogPipeline.DoneOnlyIfStopped | base/AsyncLogging.cpp:44-58 | In every run the flag is what `start` or the destructor last set, and the writer is done only if it was cleared |
| LogPipeline.AppendCollectsOnlyIfFull | base/AsyncLogging.cpp:64-79 | The front buffer is collected exactly when the message and its space do not fit behind its text; otherwise they go there and nothing changes hands |
| LogPipeline.LostAtShutdown | base/AsyncLogging.cpp:95-138 | When the writer is done, what the file lacks is the history of the run after its last swap and is what the buffers still hold; the file is complete if and only if those buffers are empty, and if and only if no message that fits a buffer was appended after that swap |
| LogPipeline.LateIsSinceLastSwap | base/AsyncLogging.cpp:61-109 | In every run the collected but not yet swapped part is the history of the actions behind the last swap, found by position in the run |
| LogPipeline.NothingAccepted | base/AsyncLogging.cpp:61-82 | A stretch of a run adds nothing to the history if and only if every message appended in it is too long for a buffer |
| LogPipeline.LateMessageIsLost | base/AsyncLogging.cpp:95-138 | A message logged just before the stop never reaches the file in one concrete interleaving, for every message and buffer size |
| LogPipeline.StepKeepsHeld | base/AsyncLogging.cpp:61-134 | Ownership invariant: every step from a state that has it is free of undefined behaviour and keeps it |
| LogPipeline.StepKeepsInv | base/AsyncLogging.cpp:61-134 | The full invariant, ownership with conservation on both sides of the swap, is kept by every step |
| LogPipeline.RecycleRefills | base/AsyncLogging.cpp:116-134 | Whatever the number of buffers written and whether or not `buffer2` was given away, a round ends with two empty buffers and an empty batch |
| LogPipeline.RunRecords | base/AsyncLogging.cpp:61-82 | The recorded history is the concatenation of the entries of the appends in lock order, where a message no buffer can hold contributes nothing |
| BufferOwnership.PointersAreDistinct | base/AsyncLogging.cpp:68-134 | No two of the logger's pointers (front, spare, the writer's two, collected, batch) name the same buffer object |
| BufferOwnership.LiveBuffers | base/AsyncLogging.cpp:64-134 | In every settled state the pointers the next step dereferences are not null and lead to buffers in use with the texts the machine says |
| BufferOwnership.AppendMoves | base/AsyncLogging.cpp:64-79 | The pointer moves of `append` on buffer objects, including reuse of the spare and allocation, keep distinctness and refine the step on texts |
| BufferOwnership.SwapMoves | base/AsyncLogging.cpp:103-109 | The pointer moves of the writer's locked region keep distinctness and refine the swap on texts |
| BufferOwnership.RecycleMoves | base/AsyncLogging.cpp:116-134 | Truncating the batch and taking back one or two buffers keeps distinctness and refines the recycling on texts |
| AsyncLoggings.Serve | base/AsyncLogging.cpp:35-138 | A logger object taken through any interleaving: no null dereference, no `back()` on an empty vector, all buffers distinct, spares empty; the bytes in the file and in the live buffers are exactly the history; the writer is done only after a stop |
| AsyncLoggings.AsyncLogging.constructor | base/AsyncLogging.cpp:35-42 | Two new, distinct, empty buffers in front and in reserve: the machine's initial state |
| AsyncLoggings.AsyncLogging.Append | base/AsyncLogging.cpp:61-82 | In memory, `append` is the machine's append; while the message fits, no buffer changes hands; otherwise the front one joins the collected ones and the spare takes its place if there is one |
| AsyncLoggings.AsyncLogging.Store | base/AsyncLogging.cpp:64-79 | Exactly which pointers move and which buffer's text changes: appended to the front buffer, or front collected and the message put in the spare, or in a new buffer if there is none |
| AsyncLoggings.AsyncLogging.ReplaceFront | base/AsyncLogging.cpp:70-78 | The full front buffer is collected and the spare, or a new empty buffer, takes its place |
| AsyncLoggings.AsyncLogging.Start | base/AsyncLogging.cpp:84-94 | The writer starts with two new buffers of its own |
| AsyncLoggings.AsyncLogging.Check | base/AsyncLogging.cpp:95 | The writer is done exactly if the flag is cleared, and goes on to lock otherwise |
| AsyncLoggings.AsyncLogging.Stop | base/AsyncLogging.cpp:46-48 | The flag is cleared, and buffers, file and ownership stay as they are |
| AsyncLoggings.AsyncLogging.Lock | base/AsyncLogging.cpp:98-109 | Waits exactly if nothing has been collected, swaps at once otherwise |
| AsyncLoggings.AsyncLogging.WakeUp | base/AsyncLogging.cpp:101-109 | After the wait, for whatever reason it ended, swaps |
| AsyncLoggings.AsyncLogging.Swap | base/AsyncLogging.cpp:103-109 | On buffer objects, the swap is the machine's |
| AsyncLoggings.AsyncLogging.WriteOne | base/AsyncLogging.cpp:111-114 | The text of the next buffer object of the batch goes to the file, and ownership and conservation hold again |
| AsyncLoggings.AsyncLogging.WriteOut | base/AsyncLogging.cpp:113 | The call of `fwriten` for one buffer adds exactly its text to the file when `fwrite` takes it at once |
| FileOutput.Fwriten | base/AsyncLogging.cpp:13-26 | The loop of `fwriten` for every sequence of results `fwrite` may give, short writes and an error included: the file gets, for every call, that many characters from the front of the text |
| FileOutput.RightExactlyIfComplete | base/AsyncLogging.cpp:13-26 | `fwriten` is right for all texts of a length if and only if the first call of `fwrite` takes all of it |
| FileOutput.ShortWriteIsWrong | base/AsyncLogging.cpp:13-26 | A short first write spoils every text whose next character differs from its first |
| AsyncLoggings.AsyncLogging.Recycle | base/AsyncLogging.cpp:116-134 | On buffer objects, the recycling is the machine's |
| AsyncLoggings.AsyncLogging.MoveOut | base/AsyncLogging.cpp:103-109 | Exactly which pointers move in the writer's locked region |
| AsyncLoggings.AsyncLogging.Refill | base/AsyncLogging.cpp:116-134 | Exactly which pointers move in the recycling and which buffers are emptied |
| AsyncLoggings.AsyncLogging.TakeBack | base/AsyncLogging.cpp:123-125 | The last buffer of the batch leaves it and is emptied; no other text changes |
| AsyncLoggings.AsyncLogging.KeptIsHistory | base/AsyncLogging.cpp:61-138 | Read from memory, file, unwritten buffers, collected buffers and front buffer are the history |
| AsyncLoggings.AsyncLogging.ValidIsSupplied | base/AsyncLogging.cpp:68-134 | Between steps no buffer is named twice, the reserve and the writer's own are empty, and a missing one can be replaced |
| LogLines.Log | base/Logging.cpp:59-63 | The line streamed by a log statement, and the line feed behind it, arrives whole behind everything accepted before; it is complete if 33 characters are left in the line, and never too long for the logger's buffers |
| ThreadPools.DeadlockFree | base/ThreadPool.cpp:48-86 | For any number of workers and producers: while a task is queued a worker is awake, and while a producer is inside `run` a worker is awake or a producer has been notified |
| ThreadPoolProgress.EverythingIsServed | base/ThreadPool.cpp:48-92 | From every reachable state of a pool with workers, steps of its own threads, without new calls, spurious wake-ups or signals that wake more than one, end with every call returned, the queue empty and every task dispatched |
| ThreadPoolProgress.CallsAreServed | base/ThreadPool.cpp:48-92 | After any run, each of its calls can still be dispatched, exactly once |
| ThreadPools.FinishMeans | base/ThreadPool.cpp:87-92 | A worker whose task has returned may take the next one |
| ThreadPools.NoLostWakeup | base/ThreadPool.cpp:48-86 | While a worker sleeps the queued tasks do not outnumber the notified workers; while a producer sleeps the free places do not outnumber the notified producers |
| ThreadPools.OrderAndCapacity | base/ThreadPool.cpp:48-86 | The queue never exceeds `_maxNum`; the tasks dispatched and those queued, read from the back, are exactly the tasks handed in by the calls of the run, in lock order |
| ThreadPools.EveryCallOnce | base/ThreadPool.cpp:48-86 | For every task, the calls of `run` with it are as many as its occurrences among dispatched and queued tasks and waiting producers together: no call is lost or served twice |
| ThreadPools.RunRecords | base/ThreadPool.cpp:48-62 | What was handed in is read off the actions: each call's task, at the moment it finds room |
| ThreadPools.StepKeepsAwake | base/ThreadPool.cpp:56-61 | Both counting invariants survive every step, including barging and spurious wake-ups |
| ThreadPools.StepKeepsPlaced | base/ThreadPool.cpp:56-86 | Sleeping, woken and busy threads stay disjoint and accounted for in every step |
| ThreadPools.ThreadPool.RunRegion | base/ThreadPool.cpp:48-62 | Keeps order, bound, wake-up counting and the whereabouts of all threads; a call that returns has its task behind all others handed in and wakes a worker if any sleeps; one that does not sleeps over a full queue, which it leaves alone |
| ThreadPools.ThreadPool.TakeRegion | base/ThreadPool.cpp:77-86 | Keeps the same invariants; the task is the oldest one handed in that nobody has taken, and the worker sleeps if and only if all have been |
| ThreadPools.ThreadPool.Finish | base/ThreadPool.cpp:87-92 | After its task the worker is idle again, and all invariants hold |
| ThreadPools.Serve | base/ThreadPool.cpp:9-86 | A pool object taken through any run: order, bound, both wake-up counts and deadlock freedom, read off its fields |
| BlockingQueues.FifoWithoutLostWakeups | base/BlockingQueue.h:17-39 | The elements taken followed by those queued are exactly the elements pushed in the run, in order; while a taker sleeps the queued elements do not outnumber the notified takers |
| BlockingQueues.TakesTheNext | base/BlockingQueue.h:29-39 | In every run, a thread that gets the mutex in `take` gets the next of the elements pushed, or sleeps if there is none |
| BlockingQueues.StepKeepsInv | base/BlockingQueue.h:17-39 | Order and wake-up accounting survive every step |
| BlockingQueues.BlockingQueue.Push | base/BlockingQueue.h:17-22 | Keeps order and wake-up counting; of all elements taken and queued this one comes last, and somebody is woken if anyone sleeps |
| BlockingQueues.BlockingQueue.TakeRegion | base/BlockingQueue.h:29-39 | Keeps order and wake-up counting; the element is the oldest one pushed that nobody has taken, and the thread sleeps if and only if all have been |
| BlockingQueues.Serve | base/BlockingQueue.h:17-39 | A queue object taken through any run: elements taken and queued are those pushed, and no wake-up is lost |
| CountDowns.LatchIsExact | base/CountDown.h:16-33 | A thread returns from `wait` only after as many calls of `down` as the latch was set to, counted over the run; after those nobody is left asleep without a notification |
| CountDowns.WaitsForDowns | base/CountDown.h:26-33 | In every run, a thread that gets the mutex in `wait` returns exactly if there have been enough calls of `down` |
| CountDowns.CountDown.Down | base/CountDown.h:16-24 | Nobody is woken before the last call that is needed, nobody is left asleep after it, and no waiting thread is forgotten |
| CountDowns.CountDown.WaitRegion | base/CountDown.h:26-33 | The thread returns if and only if there have been as many calls of `down` as the latch was set to, and sleeps otherwise |
| CountDowns.Serve | base/CountDown.h:12-33 | A latch object taken through any run opens after enough calls of `down`, not before, and for everybody |
| Condition.SignalCovers | base/Condition.h:42-45 | A unit of work announced with one signal, whichever waiters it wakes, leaves every unit with a woken thread coming for it |
| Condition.LeaveCovers | base/Condition.h:25-28 | A thread that takes a unit, notified for it or not, leaves the rest covered |
| EventLoops.NoLostWakeup | net/EventLoop.cpp:48-109 | Unless the loop thread posts before `loop`, it is never inside `poll` with functors pending or `_quit` set while the eventfd is not readable and nobody is about to write it |
| EventLoopProgress.IterationExecutesAll | net/EventLoop.cpp:48-95 | From `poll` in every reachable state, one iteration executes everything posted so far and leaves the eventfd unreadable |
| EventLoopProgress.QuitEndsTheLoop | net/EventLoop.cpp:48-65 | With `_quit` set, that iteration is the last one and `loop` returns |
| EventLoops.QuitsOnlyIfTold | net/EventLoop.cpp:48-65 | In every run `_quit` is set exactly if `quit` was called, and `loop` has returned only then |
| EventLoops.ReadableIfWritten | net/EventLoop.cpp:96-109 | In every run the eventfd is readable exactly if it was written since it was last read, so one read quiets `poll` |
| EventLoops.StrandedExactly | net/EventLoop.cpp:67-75 | The loop sleeps on pending work if and only if that work was posted by the loop thread before `loop` and no other wake-up is around; never on `_quit` |
| EventLoops.EarlyPostIsStranded | net/EventLoop.cpp:67-75 | One post by the loop thread before `loop` does strand it |
| EventLoops.ExecutedInPostingOrder | net/EventLoop.cpp:67-95 | Functors started, then the rest of the batch, then those queued are exactly the functors posted in the run, in lock order, including posts by running functors |
| EventLoops.HandleReadSucceeds | net/EventLoop.cpp:103-109 | `handleRead` never finds the counter at zero |
| EventLoops.StepKeepsAnnounced | net/EventLoop.cpp:60-109 | Every step leaves a wake-up coming for work the current iteration will not see |
| EventLoops.EventLoop.RunInLoop | net/EventLoop.cpp:67-75 | The functor comes behind all others posted; the caller goes without a wake-up only if the loop thread will swap before it polls, or has not started |
| EventLoops.EventLoop.QuitLoop | net/EventLoop.cpp:60-65 | `_quit` is set; the caller goes without a wake-up only if the loop thread is not inside `poll` |
| EventLoops.EventLoop.CheckQuit | net/EventLoop.cpp:49 | Whenever `poll` is about to be entered with work pending, a wake-up is coming, but for a post made before `loop` |
| EventLoops.EventLoop.PollReturns | net/EventLoop.cpp:50-54 | Everything swapped out before has been executed, and `handleRead` is scheduled only with a positive counter |
| EventLoops.EventLoop.BeginTasks | net/EventLoop.cpp:84-85 | What was posted and not executed is all in the list that is swapped next; the loop thread's own posts need a wake-up from here on |
| EventLoops.EventLoop.FinishTasks | net/EventLoop.cpp:94 | The whole batch has been executed, and whatever was posted meanwhile has a wake-up coming |
| EventLoops.EventLoop.SwapFunctors | net/EventLoop.cpp:86-90 | The batch is everything posted and not yet executed, whoever posted it; no post is stranded any more |
| EventLoops.EventLoop.BeginFunctor | net/EventLoop.cpp:91-93 | The functor started is the first one ever posted that has not been started |
| EventLoops.EventLoop.Wakeup | net/EventLoop.cpp:96-102 | The eventfd is readable afterwards, even if the write is refused for overflow |
| EventLoops.EventLoop.HandleRead | net/EventLoop.cpp:103-109 | The value read is positive, so the read succeeds, and the counter is zero; the invariant that no pending work is left without a wake-up survives the reset |
| EventLoops.EventLoop.EndFunctor | net/EventLoop.cpp:92 | When a functor returns, whatever is queued has a wake-up coming |
| EventLoops.Serve | net/EventLoop.cpp:48-109 | A loop object taken through any run: posting order, no lost wake-up, the exact condition for sleeping on work, `_quit` and the eventfd as the run's actions say, read off its fields |
| BufferRuns.Replay | net/Buffer.h:20-35 | Any sequence of operations, up to the first the caller or kernel must not do, leaves exactly the bytes of a plain sequence; the vector never exceeds max(1032, 2P + 7) for the peak P; a safe history is performed to its end; the `int` indices cannot overflow below a stated peak |
| Buffers.SizeAfterBounded | net/Buffer.h:20-35 | Growing only when compaction would not make room keeps the size within the bound |
| Buffers.Buffer.MakeRoom | net/Buffer.h:21-32 | The room is there, the window's bytes are unchanged, the vector grows only if even the compacted layout is too small, and the window only moves left, to index 8 |
| Buffers.Buffer.Compact | net/Buffer.h:26-30 | The overlapping copy to the left from an index above 8 preserves the window |
| Buffers.Buffer.Append | net/Buffer.h:20-35 | The readable bytes are the old ones followed by the new, with the exact new size and peak |
| Buffers.Buffer.constructor | net/Buffer.h:15-18 | Empty, 1032 bytes, window at 8, whatever size was asked for |
| Buffers.Buffer.Prepend | net/Buffer.h:89-93 | The readable bytes are the new ones followed by the old |
| Buffers.Buffer.Retrieve | net/Buffer.h:123-130 | Drops a prefix, or everything, and resets the indices in that case |
| Buffers.Buffer.RetrieveAll | net/Buffer.h:130 | Nothing is left and the window is back at 8 |
| Buffers.Buffer.RetrieveAsString | net/Buffer.h:139-143 | Returns the prefix and drops it |
| Buffers.Buffer.ReadFromFd | net/Buffer.cpp:10-29 | For every count `readv` may return, within the writable bytes or spilling into the block on the stack, exactly its bytes are appended in order; on failure nothing changes |
| Buffers.Buffer.FindCrlf | net/Buffer.h:113-117 | The first CR LF among the readable bytes, None if and only if there is none |
| Buffers.Buffer.FindEol | net/Buffer.h:118-121 | The first line feed among the readable bytes, None if and only if there is none |
| IntegerCodec.RoundTrip | net/Buffer.h:40-88 | Integers of mixed widths appended to any buffer, wherever its window lies, and read with the same widths come back unchanged, and so do the bytes before and behind them, across growth, compaction and resets |
| IntegerCodec.HeaderRoundTrip | net/Buffer.h:89-106 | Prepending an integer within the headroom and reading it restores the contents |
| IntegerCodec.FromToBytes | net/Buffer.h:40-68 | Decoding inverts encoding for every signed value of the width |
| IntegerCodec.ToFromBytes | net/Buffer.h:53-68 | Encoding inverts decoding: every byte string of the width is the encoding of its value |
| IntegerCodec.NetworkOrder | net/Buffer.h:45-48 | The most significant octet comes first, spelled out for 32 bits |
| IntegerCodec.OctetOrder | net/Buffer.h:40-52 | In each of the four widths the encoding has 1, 2, 4 or 8 octets, and each is the one of its weight, the most significant first |
| IntegerCodec.Ranges | net/Buffer.h:40-52 | The values that can be encoded are exactly those of the signed 8, 16, 32 and 64 bit types |
| IntegerCodec.PeekInt | net/Buffer.h:53-68 | The value of the first bytes, which stay |
| IntegerCodec.AppendInt | net/Buffer.h:40-52 | The encoding joins the readable bytes at their end |
| IntegerCodec.PrependInt | net/Buffer.h:94-106 | The encoding joins the readable bytes at their start |
| IntegerCodec.ReadInt | net/Buffer.h:69-88 | The value of the first bytes, which are dropped and no others |
| IntegerCodec.AppendItems | net/Buffer.h:40-52 | A list of integers of mixed widths is appended in order |
| IntegerCodec.ReadItems | net/Buffer.h:69-88 | Reading stops exactly where the written integers end |
| IntegerCodec.ReadItem | net/Buffer.h:69-88 | The first integer comes back and what is behind it stays |
| LineFraming.Receive | net/Buffer.h:113-148 | Extracting lines after every chunk gives the lines and leftover of the whole stream, however it was cut, even between CR and LF |
| LineFraming.LinesExtend | net/Buffer.h:113-117 | Bytes that arrive later leave complete lines alone and extend only the leftover |
| LineFraming.PrintThenSplit | net/Buffer.h:113-148 | Printed CRLF-free lines followed by an unfinished one are split into exactly those |
| LineFraming.SplitThenPrint | net/Buffer.h:113-148 | Printing what was split gives back the stream |
| LineFraming.PiecesAreCrlfFree | net/Buffer.h:113-117 | No line end is overlooked in a line or the leftover |
| LineFraming.ExtractLines | net/Buffer.h:113-143 | The loop of find, take and skip yields the reference split of the readable bytes and leaves the rest |
| TcpOutput.OutputConservation | net/TcpConnection.cpp:32-111 | For any partial writes and errors, wire bytes followed by waiting bytes are exactly the messages of the run that `send` took on, contiguous and in order; until close, write interest is on exactly if bytes wait |
| TcpOutput.SendIsAllOrNothing | net/TcpConnection.cpp:32-61 | A non-empty message contributes all its bytes, first those `write` took and then the rest to the buffer, if and only if nothing waits, write interest is off and `write` does not fail; otherwise nothing changes |
| TcpOutput.DrainedConnectionAccepts | net/TcpConnection.cpp:38-57 | After any run that left the connection open with nothing waiting, a send whose `write` does not fail is taken on |
| TcpOutput.PartialWritesDrain | net/TcpConnection.cpp:88-104 | Partial writes that add up to what waits bring all of it out in order, empty the buffer and switch write interest off |
| TcpOutput.SecondSendIsLost | net/TcpConnection.cpp:38-51 | After a partial write the next message is lost, for all messages |
| TcpConnections.Serve | net/TcpConnection.cpp:32-111 | The connection object with its buffer, channel and poller goes through any events as the value model does, and while open the kernel is asked for write events exactly if bytes wait |
| TcpConnections.TcpConnection.Send | net/TcpConnection.cpp:32-61 | On the real buffer and channel, `send` is the model's step: with nothing waiting and no write interest, what `write` takes is on the wire and the rest in the buffer |
| TcpConnections.TcpConnection.HandleWrite | net/TcpConnection.cpp:88-104 | On the real buffer and channel, `handleWrite` is the model's step: what `write` takes leaves the buffer for the wire |
| TcpConnections.TcpConnection.HandleClose | net/TcpConnection.cpp:106-111 | The event mask is empty and the connection not connected; the waiting bytes stay |
| TcpConnections.TcpConnection.Established | net/TcpConnection.cpp:63-67 | The kernel is asked for read events, and nothing is sent or waiting |
| TcpConnections.TcpConnection.Destory | net/TcpConnection.cpp:69-74 | The same, and neither the poller nor the kernel has the channel any more |
| Registration.AlwaysConsistent | net/Epoller.cpp:50-84 | After any operations the kernel has the descriptor exactly if the channel is ADDED, `_channels` lists it exactly if it is not NEW, and no `epoll_ctl` call was illegal |
| Registration.UpdateSynchronises | net/Channel.h:35-50 | After any history, each operation that reaches the poller leaves the kernel with the channel's mask |
| Registration.MaskIsWhatWasSwitched | net/Channel.h:35-51 | After any operations the mask holds the read bits exactly if reading was last switched on, likewise the write bit, and nothing else |
| Registration.KernelAfter | net/Epoller.cpp:50-71 | What each operation makes of the kernel's entry: the mask, nothing for a known descriptor with an empty mask, nothing after removal, no change by `disableAll` |
| Registration.DisableAllSynchronisesOnlyIfIdle | net/Channel.h:51 | `disableAll` leaves kernel and channel in agreement if and only if the kernel had no interest in the descriptor |
| Registration.DisableAllIsNotSeenByTheKernel | net/Channel.h:51 | After `enableReading` and `disableAll` they disagree |
| Registration.ReadingStays | net/Channel.h:43-50 | Switching write interest on and off never deregisters a reading channel |
| Epollers.Drive | net/Epoller.cpp:50-84 | Channels with distinct descriptors do not disturb each other: in any schedule each ends where its own operations alone would have taken it |
| Epollers.Epoller.UpdateChannel | net/Epoller.cpp:50-64 | The registration step of one channel; every other channel, its map entry and its kernel entry stay as they were |
| Epollers.Epoller.RemoveChannel | net/Epoller.cpp:65-71 | Likewise for removal |
| Epollers.Epoller.ControlEpoll | net/Epoller.cpp:73-84 | One `epoll_ctl` call: the kernel's table changes for this descriptor only, and not at all if the call is illegal |
| Epollers.Channel.EnableReading | net/Channel.h:35-38 | This channel makes its registration step and no other channel is touched |
| Epollers.Channel.DisableReading | net/Channel.h:39-42 | Likewise |
| Epollers.Channel.EnableWriting | net/Channel.h:43-46 | Likewise |
| Epollers.Channel.DisableWriting | net/Channel.h:47-50 | Likewise |
| Epollers.Channel.DisableAll | net/Channel.h:51 | Only the channel's mask changes; poller and kernel are not told |
| Epollers.Channel.Remove | net/Channel.cpp:34 | This channel makes its removal step and no other channel is touched |
| IntegerFormat.Convert | base/LogStream.cpp:18-38 | Writes the decimal notation of any integer and its terminator, and nothing else |
| IntegerFormat.WriteDigits | base/LogStream.cpp:24-28 | The digit loop with truncating division and the two-sided digit table writes the digits of the absolute value from last to first, the minimum included |
| IntegerFormat.TruncatedDigit | base/LogStream.cpp:10-28 | For every integer, truncating remainder and quotient are the last digit and the rest of its absolute value, and the table has the digit's character for negative remainders too |
| IntegerFormat.ReverseRange | base/LogStream.cpp:35 | The range is reversed in place and nothing else changes |
| IntegerFormat.ConvertHex | base/LogStream.cpp:40-55 | Writes the hexadecimal numeral and its terminator, and nothing else |
| Numerals.DecimalRoundTrip | base/LogStream.cpp:18-38 | Parsing the notation gives the integer back; a minus sign exactly for negative numbers; otherwise digits; no leading zeros |
| Numerals.DecimalLength | base/LogStream.cpp:58-66 | At most 20 characters for all signed and unsigned types up to 64 bits |
| Numerals.ValueOfNumeral | base/LogStream.cpp:40-55 | Parsing a numeral gives the number back, in either base |
| Numerals.NumeralOfValue | base/LogStream.cpp:40-55 | A digit string without superfluous zeros is the numeral of its value |
| Numerals.NumeralHasNoLeadingZero | base/LogStream.cpp:40-55 | Numerals consist of digits of their base and start with zero only for zero |
| Numerals.HexLength | base/LogStream.cpp:40-55 | At most 16 hexadecimal digits for a 64-bit address |
| LogStreams.Stream | base/LogStream.h:17-52 | A line built by any chain of insertions of any type holds exactly the tokens that found room, in order, each followed by one space; length and rest add up to the buffer size |
| LogStreams.LineReadsBack | base/LogStream.cpp:68-161 | Split at its spaces, a line has one word per token: numbers parse to themselves, true and false to 1 and 0, characters and texts are themselves, a null C string is "(null)", an address lacks its last two digits |
| LogStreams.KeptExactly | base/LogStream.cpp:58-161 | Integers, bools, addresses and floating-point numbers are kept exactly if 32 characters are free, texts exactly if they and their space fit |
| LogStreams.KeepsAllThatFit | base/LogStream.h:30-37 | No token is skipped as long as the line leaves 31 characters free |
| LogStreams.InsertAll | base/LogStream.cpp:68-161 | The chain of insertions on the line's own buffer |
| LogStreams.IntegerRoomSuffices | base/LogStream.cpp:58-66 | The 32 characters an integer asks for hold it, its sign and the terminator |
| LogStreams.TokensReadBack | base/LogStream.cpp:68-161 | Splitting a line at its spaces gives the tokens back |
| LogStreams.IntegersReadBack | base/LogStream.cpp:88-117 | A line of integers, split and parsed, gives the integers back |
| LogStreams.LogStream.FormatInteger | base/LogStream.cpp:58-66 | The notation and a space over the terminator if 32 characters are free, otherwise nothing |
| LogStreams.LogStream.ConvertAt | base/LogStream.cpp:63 | The notation stands right behind the text, which is unchanged |
| LogStreams.LogStream.FormatAddress | base/LogStream.cpp:132-144 | Prefix and digits are written but the length counts the digits only: the last two are cut off |
| LogStreams.AddressesShownAlike | base/LogStream.cpp:132-144 | Two addresses look the same exactly if they differ at most in the last byte and neither or both have one digit; none is ever shown in full |
| LogStreams.LogStream.FormatFloating | base/LogStream.cpp:123-131 | What `snprintf` prints and a space over the terminator if 32 characters are free, otherwise nothing |
| LogStreams.LogStream.Insert | base/LogStream.cpp:68-161 | One insertion appends the token's characters and a space, or nothing |
| FixedBuffers.FixedBuffer.Append | base/LogStream.h:30-37 | The message and a space, or nothing at all, and length plus rest stays the size |
| FixedBuffers.FixedBuffer.AddLength | base/LogStream.h:25-29 | The characters in place join the text, and the one behind them becomes a space |
| FixedBuffers.FixedBuffer.Clear | base/LogStream.h:23 | The text is empty again |
| EventLoopThreadPools.Distribute | net/EventLoopThreadPool.cpp:24-34 | In any window of m calls every one of n loops is returned m/n times, rounded down or up, wherever the index stood |
| EventLoopThreadPools.FairShare | net/EventLoopThreadPool.cpp:24-34 | The same for the sequence of indices |
| EventLoopThreadPools.EventLoopThreadPool.GetNextLoop | net/EventLoopThreadPool.cpp:24-34 | The base loop if there are no others, otherwise the loop at the index, which moves on cyclically and stays in range |
| EventLoopThreadPools.EventLoopThreadPool.Start | net/EventLoopThreadPool.cpp:11-22 | The loops of the new threads are appended in order |

## Left out

- Time: `poll(1000)` and `wait(3)` may return at any moment; nothing is said about how long anything takes.
- Data races and memory ordering: steps are sequentially consistent, and the unlocked flags `_isRuning` and `_isRunning` are read and written atomically.
- `ThreadPool::stop`: the pool is modelled between `start` and `stop`. Exceptions thrown by tasks, tasks that call `run` on their own pool, and empty `std::function` tasks are not modelled.
- AsyncLoggings.AsyncLogging.Start: `start` is one step with the prologue of `run`, and is called once.
- AsyncLoggings.AsyncLogging.WriteOne: takes `fwrite` to be complete; what `fwriten` does otherwise is in FileOutput, and with a short write the file would not be a prefix of the history. Opening and flushing the file are left out.
- AsyncLoggings.AsyncLogging.Stop: the `notify` behind it is not needed, because the timed wait may end at any moment, and the `join`, which waits until the writer is done, does nothing to the state.
- AsyncLoggings.AsyncLogging.Recycle: the buffers the original frees when it shrinks or clears the batch just become unreachable.
- Interleaving on objects: a class method is one uninterrupted step; which thread executes it is up to the run. Memory is shared by construction, and the mutex itself is not an object.
- EventLoops: functors and handlers are opaque and terminate; they may post and quit. Destruction of the loop, `assert`-like fatal logging and `_context` are left out.
- Epollers.Epoller.ControlEpoll: `epoll_ctl` fails only when it adds a known descriptor or changes an unknown one; other errors are left out.
- `Epoller::poll` and `Channel::handleEvent`: dispatching active events to callbacks.
- Registration: masks have the three bits the library uses (POLLIN, POLLPRI, POLLOUT).
- TcpConnections: write-complete, high-water-mark and connection callbacks are left out and so must not re-enter `send`; `handleRead` is Buffers.Buffer.ReadFromFd followed by a callback. `_highWaterMark` is never initialised in the original.
- BufferRuns.Replay: indices are unbounded integers; its last clause says when the original's `int` indices cannot overflow.
- CountDowns: the count is an unbounded integer and does not wrap around.
- IntegerCodec: one member stands for each of the four widths that the original writes out; the host's byte order disappears behind `htobe` and `betoh`.
- LogStreams.LogStream.FormatFloating: the characters of a floating-point number are whatever `snprintf` prints for `%.12g`, fewer than 32.
- Lengths passed as `int` are natural numbers here; negative lengths are outside the interfaces.
- `TcpServer`, `Acceptor`, `Sockets`, `INetAddress`, `EventLoopThread`, `Thread`, `Exception`, `CurrentThread`, the time stamp and level fields of `Logging`, and object lifetimes behind shared pointers.
