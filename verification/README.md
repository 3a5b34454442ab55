# A Dafny model of ccnet

ccnet is a C++ network library in the reactor style: an event loop with timers, an epoll poller, buffered TCP
connections, logging and time utilities, and an example server that solves Sudoku puzzles by dancing links. This
project models its hardest logic and proves what that logic is meant to guarantee.

The state of each component is a value with pure step functions; the program's asserts, refused system calls, null
buffers and uses of freed memory are an outcome `Crash`. Lemmas speak about every step and every run of these
functions. Beside them stand classes and methods in the form of the source, updating fields, arrays and vectors in
place, whose postconditions tie them to the step functions.

| file | component |
|---|---|
| `DancingLinks.dfy`, `ExactCover.dfy`, `PoolBuilding.dfy`, `SudokuSearch.dfy`, `SudokuRules.dfy`, `SudokuEncoding.dfy`, `SudokuPuzzle.dfy` | the Sudoku solver: link structure, exact cover, construction of the pool, search, rules of the game, and the encoding between them |
| `Timers.dfy`, `TimerFirings.dfy`, `TimerSchedules.dfy`, `TimerQueue.dfy` | the timer queue: its steps, what fires, how often and when, and the queue object |
| `Buffer.dfy`, `TcpOutput.dfy`, `TcpConnection.dfy` | the byte buffer and the output path of a connection |
| `EventLoop.dfy` | handing functors to a loop from any thread |
| `Poller.dfy`, `Lifecycle.dfy`, `TcpServer.dfy` | channel registration and the life of a server's connections |
| `CDivision.dfy`, `Calendar.dfy`, `TimeZone.dfy` | C's division, Julian day numbers, UTC and local time |
| `AsyncLogging.dfy`, `LogStream.dfy` | double-buffered logging and integer formatting |
| `Outcomes.dfy`, `ConnectionStates.dfy`, `Sequences.dfy` | what several components share |

`dafny verify dfyconfig.toml` checks all of it.

Where a promise of the code does not hold for all inputs, the code is kept as it is and the exact condition is proved:

- A connection may be closed safely, whatever happens afterwards, if and only if its channel still has interest. If
  reading was stopped and nothing is to be written, `disableAll` registers the channel again with an empty mask, and
  a hang-up reported before the connection is destroyed fails the assert in `handleClose`
  (`Lifecycle.CloseExact`, `Lifecycle.StoppedReadingFails`). Of a server's events exactly these closings, and hang-ups
  reported together with priority input but no input whose read callback then closes or changes interest, are unsafe
  (`Lifecycle.StepExact`).
- A loop never sleeps over queued functors if and only if it is entered with an empty queue or with a wakeup written
  or owed (`EventLoops.NeverAsleep`).
- The conversion of Julian day numbers is a bijection from -4800-03-01 on and not before, because C's division
  truncates (`Calendar.DecodeExact`, `Calendar.EncodeExact`).
- Local time survives the round trip if and only if the local time is not about to repeat or daylight-saving time is
  exactly one hour ahead (`TimeZones.LocalExact`, `TimeZones.HalfHourFails`).
- Every appended line is in the file or on its way if and only if every line is shorter than a buffer and no batch
  has more than 25 buffers (`AsyncLogs.EveryRun`, `AsyncLogs.LongLineLost`, `AsyncLogs.TrimmedBatchLoses`). What is on
  its way when the writing thread leaves its loop is never written (`AsyncLogs.ExitIsFinal`).

Two comments of the source disagree with its code, and the model follows the code: `readInt64` (net/buffer.h:247-256)
needs eight readable bytes, not four; `Date` (base/date.h:27-32) is not limited to the years 1900 to 2500.

## Model

| member | source | states |
|---|---|---|
| DancingLinks.RelinkUndoesUnlink | net/sudoku/sudoku.cc:224-237 | putting a node back into its column restores the whole pool, sizes included |
| DancingLinks.HRelinkUndoesHUnlink | net/sudoku/sudoku.cc:220-241 | putting a header back restores the whole pool |
| DancingLinks.CoverGood | net/sudoku/sudoku.cc:218-229 | on any well-formed pool of any size, cover yields a well-formed pool with exactly that column gone and exactly the rows all of whose columns are live still linked |
| DancingLinks.CoverAllGood | net/sudoku/sudoku.cc:120-122 | the same for covering several different live columns one after the other |
| DancingLinks.UncoverUndoesCover | net/sudoku/sudoku.cc:218-242 | uncover after cover restores every link and every size, for any well-formed pool |
| DancingLinks.UncoverAllUndoesCoverAll | net/sudoku/sudoku.cc:118-131 | the same under last-in first-out nesting of any depth |
| DancingLinks.MidwayConsistent | net/sudoku/sudoku.cc:222-228 | halfway through a cover the pool links exactly what has not been taken out, so the walks that continue it stay on their rings |
| ExactCover.ExtendCover | net/sudoku/sudoku.cc:116-125 | a row together with an exact cover of the columns it leaves is an exact cover |
| ExactCover.SplitCover | net/sudoku/sudoku.cc:116-125 | every exact cover contains a row through any chosen column, and the rest of it covers what that row leaves |
| ExactCover.NoRowNoCover | net/sudoku/sudoku.cc:116-132 | a column that none of the remaining rows can cover leaves no exact cover |
| PoolBuilding.AddHeader | net/sudoku/sudoku.cc:144-165 | appending a column keeps the pool complete and well formed, with one more empty column |
| PoolBuilding.AddNode | net/sudoku/sudoku.cc:167-184 | a new row node keeps it so, at the end of its column, which grows by one |
| PoolBuilding.AddRow | net/sudoku/sudoku.cc:82-88 | joining four nodes of different columns keeps it so, with one more row of those four columns |
| SudokuSearch.SudokuSolver.CoverColumn | net/sudoku/sudoku.cc:218-229 | the in-place loops compute cover |
| SudokuSearch.SudokuSolver.UncoverColumn | net/sudoku/sudoku.cc:231-242 | the in-place loops restore the pool from before the cover |
| SudokuSearch.SudokuSolver.MinColumn | net/sudoku/sudoku.cc:201-216 | the first live column with at most one row, or else the first with the fewest rows |
| SudokuSearch.SudokuSolver.ReadEntry | net/sudoku/sudoku.cc:99-108 | the walk round a row ends and finds the row's cell and value, from whichever of its nodes it starts |
| SudokuSearch.SudokuSolver.WriteBoard | net/sudoku/sudoku.cc:97-114 | every chosen row is written to its cell, nothing else changes |
| SudokuSearch.SudokuSolver.CoverRest | net/sudoku/sudoku.cc:120-122 | the other columns of the chosen row are covered from left to right |
| SudokuSearch.SudokuSolver.UncoverRest | net/sudoku/sudoku.cc:127-129 | uncovering them from right to left restores the pool |
| SudokuSearch.SudokuSolver.Solve | net/sudoku/sudoku.cc:95-133 | terminates; true if and only if the live columns have an exact cover; on true the rows on the stack are one and are on the board; on false nodes, stack and board are as on entry |
| SudokuSearch.SudokuSolver.Branch | net/sudoku/sudoku.cc:116-132 | the same for the part of solve that tries the rows of one column |
| SudokuSearch.SudokuSolver.TryOne | net/sudoku/sudoku.cc:119-129 | one row: found with its cover, or everything put back and no cover contains it |
| SudokuRules.NineOfNine | net/sudoku/sudoku.cc:64-71 | nine cells in which each of the values 1 to 9 occurs are a permutation of them |
| SudokuRules.UnitCellAt | net/sudoku/sudoku.cc:48-50 | row, column and box numbers of a cell name units that contain it |
| SudokuRules.DuplicateUnsolvable | net/sudoku/sudoku.cc:47-55 | a board with a value given twice in a unit has no completion |
| SudokuEncoding.CoverCompletes | net/sudoku/sudoku.cc:57-92 | writing any exact cover to the board completes it and keeps the givens |
| SudokuEncoding.SolutionCovers | net/sudoku/sudoku.cc:57-92 | every completion of the board is an exact cover of its pool |
| SudokuEncoding.EncodingCorrect | net/sudoku/sudoku.cc:57-92 | the exact-cover problem has a solution if and only if the board has |
| SudokuEncoding.DuplicateNoCover | net/sudoku/sudoku.cc:43-92 | repeated givens are never checked, yet leave no exact cover |
| SudokuPuzzle.MarkGivens | net/sudoku/sudoku.cc:43-55 | the tables say exactly which values each unit already shows |
| SudokuPuzzle.PoolBuilder.AppendColumn | net/sudoku/sudoku.cc:158-165 | the new header is in the root's ring and is found by its name; its name was free |
| SudokuPuzzle.PoolBuilder.NewRow | net/sudoku/sudoku.cc:167-184 | the new node is at the bottom of its column |
| SudokuPuzzle.PoolBuilder.AddEntry | net/sudoku/sudoku.cc:82-88 | four nodes become the row of one cell and value |
| SudokuPuzzle.PoolBuilder.BuildCells | net/sudoku/sudoku.cc:57-61 | one column for each empty cell and no other |
| SudokuPuzzle.PoolBuilder.BuildUnits | net/sudoku/sudoku.cc:63-72 | one column for each value a unit lacks and no other |
| SudokuPuzzle.PoolBuilder.BuildRows | net/sudoku/sudoku.cc:74-92 | one row for each value an empty cell can take and no other; the pool's fixed size suffices |
| SudokuPuzzle.SolveBoard | net/sudoku/sudoku.cc:33-133 | for every board: true if and only if it can be completed; then the board is a completion, otherwise it is unchanged |
| SudokuPuzzle.SolveSudoku | net/sudoku/sudoku.cc:263-291 | for every 81 characters: the completed puzzle, or NoSolution exactly if a character is no digit or there is no completion |
| Timers.InsertSorted | net/timer_queue.cc:255-266 | inserting keeps the order and adds exactly that entry; the first one changes exactly if the new one is earlier |
| Timers.EraseSorted | net/timer_queue.cc:154-155 | erasing keeps the order and removes exactly that entry |
| Timers.HowMuchTimeFromNow | net/timer_queue.cc:34-48 | seconds and nanoseconds add up to the time left, at least 100 microseconds |
| Timers.StepSafe | net/timer_queue.cc:132-275 | add, cancel, and every part of a batch fail no assert, touch and free only live timers, and keep both indexes in step, the batch apart from them and sequence numbers unique |
| Timers.EveryRunSafe | net/timer_queue.cc:132-275 | so does every run, whatever the callbacks add and cancel and however addresses are reused |
| Timers.SizesAgree | net/timer_queue.cc:149-273 | both indexes have the same size whenever they agree, inside insert and getExpired too |
| Timers.CancelledNeverFires | net/timer_queue.cc:146-164 | a pending timer that is cancelled fires in no later run |
| Timers.CancelTouchesOne | net/timer_queue.cc:146-164 | a cancel leaves every timer with another sequence number as it is, at whatever address |
| Timers.CancelledInBatch | net/timer_queue.cc:159-234 | a timer cancelled by any callback of its own batch is deleted when the batch ends and fires in no later run, whatever happens in between |
| Timers.DoomedRun | net/timer_queue.cc:179-234 | the same from any later point of the batch |
| Timers.ResetAllOutcome | net/timer_queue.cc:215-234 | reset keeps the timers outside the batch, reschedules exactly the repeating ones not cancelled, and deletes the others |
| Timers.RunDead | net/timer_queue.cc:146-245 | a deleted timer's sequence number never fires again |
| Timers.BatchExact | net/timer_queue.cc:191-212 | a batch is exactly the timers due, in order of expiration, and none of them stays in an index |
| TimerFirings.BatchFires | net/timer_queue.cc:168-187 | one handleRead fires exactly the timers due, each once, in order of expiration, whatever its callbacks do |
| TimerFirings.ShotRun | net/timer_queue.cc:168-245 | in any run a timer without interval fires at most once, and never after its turn |
| TimerFirings.FiresAtMostOnce | net/timer_queue.cc:115-245 | a timer added without interval, at any point of any run, fires at most once in its life |
| TimerSchedules.AddedIs | net/timer_queue.cc:115-142 | an added timer is pending with the expiration and interval it was added with, no other timer changes, and the timerfd is armed for it, at least 100 microseconds ahead, exactly if it is earlier than all others |
| TimerSchedules.FiresOnSchedule | net/timer_queue.cc:115-245 | a timer added at any point of any run and not cancelled fires exactly once in every batch that begins at or after the time it is due, and in no other; if it repeats it is next due one interval after that batch, otherwise it is gone |
| TimerSchedules.TrackRun | net/timer_queue.cc:168-245 | the same from and to any point of a run, in the middle of a batch too |
| TimerSchedules.BeginReads | net/timer_queue.cc:168-173 | when a batch begins an expired timerfd is consumed, and one armed for later goes on |
| TimerSchedules.EndArms | net/timer_queue.cc:236-245 | when a batch ends the timerfd is armed for the earliest timer left, at least 100 microseconds ahead, and otherwise left as it was |
| Timers.NoTimerForgotten | net/timer_queue.cc:132-245 | between events of any run the timerfd is armed for the earliest timer, or for 100 microseconds after it was last armed |
| TimerLoop.TimerQueue.AddTimerInLoop | net/timer_queue.cc:115-142 | refines the step and keeps the invariant; the timer is in both indexes with the expiration and interval given |
| TimerLoop.TimerQueue.CancelInLoop | net/timer_queue.cc:146-164 | refines the step and keeps the invariant |
| TimerLoop.TimerQueue.TakeExpired | net/timer_queue.cc:191-212 | refines getExpired and returns the batch |
| TimerLoop.TimerQueue.ResetBatch | net/timer_queue.cc:215-245 | the loop refines reset and arms the timerfd again |
| TimerLoop.TimerQueue.HandleRead | net/timer_queue.cc:168-187 | the whole of handleRead, with callbacks that add and cancel, is a run of the steps and keeps the invariant |
| Buffers.DecodeEncode | net/buffer.h:221-320 | every signed integer of any width comes back from its network-order bytes |
| Buffers.EncodeAt | net/buffer.h:221-244 | the bytes are the digits of the integer to base 256, most significant first, for negative integers in two's complement |
| Buffers.EncodeDecode | net/buffer.h:247-320 | every byte string is the encoding of the integer it is read as, which fits its width |
| Buffers.Buffer.Take | net/buffer.h:110-121 | removes exactly the first bytes; an emptied buffer has its reserve in front again |
| Buffers.Buffer.RetrieveAsString | net/buffer.h:161-167 | the bytes returned and those left are the contents from before |
| Buffers.Buffer.MakeSpace | net/buffer.h:387-406 | contents unchanged and room for the request; contents are moved only if more than eight bytes are free in front, and then exactly eight remain |
| Buffers.Buffer.EnsureWritableBytes | net/buffer.h:191-198 | contents unchanged and room for the request; nothing moves if there was room |
| Buffers.Buffer.Put | net/buffer.h:179-184 | appends the bytes |
| Buffers.Buffer.TakeBack | net/buffer.h:212-216 | removes exactly the last bytes |
| Buffers.Buffer.PutFront | net/buffer.h:351-357 | puts the bytes in front |
| Buffers.Buffer.ShrinkTo | net/buffer.h:359-366 | contents unchanged, eight bytes in front, and exactly as much behind as reserved |
| Buffers.Buffer.ReadFd | net/buffer.cc:28-63 | appends exactly what was read, whether or not it overflowed into the second area; nothing on failure |
| Buffers.Buffer.PrependInt | net/buffer.h:325-349 | puts the network-order bytes of the integer in front |
| Buffers.Buffer.WriteThenRead | net/buffer.h:218-281 | integers of mixed widths appended in turn to any buffer are read back in order, after what was there |
| Buffers.Buffer.PerformAll | net/buffer.h:110-366 | any sequence of operations acts on the contents as on a queue of bytes up to the first failing assert; without prepends eight bytes stay free in front |
| TcpOutput.StepInv | net/tcp_connection.cc:141-371 | every step keeps: kernel bytes then buffered bytes are the accepted ones, write interest exactly while bytes wait, at most one shutdown and with nothing waiting |
| TcpOutput.EveryRun | net/tcp_connection.cc:141-216 | all of this after every run of a connection, for any partial writes |
| TcpOutput.Conservation | net/tcp_connection.cc:141-194 | kernel bytes then buffered bytes are the messages sent while connected, in order, less those dropped whole |
| TcpOutput.RunAfterShutdown | net/tcp_connection.cc:197-216 | in any run after the shutdown no byte is written or accepted |
| TcpOutput.WriteCompleteDrained | net/tcp_connection.cc:159-162 | write-complete is queued only when every accepted byte is with the kernel |
| TcpOutput.HighWaterEdge | net/tcp_connection.cc:181-187 | between two high-water notifications the buffered length was below the mark |
| TcpOutput.ShutdownHappens | net/tcp_connection.cc:197-216 | in every run in which shutdown was called while connected, the half-close has happened if and only if every accepted byte is with the kernel, as long as the connection is not closed; without forceClose, disconnecting with nothing buffered means half-closed |
| TcpOutput.HalfCloseRun | net/tcp_connection.cc:348-371 | what every run keeps for this, force-closes included |
| TcpOutput.WriteShuts | net/tcp_connection.cc:357-369 | a write half-closes exactly if it empties the buffer of a disconnecting connection |
| TcpOutput.WireStep | net/tcp_connection.cc:141-194 | a write of n bytes puts exactly the first n waiting bytes on the wire, directly only while nothing is buffered; nothing else writes |
| TcpOutput.CompleteExact | net/tcp_connection.cc:159-162 | write-complete is queued if and only if it is wanted and a write took all there was |
| TcpOutput.HighWaterExact | net/tcp_connection.cc:181-187 | high-water is queued, with the new length, if and only if it is wanted and the length rises from below the mark to it or above |
| TcpOutput.StateStep | net/tcp_connection.cc:141-404 | sends, writes and notifications never change state or reading; shutting down and forced closing disconnect in two stages, and only closing ends reading besides stopRead |
| TcpConnections.TcpConnection.SendMessage | net/tcp_connection.cc:141-194 | refines the step on an object with a byte buffer and keeps the invariant |
| TcpConnections.TcpConnection.ShutdownWrite | net/tcp_connection.cc:197-216 | refines the step and keeps the invariant |
| TcpConnections.TcpConnection.OnWritable | net/tcp_connection.cc:348-371 | refines the step and keeps the invariant; half-closes exactly if it empties the buffer of a disconnecting connection |
| TcpConnections.TcpConnection.ForceCloseLater | net/tcp_connection.cc:219-227 | refines the step and keeps the invariant |
| TcpConnections.TcpConnection.ForceCloseNow | net/tcp_connection.cc:241-249 | refines the step and keeps the invariant |
| TcpConnections.TcpConnection.OnClose | net/tcp_connection.cc:390-404 | refines the step and keeps the invariant |
| EventLoops.HandOffInOrder | net/event_loop.cc:168-293 | under every interleaving, executed functors, the rest of the batch and the queue are the pushes in order |
| EventLoops.NextInv | net/event_loop.cc:111-293 | every step of any thread keeps: queued work at the test, in poll or while running comes with a wakeup written or owed, a stopped loop was quit, quit is for good, and no poll begins after it |
| EventLoops.NeverAsleep | net/event_loop.cc:103-181 | no run leaves the loop in poll over queued work without a wakeup, if and only if loop() is entered with an empty queue or a wakeup written or owed |
| EventLoops.QuitEndsPolling | net/event_loop.cc:111-150 | under every interleaving a loop outside poll when quit is set never polls again, and a stopped loop stays so |
| EventLoops.StopsOnlyByQuit | net/event_loop.cc:103-150 | in every run the flag is set if and only if quit was called, and the loop stops only then |
| EventLoops.QuitStops | net/event_loop.cc:138-150 | from every state quit and its wakeup can be followed by steps that end in a stopped loop, out of poll too |
| EventLoops.CounterExact | net/event_loop.cc:168-181 | after every run the eventfd counts the wakeups since it was last read: one for each push of another thread, and for the loop thread's own pushes exactly while it calls functors |
| EventLoops.RoundRuns | net/event_loop.cc:288-291 | at every moment of a round, under every interleaving, executed functors and the rest of the batch are what they were at the swap |
| EventLoops.RoundDrains | net/event_loop.cc:278-293 | under every interleaving, when a round ends it has executed all that was queued at the swap, in order, and nothing queued later |
| EventLoops.RoundCanEnd | net/event_loop.cc:288-292 | a round can always be brought to its end |
| EventLoops.EventLoop.QueueInLoop | net/event_loop.cc:168-181 | refines push and wakeup, from the loop thread and from others |
| EventLoops.EventLoop.DoPendingFunctors | net/event_loop.cc:278-293 | executes what was queued up to the swap, in order; what functors and other threads queue meanwhile waits for the next round, for which a wakeup is pending |
| Pollers.SetMaskSafe | net/epoller.cc:116-158 | any mask change of any channel fails no assert and no epoll_ctl, registers the mask, and keeps index, map and kernel in agreement |
| Pollers.RemoveSafe | net/epoller.cc:161-180 | so does removing a channel without interest, which is then new again |
| Pollers.EventsAreMapped | net/epoller.cc:99-113 | what the kernel can report is a mapped, added channel with its current mask |
| Pollers.EveryRunSafe | net/epoller.cc:116-180 | in every run of registrations the three views agree: added means in map and kernel with the mask, deleted in the map only, new in neither |
| Pollers.EPollPoller.UpdateChannel | net/epoller.cc:116-158 | refines the step and keeps the agreement |
| Pollers.EPollPoller.RemoveChannel | net/epoller.cc:161-180 | refines the step and keeps the agreement |
| Pollers.EPollPoller.FillActiveChannels | net/epoller.cc:99-113 | the active channels are those of the events, in order, and the asserts hold |
| Lifecycle.StepExact | net/tcp_connection.cc:303-404 | an event of a server fails no assert, nor does any run after it, if and only if it is sound: it closes live connections only while they have interest, and closes or re-registers none that it has just closed |
| Lifecycle.InvExact | net/tcp_connection.cc:303-404 | exactly the sound events fail no assert and keep the invariant of all connections |
| Lifecycle.EveryRunSafe | net/tcp_server.cc:81-129 | every run of sound events fails no assert; each connection is erased once and its channel removed once after that; once no functor waits every connection ever accepted is live or removed |
| Lifecycle.ReportedLive | net/channel.cc:79-110 | only live connections are reported by the kernel |
| Lifecycle.CloseSilences | net/tcp_connection.cc:390-397 | after handleClose the kernel can report the connection if and only if it had no interest |
| Lifecycle.EstablishReads | net/tcp_connection.cc:303-312 | a new connection is connected, and the kernel can report its input and has nothing to report about writing |
| Lifecycle.EstablishedReads | net/tcp_connection.cc:303-371 | after every orderly run from there that neither closes it nor stops its reading the kernel can still report its input, output drained or not |
| Lifecycle.ReadingRun | net/tcp_connection.cc:278-371 | the same for every connection that reads |
| Lifecycle.InterestExact | net/tcp_connection.cc:278-301 | after a change of interest the kernel can report exactly what was asked for |
| Lifecycle.DrainStopsWriting | net/tcp_connection.cc:348-362 | draining the output ends the interest in writing and leaves that in reading |
| Lifecycle.StepOthers | net/channel.cc:79-110 | an event changes no connection but its own: neither state nor channel nor place in the server |
| Lifecycle.StateMoves | net/tcp_connection.cc:197-404 | states only move forward; a live connection is disconnected exactly by the events that close it, and only a disconnected one goes |
| Lifecycle.CloseHappens | net/tcp_connection.cc:390-404 | a sound closing leaves the connection disconnected, beyond any report of the kernel, and due for removal |
| Lifecycle.ClosedGoes | net/tcp_server.cc:111-129 | its two functors can then run: it is erased, its channel is removed and it is gone |
| Lifecycle.CloseExact | net/tcp_connection.cc:390-404 | closing, in or out of a dispatch, is safe in all that may follow if and only if the connection has interest |
| Lifecycle.HauntedFails | net/tcp_connection.cc:390-404 | from any state with a closed but registered connection a run of sound events leads to a failing assert |
| Lifecycle.StoppedReadingFails | net/tcp_connection.cc:288-301 | the failing case is reached by a run: establish, stop reading, force-close |
| TcpServers.TcpServer.NewConnection | net/tcp_server.cc:81-109 | refines accepting a connection and keeps the invariant |
| TcpServers.TcpServer.ConnectEstablished | net/tcp_connection.cc:303-312 | refines the step and keeps the invariant; the connection is connected and the kernel can report its input |
| TcpServers.TcpServer.OnClose | net/tcp_connection.cc:390-404 | refines closing, with or without interest |
| TcpServers.TcpServer.OnReadable | net/tcp_connection.cc:327-346 | refines the read callback |
| TcpServers.TcpServer.HandleEvent | net/channel.cc:79-110 | close, read and write callbacks in the source's order refine one event, and keep the invariant if and only if it is sound |
| TcpServers.TcpServer.ForceCloseInLoop | net/tcp_connection.cc:241-249 | refines the step, and keeps the invariant if and only if it is sound |
| TcpServers.TcpServer.RemoveConnectionInLoop | net/tcp_server.cc:118-129 | the connection is there and is erased |
| TcpServers.TcpServer.ConnectDestroyed | net/tcp_connection.cc:314-325 | the channel is removed without a failing assert and the connection is gone, from either state in which it is called |
| Calendar.DecodeExact | base/date.cc:26-39 | a day number yields a date of the Gregorian calendar exactly from -4800-03-01 on, and then encodes back to itself |
| Calendar.EncodeExact | base/date.cc:17-39 | a date comes back from its day number exactly if it is not before -4800-03-01 |
| Calendar.JulianDayOrder | base/date.cc:17-24 | day numbers are ordered as dates are |
| Calendar.JulianDayCounts | base/date.cc:17-24 | the next date, by month lengths and leap years, has the next number; 1970-01-01 is 2440588, a Thursday |
| Calendar.WeekDayCycles | base/date.h:93-97 | week days follow each other, and are in range exactly if the remainder is not negative |
| Calendar.DecodeFitsExact | base/date.cc:26-39 | no intermediate value overflows 32 bits exactly from day -536902956 to day 536838867 |
| Calendar.EncodeFitsToo | base/date.cc:17-24 | nor does encoding what was so decoded |
| Calendar.DayNumberRepeated | base/date.cc:17-24 | the day before -4800-03-01 has the same number as that day |
| TimeZones.ToUtcTime | base/time_zone.cc:317-343 | truncating division and its correction give the floor, for negative times too |
| TimeZones.FillHms | base/time_zone.cc:71-77 | hours, minutes below 60 and seconds below 60 that add up to the seconds given; nothing else changes |
| TimeZones.UtcRoundTrip | base/time_zone.cc:317-358 | fromUtcTime undoes toUtcTime for every second from -4800-03-01 on |
| TimeZones.UtcFieldsRoundTrip | base/time_zone.cc:317-358 | toUtcTime undoes fromUtcTime on normalised fields |
| TimeZones.UtcIsGmtime | base/time_zone.cc:317-343 | from day number 0 on all fields are those of the calendar, week day and day of the year included |
| TimeZones.YearDay | base/time_zone.cc:337-341 | the day of the year counts from the first of January and stays within the year |
| TimeZones.LowerBound | base/time_zone.cc:229-232 | the binary search splits the transitions at the sentry |
| TimeZones.FindLocaltime | base/time_zone.cc:218-250 | the type in force after the last transition at or before the sentry, as a linear scan finds it, by either comparison |
| TimeZones.ToLocalTime | base/time_zone.cc:272-292 | refines its specification; the fields less the offset are the second given |
| TimeZones.ToLocalIs | base/time_zone.cc:272-292 | the fields are a date and a time of day which, less the offset, are the second given; offset and DST flag are those of the last transition at or before it |
| TimeZones.FromLocalTime | base/time_zone.cc:294-315 | refines its specification |
| TimeZones.FixedZone | base/time_zone.cc:265-315 | in a zone made from an offset, standard time is that offset away from universal time |
| TimeZones.AlternatesAscend | base/time_zone.cc:191-196 | in a zone that alternates between standard time and DST, with transitions further apart than the shift, they ascend by universal and by local time, as both searches need |
| TimeZones.LocalPeriod | base/time_zone.cc:218-250 | searching by local time finds the right period, or the next one exactly if the local time repeats |
| TimeZones.LocalExact | base/time_zone.cc:272-315 | fromLocalTime undoes toLocalTime if and only if the local time does not repeat or DST is one hour ahead |
| TimeZones.LocalRoundTrip | base/time_zone.cc:272-315 | with DST one hour ahead it does so for every second, both readings of a repeated hour included |
| TimeZones.HalfHourFails | base/time_zone.cc:303-313 | a zone with DST half an hour ahead for which it does not |
| AsyncLogs.StepSafe | base/async_logging.acc:30-141 | every step fails no assert, finds its buffers and keeps: without a next buffer the list is not empty, and a handed-over second spare comes with a second buffer |
| AsyncLogs.AppendLog | base/async_logging.acc:30-54 | append adds the line at the end of the log, or drops it whole if it is as long as a buffer |
| AsyncLogs.WriterLog | base/async_logging.acc:71-140 | the writing thread changes nothing in the log except by trimming a batch |
| AsyncLogs.RoundFlushes | base/async_logging.acc:80-115 | when a round has written its batch, whatever was appended meanwhile, the file is exactly the log of the moment of the swap, if and only if at most 25 buffers were swapped |
| AsyncLogs.RoundWrites | base/async_logging.acc:95-115 | the same from any point of a round, with the notice as the only other outcome |
| AsyncLogs.ExitIsFinal | base/async_logging.acc:71-143 | once the writing thread has left its loop the file never changes: lines on their way are not written |
| AsyncLogs.HeldStep | base/async_logging.acc:30-139 | buffers are handed on and not copied: one is allocated exactly when the current one is full and there is no next one, and after each round the writing thread has two |
| AsyncLogs.EveryRun | base/async_logging.acc:30-141 | under every interleaving no assert fails, lines are in order and at most once, and file and buffers hold every line if and only if lines are shorter than a buffer and batches have at most 25 buffers |
| AsyncLogs.LostStep | base/async_logging.acc:30-141 | a lost line stays lost, and a line as long as a buffer or a trimmed batch loses at least one more |
| AsyncLogs.LongLineLost | base/async_logging.acc:34-51 | a run in which a line as long as a buffer is lost |
| AsyncLogs.TrimmedBatchLoses | base/async_logging.acc:99-108 | a run with a batch of 26 buffers, in which lines are lost |
| AsyncLogs.AsyncLogging.AppendLine | base/async_logging.acc:30-54 | refines the step and keeps the invariant |
| AsyncLogs.AsyncLogging.SwapLocked | base/async_logging.acc:80-93 | refines the step and keeps the invariant |
| AsyncLogs.AsyncLogging.WriteBatch | base/async_logging.acc:99-115 | trims the batch if it is too long and writes the rest in order |
| AsyncLogs.AsyncLogging.RefillBoth | base/async_logging.acc:117-139 | both spares are there again and empty; no assert fails |
| AsyncLogs.WritesLead | base/async_logging.acc:111-115 | writing the batch is the writing steps one after the other |
| LogStreams.ParseNumeral | base/log_stream.cc:33-72 | reading a numeral gives the number back, in any base up to 16 |
| LogStreams.NumeralParse | base/log_stream.cc:33-72 | each number has only that numeral |
| LogStreams.NumeralShape | base/log_stream.cc:33-72 | a numeral consists of digits and has no leading zero |
| LogStreams.DecimalRoundTrip | base/log_stream.cc:33-54 | reading decimal text gives the integer back, negative ones included |
| LogStreams.HexadecimalRoundTrip | base/log_stream.cc:167-179 | reading the digits after 0x gives the pointer back |
| LogStreams.NumeralLength | base/log_stream.h:166 | the number of digits is exactly what the size of the number requires |
| LogStreams.WithinReserve | base/log_stream.cc:97-117 | every 64-bit integer and pointer fits the reserve |
| LogStreams.Convert | base/log_stream.cc:33-54 | the in-place loop with mirrored digits writes the decimal text and a terminator and touches nothing else, the most negative value included |
| LogStreams.ConvertHex | base/log_stream.cc:56-72 | the same in base 16 |
| LogStreams.StoredBounded | base/log_stream.h:35-51 | each piece put into a stream is stored whole or not at all, in order, and at least one byte stays free |
| LogStreams.StoredAll | base/log_stream.h:35-51 | nothing is left out while the reserve remains |
| LogStreams.StoredExact | base/log_stream.h:35-43 | after any chain a text is stored exactly if it is shorter than the room left, a number or pointer exactly if 32 bytes are left |
| LogStreams.FixedBuffer.Append | base/log_stream.h:35-43 | appends the text whole or not at all |
| LogStreams.LogStream.FormatInteger | base/log_stream.cc:109-117 | appends the decimal text whole or not at all |
| LogStreams.LogStream.FormatPointer | base/log_stream.cc:167-179 | appends the hexadecimal text whole or not at all |
| LogStreams.LogStream.PutAll | base/log_stream.h:76-167 | any chain of insertions stores exactly the pieces that fit |

## Left out

- SudokuPuzzle.SolveSudoku: requires 81 characters, as the source asserts; the framing of requests in net/sudoku/server_threadpool.cc and net/sudoku/batch.cc is not part of this model.
- Lifecycle.EveryRunSafe: takes descriptors to be distinct and the server's connections to share one loop; callbacks change interest only on their own connection and otherwise act between events; between events nobody calls startRead or stopRead on a disconnected connection.
- `~TcpServer`, which destroys connections that are still connected, is not one of the server's events.
- TimeZones.ToLocalTime: does not model tm_zone.
- TcpOutput.EveryRun: covers calls on the loop thread; the code does not order `send` and `shutdown` from other threads.
- EventLoops.NeverAsleep: models an eventfd whose reads and writes succeed; that the loop object may be destroyed while another thread is still in `quit` is not modelled.
- Timers.EveryRunSafe: takes the clock to be positive and intervals to be whole microseconds; `addTime` on doubles is left out.
- AsyncLogs.EveryRun: lines are numbered records with a length instead of characters, flushing and the log file's rolling are left out, and the buffer is that of base/log_stream.h.
- Channels are numbers, and the poller holds their descriptor, mask and index; timers and nodes are addresses and indexes into an explicit heap and pool, not C++ pointers.
- The node pool starts zeroed, where the source clears each node as it is taken.
- Callbacks and functors are numbers; what a callback does is a script of further events.
- The clock, epoll, timerfd, eventfd, sockets and readv are parameters: any result the system may give.
- `readTimeZoneFile`: zones are given as parsed transitions and local time types.
- Floating-point output and formats through `snprintf` in base/log_stream.cc.
- Thread pools, blocking queues, latches, atomics, the choice of a loop for a connection, Connector, TcpClient and Acceptor.
- The logging front end, exceptions, singletons, thread-local data, string pieces and the test programs.
