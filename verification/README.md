# Voyager, modelled and proved

Voyager is a reactor-style network library. With the system calls taken out, what is left is state
machines, indexes that must agree with something simple, and codecs that must undo each other. This
project states what those parts are for and proves that the code does it. A system call is replaced
by its result, which is a parameter: how many bytes `write` took or which error it gave, what
`readv` delivered, what `poll` raised, what the clock says, which thread runs next.

The code works by changing things in place, and so do the models: classes with the source's fields,
loops where the source has loops, arrays where it fills buffers. Each method is proved against a
specification function or predicate, and the properties are proved about those for all inputs, all
runs or all interleavings.

| file | what it models |
|---|---|
| `Sudoku.dfy`, `SudokuRules.dfy` | the backtracking solver, with its three flag tables; the rules by rows, columns and blocks |
| `Crc32c.dfy` | CRC-32C by tables, four bytes at a time, against the bit-serial checksum of section 12.1 of RFC 3720 |
| `Dispatch.dfy`, `EventPoll.dfy`, `EventEpoll.dfy`, `EventSelect.dfy`, `EventKqueue.dfy`, `Backends.dfy` | one interest map kept in four ways |
| `TcpConnection.dfy`, `TcpClosing.dfy`, `Buffer.dfy` | partial writes, the spill buffer and the close state machine over a byte queue; what each event brings about |
| `EventLoop.dfy` | the queue of functions and the wake-ups, as interleaved steps |
| `TimerClock.dfy`, `TimerRuns.dfy`, `TimerList.dfy` | one timer and a clock that steps back; callbacks, calls and whole runs; the two timer indexes |
| `TimingWheel.dfy` | the idle wheel of the HTTP server |
| `TcpMonitor.dfy` | the connection counts and limits |
| `Json.dfy`, `JsonText.dfy` | what is written and read, and the round trip; the writer and the cursor-driven parser |
| `JsonLayout.dfy`, `JsonWritten.dfy`, `JsonAccepted.dfy` | the texts of a value, in any spacing and spelling: all of them are read, one of them is written, and nothing else is accepted |
| `Base64.dfy`, `Base64Letters.dfy` | base64 with 32-bit loads and overlapping stores, against section 4 of RFC 4648 |
| `Wrappers.dfy` | the option type |
| `Varint.dfy`, `Fixed.dfy` | varints, length prefixes, fixed-width words |
| `ProtobufCodec.dfy` | length-framed messages over a byte stream |

`dafny verify dfyconfig.toml` checks everything.

## Where the code does not do what one would hope

- A top-level empty array does not survive writing and parsing (`Json.EmptyArray`); every other value of strings, objects and arrays does (`Json.ParseStringify`).
- A connection that closes after a write can lose what its write-complete callback sent, when the callback, or another thread before the state is tested, shuts it down (`Tcp.SendThenShutDownLoses`, `Tcp.SendThenShutDownElsewhereLoses`). Nothing is lost, whatever the kernel answers, if and only if no send of any bytes that is reached comes before a shutdown in its own or an enclosing sequence (`Tcp.CloseAfterWrite`); when the shutdown of another thread lands last, if and only if no send of any bytes is reached at all (`Tcp.ShutDownLandsLast`).
- A half-close that another thread asked for can come after the connection has closed with bytes unsent (`Tcp.LateHalfClose`); in no other case is the write side shut down with accepted bytes missing (`Tcp.FinFollowsData`).
- A timer that is set while the clock is behind the list's latest reading, and still is at the next call of `RunTimerProcs`, is moved by the whole gap and is ahead of its time by what was left of it (`TimerClock.DueExactlyWhen`, `Timing.EarlyInsideTheGap`, `Timing.EarlyBeyondTheGap`). In no other case can a timer fire too early (`TimerClock.EarlyExactlyWhen`). A timer that is set while the clock is ahead of the latest reading is late by what the clock steps back before the next.
- `PutLengthPrefixedSlice` cuts the length to 32 bits, so that a slice reads back if and only if it is shorter than 2^32 bytes (`Varint.PrefixedRoundTrip`).
- A lone string that the input leaves open right after an escaped quote is accepted (`JsonAccepted.ReadsExactly`); inside an object or an array it is not.
- Base64 decoding ignores spare bits, so that re-encoding a decoded text gives it back if and only if they are zero (`Base64.EncodeDecode`).
- `voyager/util/base64/modp_base64/modp_b64.h:38` says that the encoder's result counts the final NUL; the code returns the length without it, and the model follows the code.

## Model

| member | source | states |
|---|---|---|
| Sudoku.SudokuSolver.Solve | examples/sudoku/sudoku_solver.cc:46-61 | for every grid of digits and blanks the answer is the lexicographically least completion if there is one, "invalid sudoku!" exactly when the givens agree but no completion exists, and the empty string exactly when givens clash |
| Sudoku.SudokuSolver.SolveFrom | examples/sudoku/sudoku_solver.cc:83-112 | success leaves the least completion on the board; failure means that there is none and restores board and all three flag tables; flags keep matching the board; the search ends |
| Sudoku.SudokuSolver.InitSudoku | examples/sudoku/sudoku_solver.cc:63-80 | true exactly when no two givens clash, and then the flags are those of the givens |
| Sudoku.SudokuSolver.Enter | examples/sudoku/sudoku_solver.cc:66-76 | one given is entered exactly when its row, column and box have not got it; a refusal means that the whole grid clashes |
| Sudoku.SudokuSolver.constructor | examples/sudoku/sudoku_solver.cc:14-28 | the board is the text with spaces as blanks, no flag is set |
| Sudoku.SudokuSolver.Place | examples/sudoku/sudoku_solver.cc:99-102 | board and flags move together to the grid with the digit placed |
| Sudoku.SudokuSolver.Erase | examples/sudoku/sudoku_solver.cc:106-109 | undoes Place exactly, board and flags |
| Sudoku.LeastAtCell | examples/sudoku/sudoku_solver.cc:95-105 | the least completion with the first digit that has one is the least completion of the grid |
| Sudoku.PlacedDigit | examples/sudoku/sudoku_solver.cc:96-102 | a digit that no flag forbids keeps the grid free of clashes |
| Sudoku.BlockedDigit | examples/sudoku/sudoku_solver.cc:96-98 | a digit that a flag forbids is in no completion, so that skipping it loses none |
| Sudoku.PlacedCompletion | examples/sudoku/sudoku_solver.cc:102-103 | the completions after placing a digit are those of before that have it there |
| Sudoku.NoCompletionOfClash | examples/sudoku/sudoku_solver.cc:71-73 | clashing givens have no completion |
| SudokuRules.RulesAreTheUnits | examples/sudoku/sudoku_solver.cc:69-76 | a full grid breaks no rule if and only if every row, every column and every 3x3 block, cell by cell, has every digit exactly once |
| Crc32c.Extend | voyager/util/crc32c.cc:199-251 | for every seed, buffer and starting alignment the prologue, the 16-byte, 4-byte and tail loops together compute the bit-serial CRC-32C |
| Crc32c.ExtendConcat | voyager/util/crc32c.h:14-17 | extending by A and then by B is extending by A followed by B |
| Crc32c.Residue | voyager/util/crc32c.cc:199-251 | a message of any bytes followed by its own checksum, lowest byte first, always has the checksum 0x48674bc7 |
| Crc32c.CheckValue | voyager/util/crc32c.cc:199-251 | 32 zero bytes give 0x8a9136aa, as in appendix B.4 of RFC 3720 |
| Crc32c.UnmaskMask | voyager/util/crc32c.h:29-38 | unmasking undoes masking for every checksum |
| Crc32c.MaskValues | voyager/util/crc32c.h:22-32 | two masked words, which fix the rotation and the constant |
| Crc32c.Step4Correct | voyager/util/crc32c.cc:215-221 | four table look-ups on one word do what four single bytes do |
| Crc32c.Step1Correct | voyager/util/crc32c.cc:209-213 | one table look-up does what eight message bits do |
| Crc32c.ShiftLinear | voyager/util/crc32c.cc:209-221 | the register is linear over xor, which is why tables work at all |
| Crc32c.AbsorbBits | voyager/util/crc32c.cc:211-212 | message bits may be xored into the register before they are shifted through |
| Crc32c.PeelColumns | voyager/util/crc32c.cc:219-220 | four zero bytes split into one table column per byte |
| Crc32c.Table0Entries | voyager/util/crc32c.cc:17-60 | the entries at the powers of two are the literals of the source; by ShiftLinear they fix all the others |
| Backends.AllAgree | voyager/core/dispatch.cc:24-76 | after the same calls on any number of dispatches poll, epoll, select and kqueue watch every descriptor for the same events: those of its dispatch, and those that the last calls about reading and about writing asked for; and the kernel has rejected no request |
| Dispatching.InterestIsWanted | voyager/core/dispatch.cc:24-76 | in every history a descriptor is watched for reading if and only if the last of EnableRead, DisableRead, DisableAll and the removal was EnableRead, and for writing likewise |
| Dispatching.ReplayCoherent | voyager/core/dispatch.cc:24-69 | in every history the events are whole interests, and nothing is written whose write filter was not added |
| Dispatching.DeltaMeaning | voyager/core/dispatch.cc:24-69 | the modification a call announces leads from the old to the new interest, is legal for the old one, and is never "none" |
| Dispatching.AfterCoherent | voyager/core/dispatch.cc:24-69 | every call keeps a coherent state, and one that does not reach the poller changes nothing |
| Dispatching.FirstInterest | voyager/core/dispatch.cc:24-39 | the call that registers a dispatch leaves it with an interest |
| Dispatching.Dispatch.EnableWrite | voyager/core/dispatch.cc:30-39 | new events, write-added mark and announced modification for every old state; writing is on and reading as before |
| Dispatching.Dispatch.EnableRead | voyager/core/dispatch.cc:24-28 | the same for EnableRead: reading is on and writing as before |
| Dispatching.Dispatch.DisableRead | voyager/core/dispatch.cc:41-45 | the same for DisableRead: reading is off and writing as before |
| Dispatching.Dispatch.DisableWrite | voyager/core/dispatch.cc:47-53 | the same for DisableWrite: writing is off and reading as before, and nothing happens when no write was added |
| Dispatching.Dispatch.DisableAll | voyager/core/dispatch.cc:55-69 | the same for DisableAll and its four cases: both are off |
| Dispatching.Change | voyager/core/dispatch.cc:71 | a call on one dispatch leaves the states of all the others as the history has them |
| Dispatching.MaskOf | voyager/core/dispatch.h:63-65 | a coherent mask is determined by its two interests, and empty exactly when both are off |
| PollBackend.EventPoll.Perform | voyager/core/event_poll.cc:67-93 | any call keeps slots and map in bijection, every index at its own slot, and a slot negated exactly when its events are empty |
| PollBackend.EventPoll.Remove | voyager/core/event_poll.cc:43-65 | so does a removal, over the whole history |
| PollBackend.EventPoll.UpdateDispatch | voyager/core/event_poll.cc:67-93 | the slot shows the new events, all other slots stand; every assertion of the code holds |
| PollBackend.EventPoll.RemoveDispatch | voyager/core/event_poll.cc:43-65 | swap-remove keeps the table for all the others; every assertion of the code holds |
| PollBackend.EventPoll.Poll | voyager/core/event_poll.cc:21-41 | the dispatches handed over are those of the raised slots, in slot order, though the loop stops early; both assertions hold |
| PollBackend.EventPoll.WatchedIsInterest | voyager/core/event_poll.cc:67-93 | what poll watches a descriptor for is its interest in the history |
| PollBackend.SwappedOut | voyager/core/event_poll.cc:57-63 | moving the last slot into the hole, with its index, keeps the table |
| PollBackend.Replaced | voyager/core/event_poll.cc:81-91 | overwriting a slot for its own descriptor keeps the table |
| PollBackend.RaisedRest | voyager/core/event_poll.cc:30-31 | once as many slots were found as poll reported, the others have nothing raised |
| EpollBackend.EventEpoll.Perform | voyager/core/event_epoll.cc:66-91 | any call leaves the kernel's list, the index states and the history in agreement; epoll_ctl rejects nothing |
| EpollBackend.EventEpoll.Remove | voyager/core/event_epoll.cc:51-64 | so does a removal |
| EpollBackend.EventEpoll.UpdateDispatch | voyager/core/event_epoll.cc:66-91 | added, modified or deleted as the kernel state needs it |
| EpollBackend.EventEpoll.RemoveDispatch | voyager/core/event_epoll.cc:51-64 | deleted from the kernel exactly if it is there |
| EpollBackend.EventEpoll.EpollCTL | voyager/core/event_epoll.cc:93-103 | epoll_ctl(2): adding twice and changing what is not there are rejected and counted |
| EpollBackend.EventEpoll.AddToKernel | voyager/core/event_epoll.cc:70-79 | a dispatch that the kernel does not hold is added, even with an empty mask |
| EpollBackend.EventEpoll.ChangeInKernel | voyager/core/event_epoll.cc:80-90 | one that it holds is modified, or taken out with its last interest |
| EpollBackend.EventEpoll.WatchedIsInterest | voyager/core/event_epoll.cc:66-91 | the kernel's mask, or nothing, is the interest in the history |
| SelectBackend.EventSelect.Perform | voyager/core/event_select.cc:72-132 | any call leaves sets, worker map and nfds in agreement with the history |
| SelectBackend.EventSelect.Remove | voyager/core/event_select.cc:62-70 | so does a removal |
| SelectBackend.EventSelect.UpdateDispatch | voyager/core/event_select.cc:72-132 | the sets follow the announced modification alone and still hold the two interests |
| SelectBackend.EventSelect.UpdateWorkers | voyager/core/event_select.cc:119-131 | the worker map stores exactly the registered dispatches that have an interest, and nfds is one past the largest |
| SelectBackend.EventSelect.ApplyDelta | voyager/core/event_select.cc:77-109 | each announcement turns the sets of the old interest into those of the new |
| SelectBackend.EventSelect.RemoveDispatch | voyager/core/event_select.cc:62-70 | forgetting a dispatch without interest needs no change of sets |
| SelectBackend.EventSelect.WatchedIsInterest | voyager/core/event_select.cc:62-132 | what select is given below nfds is the interest in the history |
| KqueueBackend.EventKqueue.Perform | voyager/core/event_kqueue.cc:66-126 | any call leaves the kernel's filters in agreement with the history; kevent rejects nothing |
| KqueueBackend.EventKqueue.Remove | voyager/core/event_kqueue.cc:56-64 | so does a removal |
| KqueueBackend.EventKqueue.UpdateDispatch | voyager/core/event_kqueue.cc:66-126 | the filters follow the announced modification alone |
| KqueueBackend.EventKqueue.ApplyDelta | voyager/core/event_kqueue.cc:71-118 | the changes of one announcement are all accepted and leave every other descriptor's filters alone |
| KqueueBackend.EventKqueue.RemoveDispatch | voyager/core/event_kqueue.cc:56-64 | forgetting a dispatch without interest needs no change of filters |
| KqueueBackend.ChangesFit | voyager/core/event_kqueue.cc:73-114 | every change record is legal for the filters it meets and leaves those of the new state, touching no other descriptor |
| KqueueBackend.EventKqueue.WatchedIsInterest | voyager/core/event_kqueue.cc:66-126 | the enabled filters are the interest in the history |
| Tcp.RunKeeps | voyager/core/tcp_connection.cc:101-272 | in every run, with any partial writes, errors and callbacks, wire and spill buffer are together what was accepted, write interest is on exactly while the buffer is not empty, and after the close the wire is a prefix and does not change; a connection is closed at most once |
| Tcp.NextKeeps | voyager/core/tcp_connection.cc:101-272 | each event keeps that, and takes nothing back |
| Tcp.SentKeeps | voyager/core/tcp_connection.cc:227-272 | a send keeps it through nested write-complete callbacks and accepts exactly its data first |
| Tcp.RanKeeps | voyager/core/tcp_connection.cc:76-99 | so does anything that a callback does; one that runs while disconnecting can only queue closes |
| TcpClosing.SendOutcome | voyager/core/tcp_connection.cc:227-272 | what each answer of write to a send brings about: which bytes are on the wire, which wait, when the callback runs and when the connection closes |
| TcpClosing.WriteOutcome | voyager/core/tcp_connection.cc:121-151 | the same for a writable socket: exactly what the kernel took is on the wire, EPIPE and ECONNRESET close, other errors change nothing |
| TcpClosing.ReadOutcome | voyager/core/tcp_connection.cc:101-119 | the end of the stream, EPIPE and ECONNRESET close the connection with nothing taken back, other errors change nothing, and bytes run the message callback |
| TcpClosing.ShutDownOutcome | voyager/core/tcp_connection.cc:76-86 | a shutdown leaves the connected state and half-closes at once exactly when nothing waits; from another thread it leaves that to its turn in the loop |
| TcpClosing.ForceCloseIsFinal | voyager/core/tcp_connection.cc:88-99 | wherever in a callback a ForceClose comes, the connection is closed or has a close queued from then on, along every run |
| TcpClosing.RunDoomed | voyager/core/tcp_connection.cc:88-99 | no event takes a queued close back |
| TcpClosing.QueuedCloseCloses | voyager/core/tcp_connection.cc:93-97 | a queued close can run, and leaves whatever was open disconnected |
| TcpClosing.FinSentExactly | voyager/core/tcp_connection.cc:76-86 | in every run the write side is shut down if and only if somewhere a shutdown found nothing waiting, of a connected connection by its loop or in the turn of a queued half-close |
| Tcp.CloseAfterWrite | voyager/core/tcp_connection.cc:127-136 | whatever the kernel answers, a close after a write that empties the buffer finds everything accepted on the wire, if and only if no send of any bytes that is reached comes before a shutdown in its own or an enclosing sequence of what lands before the state is tested, own callback and other threads alike; a connection that was disconnecting has always drained |
| Tcp.ShutDownLandsLast | voyager/core/tcp_connection.cc:76-86 | with a shutdown from another thread landing last, the guard is that no send of any bytes is reached at all |
| Tcp.ClosedByFate | voyager/core/tcp_connection.cc:127-136 | the same for given answers: it closes exactly when it was disconnecting or is shut down, and drained exactly when nothing waited at the first shutdown |
| Tcp.HarmlessKeeps | voyager/core/tcp_connection.cc:76-99 | a harmless sequence never shuts down over waiting bytes |
| Tcp.LosingAnswers | voyager/core/tcp_connection.cc:227-272 | for any other there are answers of the kernel that make it |
| Tcp.RanShape | voyager/core/tcp_connection.cc:76-99 | how a sequence leaves its connection can be read off the sequence and its answers |
| Tcp.SendThenShutDownLoses | voyager/core/tcp_connection.cc:129-135 | a concrete callback that loses a byte |
| Tcp.SendThenShutDownElsewhereLoses | voyager/core/tcp_connection.cc:129-135 | one that only sends, with another thread shutting down before the state is tested |
| Tcp.FinFollowsData | voyager/core/tcp_connection.cc:76-85 | in every run, the write side is shut down with accepted bytes missing from the wire if and only if a half-close queued by another thread runs after the connection has closed with bytes unsent |
| Tcp.LateHalfClose | voyager/core/tcp_connection.cc:76-85 | a concrete run in which that happens |
| Tcp.TcpConnection.SendInLoop | voyager/core/tcp_connection.cc:227-272 | the object's new state is the specification's, for every answer of write |
| Tcp.TcpConnection.Spill | voyager/core/tcp_connection.cc:260-271 | what is left waits in the buffer with write interest on |
| Tcp.TcpConnection.HandleWrite | voyager/core/tcp_connection.cc:121-151 | the same for a writable socket; a fatal error disconnects |
| Tcp.TcpConnection.HandleRead | voyager/core/tcp_connection.cc:101-119 | the same for a readable one; what was read is appended to the read buffer, and the end of the stream or a fatal error disconnects |
| Tcp.TcpConnection.HandleClose | voyager/core/tcp_connection.cc:153-163 | the connection is disconnected with no interest left, as RemoveEvents asserts |
| Tcp.TcpConnection.RunScript | voyager/core/tcp_connection.cc:76-99 | what callbacks and other threads do, in sequence |
| Tcp.TcpConnection.Act | voyager/core/tcp_connection.cc:76-99 | one SendMessage, ShutDown or ForceClose |
| Tcp.TcpConnection.ShutDownOffLoop | voyager/core/tcp_connection.cc:76-86 | ShutDown from another thread queues the half-close once |
| Tcp.TcpConnection.FinishShutDown | voyager/core/tcp_connection.cc:81-83 | the half-close happens only while nothing is being written |
| Tcp.TcpConnection.RunQueuedShutDown | voyager/core/tcp_connection.cc:80-84 | the queued half-close waits for the buffer |
| Tcp.TcpConnection.RunQueuedClose | voyager/core/tcp_connection.cc:93-97 | the queued function closes an open connection and leaves it disconnected in any case |
| Tcp.TcpConnection.constructor | voyager/core/tcp_connection.cc:45-56 | a connection that has started to work satisfies the invariant |
| Buffers.Buffer.Append | voyager/core/buffer.h:35-42 | appends to the queue, whether it grows, compacts or has room |
| Buffers.Buffer.MakeSpace | voyager/core/buffer.h:103-115 | makes the room asked for and leaves the queue as it is |
| Buffers.Buffer.FindCRLF | voyager/core/buffer.h:46-54 | the first "\r\n" of the queue, or none if there is none |
| Buffers.Buffer.Retrieve | voyager/core/buffer.h:56-63 | drops exactly that many bytes from the front |
| Buffers.Buffer.RetrieveUntil | voyager/core/buffer.h:65-69 | drops the bytes before a position |
| Buffers.Buffer.RetrieveAsString | voyager/core/buffer.h:75-80 | returns the bytes it drops |
| Buffers.Buffer.RetrieveAllAsString | voyager/core/buffer.h:73 | returns the whole queue and empties it |
| Buffers.Buffer.PeekRange | voyager/core/buffer.h:44 | pointer reads see the queue, not the vector |
| Buffers.Buffer.ReadV | voyager/core/buffer.cc:47-66 | what a two-part read delivers is appended in order, wherever the vector ends; a failed one changes nothing |
| Looping.NoLostWakeUp | voyager/core/eventloop.cc:105-174 | in every interleaving, at poll there are as many wake-ups pending or under way as functions queued, and one more for an exit: nothing waits for the poll timeout |
| Looping.PollProceeds | voyager/core/eventloop.cc:105-124 | from every state at poll that can be reached the loop thread goes on to the next test of exit_, by when everything then queued, and nothing else, has been executed; and it is back at poll unless an exit was asked for |
| Looping.StopsExactlyOnExit | voyager/core/eventloop.cc:105-131 | in every interleaving the loop stops only if someone asked for it, and the test of exit_ stops it exactly then |
| Looping.WakeUpsCounted | voyager/core/eventloop.cc:256-272 | unread wake-ups are those written less those read, and threads under way those that pushed or asked less those that wrote |
| Looping.FirstInFirstOut | voyager/core/eventloop.cc:141-174 | in every interleaving, executed, batch and queue are the push history in order: each function runs at most once and in turn |
| Looping.SwappedOutIsRun | voyager/core/eventloop.cc:242-254 | what was queued when the loop swapped has run by the next test of exit_ |
| Looping.RunKeeps | voyager/core/eventloop.cc:105-174 | the invariant behind these holds along every run |
| Looping.NextKeeps | voyager/core/eventloop.cc:105-174 | each critical section or system call of each thread keeps it |
| Looping.EventLoop.RunFuncs | voyager/core/eventloop.cc:242-254 | executes exactly the queue, in order; what that queues stays queued, with a wake-up each; the object goes through a sequence of steps of the interleaving model |
| Looping.RunFuncsIsSteps | voyager/core/eventloop.cc:242-254 | RunFuncs undisturbed is one of the interleavings |
| Looping.EventLoop.QueueInLoop | voyager/core/eventloop.cc:141-153 | pushes, and wakes unless the loop thread queues outside RunFuncs; those are steps of the interleaving model |
| Timing.TimerList.RunTimerProcs | voyager/core/timerlist.cc:92-133 | ends with nothing due and both indexes in agreement; a due timer fires if and only if no callback before its turn erases it, once, in order of deadlines; what fires is spent, due again an interval from now, or erased; whatever was due later is still there as the reading moved it, unless a callback erased it; and every timer that a callback set is there as it was set, under its own identity, unless it was erased |
| TimerRuns.FiresExactly | voyager/core/timerlist.cc:113-132 | that is what firing the earliest due timer again and again amounts to, with callbacks that insert and erase |
| TimerRuns.InTurnProgresses | voyager/core/timerlist.cc:113-132 | the invariant behind it, after any number of turns |
| TimerRuns.FiredOneTurns | voyager/core/timerlist.cc:117-128 | one turn: the timer that fires, the others, what its callback erases, and nothing newly due |
| TimerRuns.RanWent | voyager/core/timerlist.cc:128 | a callback erases exactly what it names, leaves all else as it is, and inserts only what it says |
| TimerRuns.RanPlaces | voyager/core/timerlist.cc:39-62 | the k-th insertion of a callback gets the k-th new identity and is in the list with its deadline, interval and callback, or was erased; no other identity is given |
| TimerRuns.InTurnPlaces | voyager/core/timerlist.cc:113-132 | so it is for all the callbacks of a call together |
| TimerRuns.FiresWhenDue | voyager/core/timerlist.cc:39-133 | in every run of insertions, erasures and calls, a timer fires at the first reading at which DueExactlyWhen has it due, unless a callback erases it in that call |
| TimerRuns.BirthIsHistory | voyager/core/timerlist.cc:39-133 | along every run, every timer set is pending, spent or erased for good, and a pending one stands where the readings since it was set have moved it |
| TimerClock.DueExactlyWhen | voyager/core/timerlist.cc:98-116 | a timer is due if and only if the time to wait has passed less its lead, with how large the lead is and exactly when it is positive or negative; and at which readings before the deadline asked for it fires |
| TimerClock.EarlyExactlyWhen | voyager/core/timerlist.cc:98-116 | a timer can fire before its time if and only if the clock was behind the latest reading when it was set and is still behind it at the next |
| TimerClock.EarlyOnARisingClock | voyager/core/timerlist.cc:98-116 | while the clock does not step back, that means before the deadline asked for |
| TimerClock.ValueIsUnwound | voyager/core/timerlist.cc:101-110 | any number of steps back move a deadline by their sum |
| TimerRuns.StepBackKeepsDelays | voyager/core/timerlist.cc:98-111 | a step back leaves due what was due at the last reading, keeps every other delay counted from that reading, which is the whole delay only for timers set before the step, and lets no timer overtake another |
| Timing.EarlyInsideTheGap | voyager/core/timerlist.cc:92-133 | a timer set for 150 while the clock is behind fires at 101 |
| Timing.MovedBeyondTheGap | voyager/core/timerlist.cc:98-111 | one set for 1500 is moved to 601 |
| Timing.EarlyBeyondTheGap | voyager/core/timerlist.cc:92-133 | and fires there |
| Timing.TimerList.FireDue | voyager/core/timerlist.cc:113-132 | the loop fires the earliest due timer in turn until nothing is due, and ends |
| Timing.TimerList.FireFirst | voyager/core/timerlist.cc:117-128 | one turn leaves the whole list as specified |
| Timing.TimerList.Rebuild | voyager/core/timerlist.cc:102-109 | moves every deadline by the step, in both indexes, and loses no timer |
| Timing.TimerList.EraseInLoop | voyager/core/timerlist.cc:64-73 | erases the timer from both indexes though the caller's deadline may be stale, and no other |
| Timing.TimerList.Insert | voyager/core/timerlist.cc:39-44 | adds the timer to both, and changes no other |
| Timing.TimerList.RunProc | voyager/core/timerlist.cc:128 | a callback's insertions and erasures keep the two indexes in agreement, and each timer it sets is there or was erased |
| Timing.TimerList.TimeoutMs | voyager/core/timerlist.cc:75-90 | sleeps exactly until the earliest deadline, not at all if something is due or the clock stepped back, and without limit if there is no timer |
| Wheels.Wheel.OnTimer | voyager/http/http_server.cc:111-118 | a tick drops the last reference of exactly the entries whose latest activity was idle_ticks_ ticks ago |
| Wheels.Wheel.UpdateBuckets | voyager/http/http_server.cc:120-128 | stamps the entry with the current tick, at most once in each bucket |
| Wheels.Wheel.OnConnection | voyager/http/http_server.cc:55-62 | a new entry starts alive with the current tick |
| Wheels.Wheel.OnMessage | voyager/http/http_server.cc:103-108 | renews a living entry of a connected connection, and never revives one |
| Wheels.HeldIsActive | voyager/http/http_server.cc:111-128 | the entries that buckets refer to are those that were active less than idle_ticks_ ago |
| Wheels.Turned | voyager/http/http_server.cc:113-117 | clearing the next bucket is the passing of one tick |
| Wheels.Pushed | voyager/http/http_server.cc:124-127 | pushing into the current bucket is activity now |
| Monitoring.TcpMonitor.OnConnection | voyager/core/tcp_monitor.cc:40-74 | counts are the live counts with no zero entry, accepted connections keep within both limits, and acceptance is exactly as stated in numbers of live connections |
| Monitoring.TcpMonitor.OnClose | voyager/core/tcp_monitor.cc:76-87 | a close keeps all of that |
| Monitoring.WithinJoined | voyager/core/tcp_monitor.cc:44-67 | accepting under the tests of the code keeps both limits |
| Monitoring.TallyJoined | voyager/core/tcp_monitor.cc:50-63 | counting up keeps one count per address with a live connection |
| Monitoring.TallyLeft | voyager/core/tcp_monitor.cc:79-85 | counting down too, and the entry is there as the code asserts |
| Monitoring.WithinLeft | voyager/core/tcp_monitor.cc:76-87 | a departure keeps both limits |
| Json.ParseStringify | voyager/util/json/json.cc:18-44 | parsing what was written gives the value back, for every value of strings, objects and arrays, if and only if it is not the empty array |
| Json.ReadWritten | voyager/util/json/json.cc:151-255 | written text is read back with whatever follows left over, nested empty arrays included |
| Json.QuotedRead | voyager/util/json/json.cc:46-82 | every string is read back through its escapes |
| Json.ParseAgain | voyager/util/json/json.cc:151-194 | writing what was read and reading it again changes nothing |
| Json.ParsedIsWellFormed | voyager/util/json/json.cc:349-458 | whatever the input, what is read has each key once and in order |
| Json.PutSets | voyager/util/json/json.cc:392 | assigning a member sets that key and no other |
| Json.PutKeepsOrder | voyager/util/json/json.cc:392 | and keeps the map in order |
| Json.PutLast | voyager/util/json/json.cc:392 | a key behind all the others goes last, so that written objects come back in order |
| Json.WrittenApart | voyager/util/json/json.cc:84-139 | no two values are written alike |
| JsonAccepted.ReadsExactly | voyager/util/json/json.cc:151-255 | on every input the parser reads v and leaves rest if and only if the input is a text of v followed by rest, in any spacing, spelling and order of members, or a lone string v left open right after an escaped quote |
| JsonLayout.AnyLayoutIsRead | voyager/util/json/json.cc:349-458 | every text of a value is read as that value: any of the four white-space characters between tokens, any escapes, members in any order and repeated |
| JsonLayout.StringIsRead | voyager/util/json/json.cc:196-255 | a string in any spelling is read as what section 7 of RFC 8259 says it means |
| JsonLayout.HexRead | voyager/util/json/json.cc:514-535 | four digits are read as their number in either case |
| JsonLayout.LoneEmptyArray | voyager/util/json/json.cc:413-458 | a lone empty array is refused, whatever the space in it |
| JsonWritten.WrittenIsText | voyager/util/json/json.cc:46-139 | what is written is such a text, in the spacing of the writer |
| JsonWritten.PieceWritten | voyager/util/json/json.cc:50-78 | every written character is a legal spelling of itself, and none below the space is left bare |
| JsonWritten.WrittenMeans | voyager/util/json/json.cc:18-38 | the value of the written text is the value that was written |
| Json.EmptyArray | voyager/util/json/json.cc:413-458 | a top-level empty array is written but does not parse |
| Json.MembersRead | voyager/util/json/json.cc:349-411 | the members of an object are read back in order |
| Json.ItemsRead | voyager/util/json/json.cc:413-458 | so are the elements of an array |
| JsonText.JsonWriter.Stringify | voyager/util/json/json.cc:18-38 | appends the text of the value |
| JsonText.JsonWriter.WriteString | voyager/util/json/json.cc:46-82 | copying runs and replacing single characters escapes each character in turn |
| JsonText.JsonWriter.WriteObj | voyager/util/json/json.cc:102-120 | members in order with commas between |
| JsonText.JsonWriter.WriteArray | voyager/util/json/json.cc:122-139 | elements through strings of their own |
| JsonText.JsonReader.GetString | voyager/util/json/json.cc:196-255 | gathering runs behind two pointers reads what reading character by character does, errors included |
| JsonText.JsonReader.GetEscape | voyager/util/json/json.cc:210-234 | one escape is read as the grammar has it |
| JsonText.JsonReader.GetHex | voyager/util/json/json.cc:514-535 | four digits, with foreign characters passed over and reads past the end caught |
| JsonText.JsonReader.SkipWhiteSpace | voyager/util/json/json.cc:537-544 | the first character that is no space, or the last one read |
| JsonText.JsonReader.GetValue | voyager/util/json/json.cc:151-194 | status, value and cursor are those of the reference parser on every input |
| JsonText.JsonReader.GetObj | voyager/util/json/json.cc:349-411 | the same for objects |
| JsonText.JsonReader.GetArray | voyager/util/json/json.cc:413-458 | the same for arrays, with the character that is put back |
| JsonText.StringifyThenParse | voyager/util/json/json.cc:18-44 | the two procedures one after the other give the value back if and only if it is not the empty array |
| Base64.Encode | voyager/util/base64/modp_base64/modp_b64.cc:82-118 | writes the groups of RFC 4648 and a NUL within the allocated length, and nothing behind them |
| Base64.EncodeLast | voyager/util/base64/modp_base64/modp_b64.cc:98-114 | the one or two bytes left over become a padded group |
| Base64.Decode | voyager/util/base64/modp_base64/modp_b64.cc:189-263 | accepts exactly the texts that have a decoding and returns it; the overlapping four-byte stores stay within the allocated length |
| Base64.DecodeEncode | voyager/util/base64/modp_base64/modp_b64.h:31-79 | decoding undoes encoding for every byte string |
| Base64.EncodeDecode | voyager/util/base64/modp_base64/modp_b64.cc:230-262 | encoding what was decoded gives the text back if and only if its spare bits are zero |
| Base64.EncodedLength | voyager/util/base64/modp_base64/modp_b64.h:91 | the size that callers allocate |
| Base64Letters.LettersOfBits | voyager/util/base64/modp_base64/modp_b64.cc:90-114 | the i-th letter of an encoding is that of the i-th six bits of the input, as long as there are bits; then come equals signs |
| Base64Letters.Alphabet0 | voyager/util/base64/modp_base64/modp_b64.cc:90-96 | the letters of 0 to 15, by table 1 of RFC 4648 |
| Base64Letters.Alphabet1 | voyager/util/base64/modp_base64/modp_b64.cc:90-96 | of 16 to 31 |
| Base64Letters.Alphabet2 | voyager/util/base64/modp_base64/modp_b64.cc:90-96 | of 32 to 47 |
| Base64Letters.Alphabet3 | voyager/util/base64/modp_base64/modp_b64.cc:90-96 | of 48 to 63 |
| Base64.EncodeGroup | voyager/util/base64/modp_base64/modp_b64.cc:91-95 | four table look-ups give the letters of a 24-bit group |
| Base64.ChunkCorrect | voyager/util/base64/modp_base64/modp_b64.cc:218-224 | or-ing four table words decodes four letters, or exposes a foreign one |
| Base64.LastWordCorrect | voyager/util/base64/modp_base64/modp_b64.cc:230-260 | so does the shorter look-up of the last group |
| Base64.DecodeChunk | voyager/util/base64/modp_base64/modp_b64.cc:218-226 | a four-byte store adds three bytes and spoils none before them |
| Base64.DecodeChunks | voyager/util/base64/modp_base64/modp_b64.cc:208-227 | the loop decodes all groups but the last, and refuses only what has no decoding |
| Base64.DecodeLast | voyager/util/base64/modp_base64/modp_b64.cc:230-262 | the last group gives one to three bytes, or is refused exactly if a letter is foreign |
| Base64.Unpadded | voyager/util/base64/modp_base64/modp_b64.cc:200-205 | the length without the padding |
| Varint.ParseEncoded | voyager/util/coding.cc:87-163 | decoding inverts encoding and leaves the rest untouched |
| Varint.ProperPrefixRejected | voyager/util/coding.cc:148-163 | no proper prefix of an encoding is accepted |
| Varint.LengthOf | voyager/util/coding.cc:80-102 | five and ten bytes of buffer are enough |
| Varint.EncodedBytes | voyager/util/coding.cc:87-96 | the k-th byte has the k-th seven bits, lowest first, and its top bit set exactly when another follows, with no byte more than needed |
| Varint.ParseAccepts | voyager/util/coding.cc:148-163 | on any bytes, reading succeeds exactly when a byte without the top bit is among those that it may read, and leaves what follows that byte |
| Varint.Unrolled | voyager/util/coding.cc:52-78 | the unrolled 32-bit branches are the 64-bit encoding |
| Varint.EncodeVarint64 | voyager/util/coding.cc:87-96 | the loop writes the encoding |
| Varint.EncodeVarint32 | voyager/util/coding.cc:52-78 | so do the unrolled branches, below 2^32 |
| Varint.VarintLength | voyager/util/coding.cc:109-116 | the size of the encoding |
| Varint.GetVarint64Ptr | voyager/util/coding.cc:148-163 | shifting and or-ing parses as the reference does |
| Varint.GetVarint32PtrFallback | voyager/util/coding.cc:118-134 | so does the 32-bit loop, whose last byte loses its high bits |
| Varint.GetVarint32Ptr | voyager/util/coding.h:143-153 | the one-byte fast path changes nothing |
| Varint.GetVarint32 | voyager/util/coding.cc:136-146 | advances the slice exactly on success |
| Varint.PutLengthPrefixedSlice | voyager/util/coding.cc:104-107 | appends the prefix and the bytes |
| Varint.GetLengthPrefixedSlice | voyager/util/coding.cc:187-196 | takes one slice off the front; on failure the length may already be gone |
| Varint.PrefixedRoundTrip | voyager/util/coding.cc:104-107 | a slice reads back if and only if it is shorter than 2^32 bytes |
| Varint.TakeAllPrefixed | voyager/util/coding.cc:187-196 | any list of such slices reads back as itself |
| Fixed.FixedRoundTrip | voyager/util/coding.cc:13-22 | a fixed word reads back as the number modulo 2^32 |
| Fixed.LittleEndian | voyager/util/coding.cc:13-22 | the k-th byte is the k-th digit to base 256, lowest first |
| Fixed.StoredBytes | voyager/util/coding.h:115-125 | loading stored bytes gives the word back |
| Fixed.LoadedBytes | voyager/util/coding.h:115-125 | storing a loaded word gives the bytes back |
| Protobuf.AnySegmentation | voyager/protobuf/protobuf_codec.h:55-77 | for any messages and any segmentation of their bytes the callbacks get exactly the completed messages, in order and once, and the buffer holds the incomplete frame |
| Protobuf.FedConserves | voyager/protobuf/protobuf_codec.h:55-77 | whatever the callback answers, what was delivered is a prefix of the messages and the buffer holds what follows it: nothing is lost, doubled or torn |
| Protobuf.ConsumedStream | voyager/protobuf/protobuf_codec.h:55-77 | the same as AnySegmentation for one call |
| Protobuf.ConsumedConserves | voyager/protobuf/protobuf_codec.h:55-77 | the same as FedConserves for one call |
| Protobuf.ConsumedTwice | voyager/protobuf/protobuf_codec.h:55-77 | consuming bytes in two parts is consuming them at once |
| Protobuf.PrefixOfStream | voyager/protobuf/protobuf_codec.h:58-60 | any part of a stream is some whole frames and less than one more |
| Protobuf.FrameBytes | voyager/protobuf/protobuf_codec.h:41-45 | a frame is four bytes with the size of the whole frame, lowest first, and the body |
| Protobuf.ConsumedStops | voyager/protobuf/protobuf_codec.h:57-76 | on any bytes and with any parser, what stays is the end of the input, and the loop stops for want of a whole frame, at the callback's word, or before a body that does not parse |
| Protobuf.OnMessage | voyager/protobuf/protobuf_codec.h:55-77 | the loop over the buffer consumes as specified, errors included |
| Protobuf.SendMessage | voyager/protobuf/protobuf_codec.h:38-53 | a message goes out as one frame, or not at all |

## Left out

- CRC-32C: the SSE4.2 path; the tables are defined by the recurrence.
- Crc32c.Table0Entries: compares eight literals of `table0_` and none of `table1_` to `table3_`, for the others add constants and no argument.
- Base64: the big-endian branch; one leftover letter, which padding rules out; the literals of the tables, which are defined from the alphabet.
- Fixed words of 64 bits, which would only repeat those of 32, and the big-endian branches.
- Varint: `PutVarint32`, `PutVarint64` and `GetVarint64`, which wrap what is modelled, and the pointer form of `GetLengthPrefixedSlice`.
- Integer widths: buffer sizes, counters, descriptors and deadlines are unbounded numbers; overflow of `now + interval` and of `kHeaderSize + size` in allocation is not modelled. Words of 32 and 64 bits are bit-vectors wherever bits or truncation matter.
- Sudoku: characters other than digits, blanks and spaces, for which the code reads outside its tables; a second call of `Solve` on one solver.
- Pollers: event collection by epoll, select and kqueue, descriptors beyond `FD_SETSIZE`, closing of descriptors, kernel failures other than an illegal request. Only the poll backend's collection is modelled.
- Dispatch: the order in which `HandleEvent` calls back, and tying, which would only add easy members.
- Dispatching.ReplayCoherent: callers disable reading only while reading, as `voyager/core/tcp_connection.cc:70` does, and a removed dispatch is not registered again, for the poll backend does not reset its index.
- TCP: spurious failures of `compare_exchange_weak`, connection establishment, `StartRead` and `StopRead`, the high-water mark, names, contexts and logging; what `close_cb_` and `connection_cb_` do.
- Tcp.RunKeeps: no read event is delivered to a closed connection, and no hang-up event closes twice; the loop handles polled events after timers, so the code relies on the poller for that. A callback is a finite list of sends and shutdowns whose kernel answers are arbitrary; what other threads do is part of the list, at the place where it lands.
- Tcp.TcpConnection.HandleClose: the poller's and the event loop's part of the removal is modelled with the pollers, not here.
- Buffer: `ShrinkToFit`, which does not preserve contents, copies and moves.
- EventLoop: functions queued before `Loop`, which wake nobody; failing wake-up writes; connection bookkeeping; restarting a loop; thread creation.
- Timers: timer objects live in a map from identities that are never reused, and callbacks are finite lists of insertions and erasures. A timer set by another thread is set when the loop inserts it, with the clock as it is then. Time is what the readings of `RunTimerProcs` show of it.
- Timing.TimerList.RunTimerProcs: callbacks of due timers insert only timers that are not due yet, for otherwise the loop of the code need not end; timers of equal deadlines fire in an arbitrary order, as addresses decide.
- Wheel: one event loop at a time; `idle_ticks_` is at least one, for the server builds buckets only then; destruction of the entry's connection, and the HTTP parsers, whose handling of incomplete bodies is not worth a property.
- Monitor: the four edits of the allow and deny lists, which leave the counts as they are, have no row; closing of refused connections is the connection's part; each connection closes once.
- JSON: numbers, booleans and null, whose parsers discard or misread their input, are read as an outcome of their own; null pointers in values; positions in error messages. Bytes are characters.
- JsonText.JsonWriter.Stringify: statuses are left out, for writing these values cannot fail.
- Protobuf: serialisation and parsing are functions of which one undoes the other; a frame size below the header is taken for a parse failure; error callbacks.
- Protobuf.AnySegmentation: the callback never stops the loop and every frame is shorter than 2^32 bytes; FedConserves covers callbacks that stop.
- `TcpConnector`, `TcpClient`, `TcpServer`, the RPC layer, `Schedule`, `Status`, `Slice`, string utilities, hashing, logging.
