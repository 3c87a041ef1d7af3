# TinyNetwork: the verified core

TinyNetwork is a TCP server with one event loop, a worker pool, a send thread and a recycle thread. This
project models the parts of it that carry state across calls and threads, and proves what they keep over
whole runs.

| Part | Files | Main results |
|---|---|---|
| Timer engine | `Timers.dfy`, `TimerRuns.dfy`, `TimerPass.dfy`, `EventBase.dfy` | the two timer tables stay in bijection under any callbacks; every timer has exactly one fate; a pass ends, fires in order, and a persistent timer catches up exactly and keeps its task over whole runs; the poll timeout is exact after a refresh and never late |
| Byte stream | `Common.dfy`, `Bytes.dfy`, `Buffer.dfy`, `Codec.dfy`, `Stream.dfy` | the growing buffer is a byte sequence at amortised linear cost; framing round-trips, is prefix-free and does not depend on how the stream is cut; the parse of a byte string is the only way to cut it into frames |
| Send path | `SendPath.dfy`, `UnsignedSend.dfy`, `Connection.dfy` | as intended: under any partial writes, bytes sent followed by bytes buffered are the accepted frames in order, and event mode, write events and a non-empty buffer coincide; `isend` counts exactly what the write calls take; as it stands: event mode is never entered, and the bytes are right exactly until a write call fails |
| Delivery | `Sweeper.dfy`, `Delivery.dfy`, `PoolProofs.dfy`, `RequestProofs.dfy`, `DeliveryProofs.dfy`, `DeliveryRuns.dfy`, `RequestFates.dfy`, `DeliveryAsStands.dfy`, `FatesAsStand.dfy`, `Backend.dfy` | with the event loop, thread pool, send thread and recycle thread interleaved: a reply goes out in the checkout that received its request exactly if its connection is not closed between the test of the stamp and the hand-over; the pool stays partitioned in every run; a close ends the checkout it was asked for exactly if no earlier close has ended that one; no wakeup is lost; every request has exactly one message in exactly one place, and only the end of its checkout keeps the reply from its client; what a client decodes are answers to different requests |
| Thread pool | `ThreadPool.dfy`, `ThreadPoolObject.dfy` | first in, first out, each task run once; what a woken worker does is exact, and one left alone runs all that is queued; the counters count; with any number of producers, when all workers have left exactly the tasks pushed after the last core worker are lost, at most one for every producer |
| Task queue | `TaskQueue.dfy` | a queued task is never forgotten by the event loop |

Each imperative part appears twice. A datatype and functions on it say what one atomic step does; the lemmas
are about every run of such steps. Beside them a class keeps the fields of the source and updates them in
place; each of its methods is proved to make exactly the step its name says. History that the program does
not keep (what was accepted, what has fired, which checkout a message comes from) is part of the datatype, so
that properties of whole runs can be stated.

What the model takes as input: the millisecond clock and the actions of every user callback (`Env`), the
outcome of every `read` and `write` call, the interleaving of the threads, and what stale memory holds.
Callbacks are adversarial: a callback is any finite list of `runAt`, `cancel` and `exit` calls.

## Where the code differs from what its surroundings rely on

The member the callers and the header rely on carries the whole-run theorems. The line as written is modelled
beside it, with the exact condition under which the two agree.

- `net/tiny_buffer.cxx:123` tests the begin index where the end index is meant, and `:116-117` zeroes the begin
  index before subtracting it. `Buffers.Buffer.AppendAsWritten` stays inside the allocation exactly when
  `AppendFits`; for `encode` that means exactly for bodies outside 504 to 512 bytes
  (`Codec.EncodeAsWritten`).
- `codec/tiny_codec.cxx:55-57` reads the header before its bytes have arrived. The result is right whatever
  stale memory holds exactly when the buffer does not end inside a header (`Codec.DecodeAsWrittenExact`,
  `Stream.ParseAsWrittenExact`); over a whole stream, exactly when no batch that is read ends inside one
  (`Stream.FeedAllAsWrittenExact`).
- `codec/tiny_codec.cxx:74` subtracts 8 from a length field that may be smaller. That is the result `Fault`;
  decoding yields a report exactly on the frame of a well-formed one (`Codec.GotIffFrame`).
- `net/tiny_tcpconnection.cxx:148` keeps the result of `write` in an unsigned variable, so the tests for an
  interrupted call and for a full socket at `:156-169` are never true. The count that `isend` returns is right
  exactly when no write call fails (`UnsignedSend.ISendAsWrittenExact`). In every run of the code as it stands
  event mode is never entered; once a write call has failed the bytes sent and buffered are never again those
  accepted, and as long as every write call has taken at least one byte all that was accepted has been sent in
  order (`UnsignedSend.RunAsWrittenExact`); in the whole system the client has then decoded
  every reply handed over (`DeliveryAsStands.ClientSeesAllReplies`).
- `net/tiny_tcpconnection.cxx:166` enables read events where write events are meant. As the code stands the line
  is never reached. Were only `:148` repaired, it would make a difference exactly when the socket is full, and
  the connection would then never send again (`SendPath.SendReadingExact`, `SendPath.BlockedOnceStaysBlocked`).
- `net/tiny_tcpconnection.cxx:180-182` documents the answer 0 as "sent" and 1 as "event-driven sending started".
  0 is also the answer for a connection without a channel, where nothing is sent, and after a hard write error 1
  comes without event mode (`SendPath.SendAnswers`).
- `net/tiny_tcpconnection.cxx:170-174` leaves a connection with buffered bytes and event mode off after a hard
  write error, exactly then breaking the send invariant (`SendPath.SendOkExact`).
- `net/tiny_eventbase.cxx:63-64` looks up a persistent timer without testing that it is registered. Such a
  call, and the cancelling of a persistent timer's internal key, is recorded as `misused`; the whole-run
  theorems hold up to it (`TimerRuns.CancelGoodExact`, `TimerRuns.IssuedIdsAreNotInternal`).
- `net/tiny_eventbase.cxx:61` and `:133` tell persistent timers by a negative id, so a persistent timer with a
  deadline of 0 or less cannot be cancelled by its id (`TimerRuns.CancelStopsPersistentExact`).
- `net/tiny_eventbase.cxx:131` accepts a negative interval; a due timer with one keeps the expiry loop busy for
  ever, unless a callback cancels it (`TimerPass.PassEndsExact`, `TimerPass.PassEndsOncePositive`).
- `net/tiny_eventbase.cxx:121` assigns a 64-bit difference to an `int`; a timeout is late exactly
  for a deadline overdue by more than 2^31 ms whose distance modulo 2^32 exceeds 2^31
  (`TimerRuns.TruncationExact`).
- `net/tiny_sendthread.cxx:92` tests the stamp of a reply and `:105` hands it over, with no lock that keeps the
  connection object in its checkout in between. A reply is handed over in its own checkout if and only if its
  object was not closed in between (`DeliveryProofs.RepliesReachTheirCheckout`); otherwise it can go out on the
  next client's connection (`DeliveryProofs.ForeignReply`; `DeliveryRuns.ReplyGoesToNextClient` is a run in which
  it does). It is safe if, when the stamp is tested, the object is
  not with the recycle thread or was given in less than ten seconds before the hand-over
  (`DeliveryProofs.GuardedHandOver`).
- `net/tiny_poller.cxx:101-108` delivers errors and hang-ups as read events even while reading is off, so
  `recycle` can be called again for a connection that is with the recycle thread already, and the object is then
  queued twice. The pool stays partitioned even so (`PoolProofs.PoolAlwaysKept`), but the second close finds the
  object either free, and `net/tiny_tcpconnection.cxx:67` goes through a null pointer
  (`DeliveryRuns.SecondRecycleCrashes`), or in the checkout of the next client, whose connection it ends
  (`DeliveryRuns.SecondRecycleClosesNext`). In every run a close ends the checkout in which its `recycle` was
  called if and only if no earlier close has ended that checkout (`PoolProofs.CloseExact`,
  `PoolProofs.OneCloseExact`); without a second `recycle` every close does (`PoolProofs.ClosesTheirOwn`).
- `net/tiny_recythread.cxx:79-82` takes the list positions before the lock, and the size counter is never
  lowered: a round that starts with an empty list sweeps nothing. No wakeup is lost through that
  (`Sweeping.NextAwake`, `DeliveryProofs.NoLostWakeup`).
- `include/tiny_threadpool.h:247` tests the stop flag outside the lock taken at `:267`. With `stop` in between, a
  task can be accepted and never run (`ThreadPools.PushAfterStopLosesTask`). A push is in time exactly if some
  core worker has not left (`ThreadPools.PushExact`); over every run, at most one task is lost for
  every producer, and exactly those are lost that were pushed after the last core worker had left
  (`ThreadPools.LostExactly`).
- `include/tiny_threadpool.h:253` compares the counter with the limit before a thread is counted at `:240`, so with
  n producers the limit can be exceeded by n - 1 (`ThreadPools.CountersAreRight`).
- `net/tiny_tcpconnection.cxx:78-88` returns without calling the read callback when the peer closes, so what
  arrives together with the end of the stream is never decoded (`Connections.TcpConnection.HandleRead`).

## Model

| member | source | states |
|---|---|---|
| TimerRuns.AllRunsGood | net/tiny_eventbase.cxx:59-147 | In every run from the start, with any callbacks and any clock, up to a misuse of cancel: records and persistent entries are in bijection, no sequence number is used twice, every accepted timer has exactly one fate |
| TimerRuns.RunGood | net/tiny_eventbase.cxx:59-147 | From any good state, the bijection, the unique numbers and the fates hold in every run over api calls, passes and leaving the loop |
| TimerRuns.NextGood | net/tiny_eventbase.cxx:99-112 | Each single step keeps the bijection, the unique numbers and the fates |
| TimerRuns.CallbackStartsGood | net/tiny_eventbase.cxx:90-97 | The tables are good at the moment a user callback starts, so it may register and cancel timers, itself included |
| TimerRuns.FireGood | net/tiny_eventbase.cxx:105-109 | One round of the expiry loop with its whole callback keeps the tables good |
| TimerRuns.DoAllGood | net/tiny_eventbase.cxx:59-147 | Any script of runAt, cancel and exit calls keeps the tables good |
| TimerRuns.RunAtGood | net/tiny_eventbase.cxx:126-147 | Registering a one-shot or a persistent timer keeps the tables good |
| TimerRuns.CancelGood | net/tiny_eventbase.cxx:59-82 | Cancelling anything but an unregistered negative id or an internal key keeps the tables good |
| TimerRuns.CancelGoodExact | net/tiny_eventbase.cxx:72-81 | For non-negative ids cancel keeps the tables good if and only if the id is not the internal key of a persistent timer |
| TimerRuns.IssuedIdsAreNotInternal | net/tiny_eventbase.cxx:61-145 | No id that runAt has handed out is an internal key; cancelling one is a misuse if and only if its first part is negative and it is not a registered persistent timer |
| TimerRuns.CancelAnswersPending | net/tiny_eventbase.cxx:61-81 | A one-shot is pending if and only if it has not fired, been cancelled or been cleared; with a deadline that is not negative cancel answers true exactly then, with a negative one it is misused and leaves the timer pending |
| TimerRuns.CancelStopsPersistentExact | net/tiny_eventbase.cxx:61-81 | cancel stops a registered persistent timer if and only if its deadline was positive; otherwise nothing changes |
| TimerRuns.RunAtIsPending | net/tiny_eventbase.cxx:126-147 | runAt leaves the new timer pending with the deadline, interval and task it was given, under a number never handed out before, and every other timer as it was |
| TimerRuns.CancelUndoesRunAt | net/tiny_eventbase.cxx:59-147 | Cancelling at once restores both tables if and only if a one-shot's deadline is not negative, a persistent timer's positive |
| TimerRuns.IssuedCancelExact | net/tiny_eventbase.cxx:61-81 | Cancelling an id that runAt has handed out is recorded as a misuse if and only if it is negative and not a registered persistent timer |
| TimerRuns.ExitedRegistersNothing | net/tiny_eventbase.cxx:54-147 | After exit callbacks register nothing any more, and what is in the table only becomes less |
| TimerRuns.DoAllDoesEach | net/tiny_eventbase.cxx:90-109 | A callback makes its calls one after the other: each runAt, cancel or exit acts on the state those before it have left |
| TimerRuns.OneShotRunsItsTask | net/tiny_eventbase.cxx:99-147 | Whatever else is registered, cancelled or expires, a one-shot that is still pending holds the task it was registered with, and runs it when its turn comes |
| TimerRuns.NumbersAreUsedOnce | net/tiny_eventbase.cxx:93-142 | Two ids or keys with the same sequence number are the same |
| TimerRuns.NeverFiresAfterCancel | net/tiny_eventbase.cxx:61-71 | In every run after its cancel, or after the loop has ended, a persistent timer's callback never starts again |
| TimerRuns.RunTimeout | net/tiny_eventbase.cxx:114-124 | In every run the poll timeout is at most the distance of the nearest deadline from the last refresh, although cancel does not refresh it, unless that refresh itself met a distance that wraps |
| TimerRuns.RefreshTimeoutExact | net/tiny_eventbase.cxx:114-124 | Right after a refresh the timeout is not late if and only if the distance does not wrap |
| TimerRuns.RefreshExact | net/tiny_eventbase.cxx:114-124 | A refresh sets 2^30 without timers; otherwise the distance of the nearest deadline from the clock, or 0 if that has passed, for every distance that fits an int; and in general one equal to it modulo 2^32 |
| TimerRuns.PollLastsExactly | net/tiny_eventbase.cxx:208-212 | After a refresh the poll lasts exactly the smaller of what it was asked to last and the distance of the nearest deadline, neither longer nor shorter |
| TimerRuns.PollEndsInTime | net/tiny_eventbase.cxx:208-212 | A poll ends no later than the nearest deadline, but for the time since the last refresh |
| TimerRuns.TruncationExact | net/tiny_eventbase.cxx:121-122 | Truncation to int makes a timeout later if and only if the deadline is overdue by more than 2^31 ms and its distance modulo 2^32 exceeds 2^31 |
| TimerRuns.FewerTimersTimeout | net/tiny_eventbase.cxx:59-82 | With fewer timers the old timeout is still never late |
| Timers.AddOnceGood | net/tiny_eventbase.cxx:140-146 | A new one-shot keeps bijection, unique numbers and fates |
| Timers.AddRepGood | net/tiny_eventbase.cxx:131-139 | A new persistent timer with its two numbers keeps bijection, unique numbers and fates |
| Timers.DropOnceGood | net/tiny_eventbase.cxx:73-77 | Cancelling a one-shot keeps bijection, unique numbers and fates |
| Timers.DropRepGood | net/tiny_eventbase.cxx:63-71 | Cancelling a registered persistent timer keeps bijection, unique numbers and fates |
| Timers.ExpireOnceGood | net/tiny_eventbase.cxx:105-109 | The expiry of a one-shot keeps bijection, unique numbers and fates |
| Timers.ExpireRepGood | net/tiny_eventbase.cxx:90-97 | The expiry of a persistent entry, which puts itself back, keeps bijection, unique numbers and fates |
| Timers.ClearGood | net/tiny_eventbase.cxx:202-203 | Emptying both tables keeps bijection, unique numbers and fates; what was pending counts as cleared |
| TimerPass.CatchUpIsExact | net/tiny_eventbase.cxx:90-112 | In one pass a persistent timer with deadline a <= now and interval I that is not cancelled fires exactly (now - a) / I + 1 times, and its next deadline is the only a + k * I in (now, now + I] |
| TimerPass.PassEnds | net/tiny_eventbase.cxx:99-112 | The expiry loop ends within the total of remaining firings and leaves nothing due, if the callbacks still to come ask only for later timers |
| TimerPass.FireLowersWork | net/tiny_eventbase.cxx:90-109 | Each round lowers that total although persistent timers put themselves back |
| TimerPass.PassEndsExact | net/tiny_eventbase.cxx:99-112 | With callbacks that ask only for later timers and cancel nothing, the pass ends if and only if every due persistent timer has a positive interval |
| TimerPass.PassEndsOncePositive | net/tiny_eventbase.cxx:99-112 | With callbacks that ask only for later timers, whatever they cancel, the pass ends if and only if after some round no due timer with a negative interval is left (a condition on the pass itself; `PassEndsExact` has one to test beforehand) |
| TimerPass.PassIsARun | net/tiny_eventbase.cxx:99-112 | A whole pass with its refresh is a run of the loop's machine, so the whole-run results hold over passes |
| TimerPass.PassFiresInOrder | net/tiny_eventbase.cxx:101-109 | Keys fired in one pass are strictly increasing in deadline and number, none after the snapshot |
| TimerPass.NothingDueMeansLater | net/tiny_eventbase.cxx:102-105 | Below 2^62 sequence numbers, nothing due means every deadline is after the snapshot, and conversely |
| TimerPass.RoundsCatchUp | net/tiny_eventbase.cxx:90-112 | Over any number of rounds a timer's deadline is its first deadline plus its firings times the interval |
| TimerPass.RunAdvances | net/tiny_eventbase.cxx:90-147 | In every run a persistent timer that is still registered has kept its interval and its task, and its deadline is the first one plus as many intervals as it has fired |
| TimerPass.PersistentRunsItsTask | net/tiny_eventbase.cxx:90-109 | When the entry of a persistent timer comes first in a pass, the next callback is the one it was registered with, run with the timer back in the table |
| EventLoop.EventBase.LoopOnce | net/tiny_eventbase.cxx:208-212 | Waits at most the smaller of the two timeouts; then the calls of the poll's callbacks, then one pass |
| EventLoop.EventBase.HandleTimeouts | net/tiny_eventbase.cxx:99-112 | The loop terminates; its effect is the rounds of the pass until nothing is due, then a refresh |
| EventLoop.EventBase.Expire | net/tiny_eventbase.cxx:105-109 | The loop itself: the rounds of the pass, with nothing due at the end |
| EventLoop.EventBase.RunFirst | net/tiny_eventbase.cxx:106-108 | Taking out the earliest entry and running it is one round |
| EventLoop.EventBase.RepeatableTimeout | net/tiny_eventbase.cxx:90-97 | Moves the deadline on by one interval, puts the entry back, refreshes, then runs the callback's script |
| EventLoop.EventBase.RunTask | net/tiny_eventbase.cxx:106-108 | A one-shot is out of the table before its own task runs |
| EventLoop.EventBase.RunAt | net/tiny_eventbase.cxx:126-147 | New state and id are those of the abstract runAt, also after exit |
| EventLoop.EventBase.Cancel | net/tiny_eventbase.cxx:59-82 | New state and answer are those of the abstract cancel |
| EventLoop.EventBase.RefreshNearestTimeout | net/tiny_eventbase.cxx:114-124 | New state is the abstract refresh; the timeout is 2^30 without timers, and otherwise the distance of the nearest deadline, at least 0, if it fits an int |
| EventLoop.EventBase.LeaveLoop | net/tiny_eventbase.cxx:202-205 | Both tables are emptied and stay empty through the last round, whatever its callbacks call |
| EventLoop.EventBase.constructor | net/tiny_eventbase.cxx:36 | A new engine is in the start state |
| EventLoop.EventBase.Begin | net/tiny_eventbase.cxx:105-107 | The first key of the ordered table is the least |
| Buffers.CopyingIsLinear | net/tiny_buffer.cxx:73-137 | Since the last clear, expand has copied at most capacity - 512 bytes, capacity is at most 2 * appended + 1024, and all copying is linear in what was appended |
| Buffers.RunRefinesBytes | net/tiny_buffer.cxx:73-137 | Any legal run of buffer operations gives the bytes of the same run on a plain sequence and keeps the layout and cost bounds |
| Buffers.ApplyRefinesBytes | net/tiny_buffer.cxx:73-137 | Each single operation matches the operation on plain bytes and keeps the layout and cost bounds |
| Buffers.RunManyRefinesBytes | net/tiny_buffer.cxx:15-137 | Any legal run over any number of buffers, with moves between them (a buffer into itself included), gives the bytes of the same run on plain sequences and keeps every layout and cost bound |
| Buffers.MakeRoomLeavesSlack | net/tiny_buffer.cxx:73-77 | makeRoom leaves at least 512 free bytes and the contents alone |
| Buffers.MakeRoomForLeavesLen | include/tiny_buffer.h:28 | makeRoom(len) leaves at least len free bytes and the contents alone |
| Buffers.RoomIsFrugal | net/tiny_buffer.cxx:73-130 | Room that is there is used as it is, otherwise the contents are copied once; makeRoom at most doubles; makeRoom(len) enlarges only to about four times what is to be held, and otherwise moves the contents to the start |
| Buffers.FirstAppendFits | net/tiny_buffer.cxx:121-137 | The first append to a buffer without an array is right as written |
| Buffers.AppendFitsAtHead | net/tiny_buffer.cxx:121-130 | For a buffer whose contents start at 0 the line as written fails exactly if the tail is short of len and the allocation is not |
| Buffers.Buffer.AppendAsWritten | net/tiny_buffer.cxx:113-137 | append as written stays inside the allocation if and only if AppendFits, and then appends |
| Buffers.Buffer.MakeRoomForAsWritten | net/tiny_buffer.cxx:113-130 | makeRoom(len) as written leaves len bytes if and only if AppendFits |
| Buffers.Buffer.Append | net/tiny_buffer.cxx:132-137 | Appends the bytes, moving or growing the array as needed |
| Buffers.Buffer.MakeRoomFor | include/tiny_buffer.h:28 | Leaves len bytes at the tail, keeping the contents |
| Buffers.Buffer.MakeRoom | net/tiny_buffer.cxx:73-77 | Leaves 512 bytes at the tail, keeping the contents |
| Buffers.Buffer.Expand | net/tiny_buffer.cxx:84-95 | Copies the contents to the start of a new array of the doubled or needed size |
| Buffers.Buffer.MoveHead | net/tiny_buffer.cxx:113-118 | Moves the contents in place to the start of the array |
| Buffers.Buffer.AddSize | net/tiny_buffer.cxx:79-82 | Bytes written at the tail become part of the contents |
| Buffers.Buffer.Consumed | net/tiny_buffer.cxx:106-111 | Drops a prefix of the contents; releases the array when nothing is left |
| Buffers.Buffer.Clear | net/tiny_buffer.cxx:97-104 | Releases the array |
| Buffers.Buffer.Move | net/tiny_buffer.cxx:15-19 | The new buffer takes contents and array; the old one is empty and owns nothing |
| Buffers.Buffer.MoveFrom | net/tiny_buffer.cxx:21-41 | The target takes contents and array and the source is empty; assigning a buffer to itself changes nothing |
| Buffers.Buffer.Receive | net/tiny_tcpconnection.cxx:75-112 | Bytes read into the free tail are appended without copying the contents |
| Buffers.Buffer.constructor | net/tiny_buffer.cxx:5-8 | A new buffer is empty |
| Codec.RoundTrip | codec/tiny_codec.cxx:10-77 | Decoding the frame of a well-formed report, whatever follows, gives the report and consumes exactly the frame |
| Codec.FrameBytes | codec/tiny_codec.cxx:10-32 | The bytes of a frame: 0x3f, length and type with the low byte first, four zero bytes, the body |
| Codec.DecodeRejectsExact | codec/tiny_codec.cxx:43-69 | Decoding answers that the data is wrong exactly if the first byte or a checksum byte is; fails exactly on a sound header with a length field below 8; and needs more exactly for part of a header or a proper prefix of a frame |
| Codec.GotIffFrame | codec/tiny_codec.cxx:41-77 | A report is decoded if and only if the data starts with the frame of that well-formed report |
| Codec.DecodedIsFrame | codec/tiny_codec.cxx:55-76 | What is consumed is the frame of what is returned |
| Codec.ProperPrefixNeedsMore | codec/tiny_codec.cxx:36-69 | Every proper prefix of a frame decodes to not enough data |
| Codec.DecodeExtends | codec/tiny_codec.cxx:41-77 | A decoded report or an error does not change when more bytes arrive |
| Codec.PrefixFree | codec/tiny_codec.cxx:5-8 | No frame is a proper prefix of another |
| Codec.FramesInjective | codec/tiny_codec.cxx:10-32 | Different lists of reports have different encodings |
| Codec.DecodeAsWrittenExact | codec/tiny_codec.cxx:55-63 | decode as written is independent of stale memory if and only if the data does not end inside a header |
| Codec.Encode | codec/tiny_codec.cxx:10-32 | The buffer returned holds the frame of the report |
| Codec.FillHeader | codec/tiny_codec.cxx:12-29 | The nine header bytes, filled field by field |
| Codec.EncodeAsWritten | codec/tiny_codec.cxx:31 | With append as written, encode stays inside the allocation if and only if the body is not 504 to 512 bytes long |
| Stream.ChunkingIsIrrelevant | app/tiny_server.cxx:44-105 | However the stream is cut into reads, reports, leftover bytes and ending are those of one batch parse |
| Stream.ReceiverSeesSender | net/tiny_tcpconnection.cxx:70-123 | Frames and part of a further frame, cut in any way, give exactly those reports and leave exactly that part |
| Stream.ParseExtends | app/tiny_server.cxx:50-105 | Parsing data and then more data is parsing them at once |
| Stream.ParseExact | app/tiny_server.cxx:50-105 | The parse is the only way to cut a byte string into frames of well-formed reports and a rest that is no further frame, the rest deciding how the loop ends |
| Stream.FramesParse | app/tiny_server.cxx:50-105 | Concatenated frames and part of one more parse to the reports and that part |
| Stream.PrefixParses | app/tiny_server.cxx:50-105 | Whatever prefix of a framed list has arrived, its whole frames have been decoded and the rest is part of the next |
| Stream.ParseAsWrittenExact | app/tiny_server.cxx:50-105 | With decode as written, one run of the loop is right whatever stale memory holds if and only if what it leaves does not end inside a header |
| Stream.FeedAllAsWrittenExact | app/tiny_server.cxx:44-105 | With decode as written, over any sequence of batches the result is right whatever stale memory holds at each run of the loop if and only if no batch that is read ends inside a header |
| Stream.OnRead | app/tiny_server.cxx:44-105 | The decode and consume loop over the buffer is the batch parse of its contents |
| SendPath.RunOk | net/tiny_tcpconnection.cxx:125-210 | Over every interleaving of sends and write events without hard errors: wire bytes and buffer are the accepted frames in order; event mode, write events and a non-empty buffer coincide |
| SendPath.SendOkExact | net/tiny_tcpconnection.cxx:184-210 | send keeps that if and only if it is refused or the write does not end in an unhandled error |
| SendPath.SendAnswers | net/tiny_tcpconnection.cxx:180-210 | The answers of send: -1 changes nothing; 1 leaves a tail of the frame buffered, event mode being on exactly if the socket was full; 0 means the whole frame is on the wire if and only if the connection has a channel or the frame is empty |
| SendPath.HandleWriteOk | net/tiny_tcpconnection.cxx:125-139 | A write event keeps that under any outcomes |
| SendPath.ISendCounts | net/tiny_tcpconnection.cxx:142-178 | The count is the smaller of len and the bytes taken before the first call that finds the socket full, fails or writes nothing, interrupted calls being made again; those decide the ending exactly |
| SendPath.SendSends | net/tiny_tcpconnection.cxx:184-210 | A direct send puts exactly the bytes the write calls took on the wire and the rest of the frame behind what is buffered |
| SendPath.WriteEventSends | net/tiny_tcpconnection.cxx:125-139 | A write event sends exactly as many buffered bytes as the write calls took, and ends event-driven sending if and only if that was all |
| UnsignedSend.RunAsWrittenExact | net/tiny_tcpconnection.cxx:125-210 | In every run of the code as it stands: event mode and write events are never on; if no write call has answered zero, bytes sent and buffered are the accepted frames in order if and only if no write call has failed; after a failure they never are |
| UnsignedSend.SendAsWrittenExact | net/tiny_tcpconnection.cxx:142-210 | send as it stands keeps the bytes in order if and only if none of its write calls fails and the bytes written commute with those already buffered |
| UnsignedSend.HandleWriteAsWrittenExact | net/tiny_tcpconnection.cxx:125-178 | tcpHandleWrite as it stands keeps the bytes in order if and only if none of its write calls fails |
| UnsignedSend.LeftExact | net/tiny_tcpconnection.cxx:197-198 | Consuming the count of isend modulo 2^64 leaves exactly the unwritten bytes if no call failed, and more than them otherwise |
| UnsignedSend.ISendAsWrittenExact | net/tiny_tcpconnection.cxx:144-177 | With the unsigned result, isend reports what is on the wire if no write call fails; otherwise it reports more than it was given or has sent bytes twice |
| UnsignedSend.ISendCountsAsWritten | net/tiny_tcpconnection.cxx:142-178 | With the unsigned result, whatever the calls answer: the bytes written, the count (one less for every failed call, modulo 2^64) and when the loop ends |
| UnsignedSend.SendAsWrittenAnswers | net/tiny_tcpconnection.cxx:184-210 | The answer of send as it stands: 0 if and only if there is no channel, or as many bytes more than the frame has were written as calls failed; otherwise 1, or -1 in event mode |
| UnsignedSend.CleanRunSendsAll | net/tiny_tcpconnection.cxx:125-210 | A run in which every write call takes at least one byte sends all it accepts, in order, at once |
| UnsignedSend.ISendLoop | net/tiny_tcpconnection.cxx:142-178 | The loop with its wrapping addition computes count, bytes written and calls used of the abstract loop |
| UnsignedSend.FaithfulExcludesExcess | net/tiny_tcpconnection.cxx:177 | The two outcomes exclude each other, so the condition is exact |
| SendPath.SendReadingExact | net/tiny_tcpconnection.cxx:148-168 | With the result at :148 signed and :166 as written, send differs from the intended send if and only if the socket is full |
| SendPath.BlockedOnceStaysBlocked | net/tiny_tcpconnection.cxx:148-191 | With the result at :148 signed and :166 as written, once the socket has been full no step ever changes the connection again |
| Connections.TcpConnection.Send | net/tiny_tcpconnection.cxx:184-210 | New state and answer are those of the abstract send; the write buffer holds what is pending |
| Connections.TcpConnection.SendDirect | net/tiny_tcpconnection.cxx:194-206 | What the socket takes leaves the caller's buffer, the rest goes to the write buffer |
| Connections.TcpConnection.ISend | net/tiny_tcpconnection.cxx:142-178 | Count and ending of the abstract isend, the count being what the write calls took before giving up; event mode and write events are switched on together, only when the socket is full |
| Connections.TcpConnection.KeepRest | net/tiny_tcpconnection.cxx:202-209 | What the socket did not take is kept behind the bytes already buffered |
| Connections.TcpConnection.HandleWrite | net/tiny_tcpconnection.cxx:125-139 | New state is that of the abstract write event |
| Connections.TcpConnection.HandleRead | net/tiny_tcpconnection.cxx:70-123 | Reads what the tries offer; if the peer has closed or an error occurred, the callback does not run, reading is off and the time noted; all bytes taken are parsed if the socket was drained; damaged data recycles too |
| Connections.Drain | net/tiny_tcpconnection.cxx:73-116 | The read loop appends what has arrived as far as the tries ask for it (one of more than 512 bytes may deliver as few as 512); it answers that the socket is not drained only at the end of the stream or an error, and does so then unless it finds the socket empty before |
| Connections.TcpConnection.Init | net/tiny_tcpconnection.cxx:22-38 | Next sequence number, empty buffers, open for reading only |
| Connections.TcpConnection.Reset | net/tiny_tcpconnection.cxx:40-53 | Next sequence number, no channel, event mode off |
| Connections.TcpConnection.Recycle | net/tiny_tcpconnection.cxx:60-61 | The time is noted and read events are off |
| Connections.TcpConnection.constructor | net/tiny_tcpconnection.cxx:12-15 | A new object has sequence number 0, no channel and empty buffers |
| Sweeping.NextAwake | net/tiny_sendthread.cxx:31-122 | Every push, wait, test, taking of positions, lock and sweep step keeps: when the worker is about to wait, the semaphore covers the list, also after rounds that sweep nothing |
| Sweeping.RunConserves | net/tiny_sendthread.cxx:31-122 | Over any run the semaphore has been posted once for every push and every element left in place, and list and counter follow pushes and erasures |
| Sweeping.RoundSweepsExact | net/tiny_recythread.cxx:75-104 | Whatever is pushed between the taking of the positions and the lock, the round sweeps the whole list, that included, if and only if the list was not empty when they were taken |
| DeliveryProofs.ClientSeesItsReplies | app/tiny_server.cxx:44-94 | In every run, on every open connection without hard write errors, the client decodes exactly a prefix of the replies handed over in this checkout and part of the next; each answers a different request, and one parsed from its own bytes if and only if the object was not closed between the test of that reply and its hand-over |
| RequestFates.EveryRequestHasOneFate | app/tiny_server.cxx:50-105 | In every run, every request that the bytes of a checkout parse to has exactly one message, with its answer, in exactly one of: thread pool, send queue, dropped, handed over, missed; while the checkout is in progress it is not dropped or missed, and if handed over then in that checkout |
| RequestFates.NextAllAsked | app/tiny_server.cxx:50-105 | Each step keeps: every request parsed has a message, with the thread pool or pushed |
| RequestFates.DropExact | net/tiny_sendthread.cxx:91-99 | In every reachable state the test of the stamp drops a reply if and only if the checkout that asked for it has been ended |
| RequestFates.StampExact | net/tiny_sendthread.cxx:91-99 | The stamp of a message is the number of its object if and only if the checkout that asked for it is in progress |
| RequestFates.HandExact | net/tiny_sendthread.cxx:101-118 | A tested reply to a closed object is missed; to one that is sending by events it stays queued and is posted again, nothing else changing; to any other it is handed over |
| RequestFates.NextLost | net/tiny_sendthread.cxx:88-118 | Each step keeps: a reply was dropped, missed or handed over late only because its checkout had been ended |
| RequestFates.WriteEventFlushes | net/tiny_tcpconnection.cxx:125-139 | A write event that takes all that is buffered leaves a client that has decoded every reply handed over in its checkout, and direct sending on |
| RequestFates.EveryClientSeesItsReplies | net/tiny_tcpconnection.cxx:142-210 | In every run whose hand-overs meet no hard write error, every client still connected has decoded exactly a prefix of the replies handed over in its checkout |
| DeliveryAsStands.ClientSeesAllReplies | net/tiny_tcpconnection.cxx:142-210 | With send as it stands, in every run: on every open connection on which every write call has taken at least one byte, the client has decoded all replies handed over in this checkout, each the answer to a different request, its own under the same condition |
| FatesAsStand.EveryRequestHasOneFateAsStands | net/tiny_tcpconnection.cxx:142-210 | The same one fate of every request with send as it stands, whatever its write calls answer |
| FatesAsStand.EveryClientSeesAllReplies | net/tiny_tcpconnection.cxx:142-210 | In every run with send as it stands in which every write call takes at least one byte, every client still connected has decoded all replies handed over in its checkout |
| DeliveryAsStands.NextGoodRaw | net/tiny_tcpconnection.cxx:125-210 | With send as it stands each step keeps all invariants, event-driven sending off, and everything handed over sent until a write call fails |
| DeliveryProofs.WireDecodes | net/tiny_sendthread.cxx:76-120 | In every good state the wire of such a connection decodes to a prefix of the replies of its checkout and part of the next |
| DeliveryProofs.HandsAnswer | app/tiny_server.cxx:68-94 | The replies handed over in a checkout answer different requests, those of the checkout itself if and only if not handed over late |
| RequestProofs.NextRead | app/tiny_server.cxx:50-105 | Each step keeps: the requests of a checkout are those of one batch parse of all bytes given to the decode loop in it |
| RequestProofs.NextAsked | app/tiny_server.cxx:68-94 | Each step keeps: every message answers a request that was read, and no two the same |
| RequestProofs.HandedAreAsked | net/tiny_sendthread.cxx:101-118 | Every reply handed to send answers a request, and no two the same |
| Delivery.NoticeIsFramable | app/tiny_server.cxx:83-87 | The server's own answer, to any request, fits a frame |
| DeliveryProofs.RepliesReachTheirCheckout | net/tiny_sendthread.cxx:88-118 | In every run: a reply is handed over in the checkout that received its request if and only if its object was not closed between test and hand-over; every pushed message is in exactly one of queued, dropped, handed over, missed |
| DeliveryProofs.ForeignReply | net/tiny_sendthread.cxx:92-105 | If the object is closed and accepted anew in between, the reply is what goes out first on the next client's connection |
| DeliveryRuns.ReplyGoesToNextClient | net/tiny_sendthread.cxx:92-105 | A run from the start, whatever the answers and the outcomes of the writes: the tested reply to the first client's request is what goes out on the connection of the second client |
| DeliveryProofs.GuardedHandOver | net/tiny_sendthread.cxx:92-105 | If at the test the object is not with the recycle thread, or was given in less than ten seconds before the hand-over, the hand-over is in the right checkout, whatever the other threads do |
| DeliveryProofs.NextHeld | net/tiny_sendthread.cxx:88-118 | Each step keeps: a tested reply's object is in the right checkout exactly if not closed since |
| DeliveryProofs.NoLostWakeup | net/tiny_recythread.cxx:21-107 | In every run, for both threads: when the worker is about to wait, the semaphore covers the list |
| DeliveryProofs.RunGood | net/tiny_tcpconnectionpool.cxx:42-64 | In every interleaving, from any good state: the pool is partitioned, the sequence number is odd exactly while checked out, a checkout is in progress until one close ends it, stamps name their checkout, requests are those of the bytes decoded, messages are accounted for, workers are awake |
| DeliveryProofs.NextGood | net/tiny_tcpconnectionpool.cxx:42-64 | Each single step, a second recycle included, keeps pool partition, closes, stamps, held reply, streams, the account of messages and both workers awake |
| PoolProofs.PoolAlwaysKept | net/tiny_tcpconnectionpool.cxx:42-64 | At every moment of every run, second recycles included, free and checked-out objects partition the pool without duplicates, and a sequence number is odd exactly while its object is checked out |
| PoolProofs.CloseExact | net/tiny_recythread.cxx:75-104 | In every run a close ends the checkout in which its recycle was called if and only if no earlier close has ended that checkout; a checkout has been ended by a close if and only if it is not in progress |
| PoolProofs.OneCloseExact | net/tiny_tcpconnection.cxx:65-68 | A single close crashes if and only if its object is free, and otherwise ends the checkout in which its recycle was called if and only if that is in progress |
| PoolProofs.ClosesTheirOwn | net/tiny_tcpconnection.cxx:56-68 | In every run without a second recycle: every close meets an open object, in the checkout in which its recycle was called, and an object is queued, once, exactly while it is checked out and no longer read |
| DeliveryRuns.SecondRecycleClosesNext | net/tiny_poller.cxx:101-108 | A run from the start in which a connection is recycled twice and the second close ends the checkout of the next client, for which recycle was never called |
| DeliveryRuns.SecondRecycleCrashes | net/tiny_tcpconnection.cxx:65-68 | A run from the start in which a connection is recycled twice and the second close meets a free object |
| PoolProofs.NextPool | net/tiny_tcpconnectionpool.cxx:42-64 | Each step keeps the partition of the pool and the parity of sequence numbers |
| PoolProofs.NextCloses | net/tiny_recythread.cxx:75-104 | Each step keeps: a checkout is in progress until one close ends it, and a close ends the one it was asked for exactly if it is the first to |
| PoolProofs.NextQueue | net/tiny_tcpconnection.cxx:56-62 | Each step but a second recycle keeps: an object is queued once, exactly while it is checked out and no longer read, in the checkout of its recycle, and nothing has crashed |
| PoolProofs.ReturnExact | net/tiny_tcpconnectionpool.cxx:56-64 | Returning an object keeps the free list free of duplicates if and only if it is checked out |
| DeliveryProofs.ClosedAfterTenSeconds | net/tiny_recythread.cxx:86-101 | The recycle thread closes an open connection and returns it to the pool if and only if ten whole seconds have passed since it was given in; a free one it then crashes on; before that an element stays queued and is posted again |
| DeliveryProofs.NextStamps | app/tiny_server.cxx:74-77 | Each step keeps: a stamp on an object names one checkout |
| DeliveryProofs.MatchMeansSameCheckout | net/tiny_sendthread.cxx:91-99 | A stamp that matches means the object is still in the checkout that received the request |
| DeliveryProofs.HandOver | net/tiny_sendthread.cxx:101-118 | A reply handed to send extends the stream of its own checkout and no other |
| DeliveryProofs.NextStreams | net/tiny_sendthread.cxx:76-120 | Each step keeps: the accepted frames of a connection are those of the replies of its checkout, in order |
| DeliveryProofs.NextAccounted | net/tiny_sendthread.cxx:91-118 | Each step keeps the account of pushed messages |
| DeliveryProofs.NextAwakes | net/tiny_recythread.cxx:56-103 | Each step keeps both workers awake, also with the recycle thread's counter that is never lowered |
| DeliveryProofs.StartGood | net/tiny_tcpconnectionpool.cxx:6-20 | A new pool satisfies all invariants |
| BackendObjects.Backend.constructor | net/tiny_tcpconnectionpool.cxx:6-20 | The filling loop yields the start state with every object free once |
| BackendObjects.Backend.GetOneTcpConnection | net/tiny_tcpconnectionpool.cxx:43-53 | The first free object, initialised and with an odd number, or none if none is free |
| BackendObjects.Backend.Perform | net/tiny_sendthread.cxx:31-76 | Refinement of the steps outside the sweeps: a push on either list (with the time stamp of recycle), a wait, a test, and taking and leaving the lock |
| BackendObjects.Backend.SendSweep | net/tiny_sendthread.cxx:76-121 | A sweep that nothing interrupts is a run of one test and one hand-over per queued message and keeps all invariants |
| BackendObjects.Backend.SendLoop | net/tiny_sendthread.cxx:88-119 | The loop visits every message once although it erases while it walks |
| BackendObjects.Backend.TestOne | net/tiny_sendthread.cxx:90-99 | A stale reply is erased, any other is held, with its position kept |
| BackendObjects.Backend.HandOne | net/tiny_sendthread.cxx:101-118 | Refused: kept and posted again; otherwise erased, and sent if its object has a channel, whatever checkout it is in |
| BackendObjects.Backend.RecySweep | net/tiny_recythread.cxx:75-104 | The whole sweep is a run of one item step per queued element, or of none if the list was empty when its positions were taken, up to a close of a free object, and keeps all invariants |
| BackendObjects.Backend.RecyLoop | net/tiny_recythread.cxx:84-102 | The loop visits every element once although it erases while it walks, up to a close of a free object |
| BackendObjects.Backend.RecyOne | net/tiny_recythread.cxx:86-101 | Younger than ten seconds: kept and posted again; otherwise closed, reset and returned to the pool, in whatever checkout it is, or, if it is free, a crash |
| ThreadPools.NoTaskIsLost | include/tiny_threadpool.h:137-283 | In every run, whenever stop comes: tasks are dequeued in the order of acceptance, each accepted task is queued, run, or being run by one worker, and while a task is queued that was not pushed late a core worker has not left |
| ThreadPools.WakeExact | include/tiny_threadpool.h:151-224 | What a worker does when its wait is over: it takes and runs the front task if and only if there is one and it is a core worker or the pool is not stopped; it leaves if and only if there is nothing to do in a stopped pool, or it is an extended worker that found nothing or whose pool is stopped; no other worker changes |
| ThreadPools.WorkerRunsAll | include/tiny_threadpool.h:137-231 | A worker left alone runs all that is queued, in its order, and is ready again; a core worker also in a stopped pool |
| ThreadPools.EnqueueExact | include/tiny_threadpool.h:244-256 | enqueue adds an extended worker if and only if the pool is not stopped, no worker is waiting and those counted are fewer than the limit; in a stopped pool it does nothing |
| ThreadPools.CoreWorkersAreThere | include/tiny_threadpool.h:285-295 | In every run, once start has returned, there are exactly as many core workers as configured |
| ThreadPools.LostExactly | include/tiny_threadpool.h:174-276 | In every run with core threads and n producers, once all workers have left every accepted task has been dequeued if and only if none was pushed after the last core worker had left; at most n tasks are lost |
| ThreadPools.RunFrozen | include/tiny_threadpool.h:174-276 | Once the core workers have left nothing is dequeued any more, and only late tasks are accepted, at most one from every producer in enqueue at that moment |
| ThreadPools.AllLeftMeansDrained | include/tiny_threadpool.h:174-233 | With core threads and stop never inside enqueue: a core worker leaves only an empty queue, and once all workers have left every accepted task has been dequeued |
| ThreadPools.CountersAreRight | include/tiny_threadpool.h:149-256 | In every run the waiting counter is the number of waiting workers, and the total counter is the number of workers not yet gone less those not yet counted, at most the larger of the core size and the limit plus n - 1 for n producers |
| ThreadPools.RunGood | include/tiny_threadpool.h:127-303 | In every run: order and single execution of tasks, core workers leaving only a stopped pool, late tasks exactly those left queued, counters that count, and a core worker first |
| ThreadPools.NextTasks | include/tiny_threadpool.h:181-230 | Each step keeps the order and that each task runs once |
| ThreadPools.NextLate | include/tiny_threadpool.h:168-276 | Each step keeps: once the core workers have left, exactly the late tasks are queued, at most one for every producer out of enqueue |
| ThreadPools.NextDrain | include/tiny_threadpool.h:168-215 | Each step but a stop inside enqueue keeps: a core worker leaves only an empty queue |
| ThreadPools.NextCounters | include/tiny_threadpool.h:149-256 | Each step keeps: the waiting counter counts the waiting workers, the total counter those not gone, within the configured size |
| ThreadPools.PushExact | include/tiny_threadpool.h:267-276 | Whatever happens after a push, once all workers have left its task has been dequeued if and only if a core worker had not left when it was pushed |
| ThreadPools.PushAfterStopLosesTask | include/tiny_threadpool.h:247-276 | A run in which stop falls between the test and the push: the task is accepted, late and queued, and all workers are gone |
| ThreadPoolObject.ThreadPool.Enqueue | include/tiny_threadpool.h:244-283 | Refused once stopped; otherwise an extended thread if none waits and there is room, then the push |
| ThreadPoolObject.ThreadPool.StartPool | include/tiny_threadpool.h:285-295 | The loop creates and counts exactly the configured core threads |
| ThreadPoolObject.ThreadPool.AddThread | include/tiny_threadpool.h:127-242 | A thread in its initial state, running before it is counted |
| ThreadPoolObject.ThreadPool.EndWait | include/tiny_threadpool.h:151-224 | The decision of core and extended workers after the timed wait is the abstract one: the front task is taken and run by any worker of a running pool and by core workers of a stopped one; with no task, a worker leaves if and only if it is extended or the pool is stopped |
| ThreadPoolObject.ThreadPool.TakeTask | include/tiny_threadpool.h:217-223 | The front task leaves the queue and is the one the worker runs |
| ThreadPoolObject.ThreadPool.Perform | include/tiny_threadpool.h:137-303 | Refinement of the single steps: each step of a worker, and stop at any moment, does to the fields what the machine does |
| ThreadPoolObject.ThreadPool.constructor | include/tiny_threadpool.h:104-114 | No thread, no task, not stopped |
| TaskQueues.NoLostTask | net/tiny_eventbase.cxx:84-195 | In every interleaving a queued task implies an unread byte, a producer about to write or a consumer still draining; tasks run once each in order |
| TaskQueues.RunConserves | net/tiny_eventbase.cxx:84-195 | Over any run every write and every exit leaves one byte in the pipe and every wakeup takes one; pushes balance writes and pops |
| TaskQueues.RunGood | net/tiny_eventbase.cxx:84-195 | From any state where a queued task is not forgotten, every run keeps it so, and the order of tasks |
| TaskQueues.TaskLoop.AddTask | net/tiny_eventbase.cxx:84-88 | Undisturbed, a push and then a byte |
| TaskQueues.TaskLoop.OnWakeup | net/tiny_eventbase.cxx:160-170 | One byte is read and tasks run until the queue is empty, those pushed by running tasks included; everything accepted has then run, in order |
| TaskQueues.TaskLoop.Drain | net/tiny_eventbase.cxx:165-169 | The loop runs exactly the tasks of the abstract drain and ends, if finitely many tasks push others |
| TaskQueues.DrainedKeepsOrder | net/tiny_eventbase.cxx:165-169 | What was queued when the drain began runs first, in its order |
| TaskQueues.SafeQueue.Push | include/tiny_safequeue.h:38-49 | Refused exactly if the queue has exited or is full; otherwise appended |
| TaskQueues.SafeQueue.PopReady | include/tiny_safequeue.h:65-77 | Finds an item exactly if there is one, the front one; an exited queue still yields its items |

## Left out

- Sockets, epoll, `accept4`, `ioctl` and host names (net/tiny_tcpserver.cxx, net/tiny_poller.cxx, net/tiny_channel.cxx, net/tiny_ipaddr.cxx): foreign calls; of these only the outcomes of `read` and `write` and the enable bits are modelled.
- Signals, logging, the command-line client and makefiles: no state that outlives a call.
- Width of `size_t` in the buffer and of the 64-bit deadlines and counters: integers are unbounded, except where truncation or wrap-around decides the result (the poll timeout, the 16-bit header fields, the length field below 8, the unsigned write result).
- SendPath.RunOk: assumes no direct send ends in a hard write error; `SendOkExact` says why, and nothing is claimed of a connection after one (`failed` in `Delivery`).
- SendPath.ISendCounts: is about `isend` with a signed write result, where a socket that is offered no further outcome counts as full; the unsigned one is `UnsignedSend.ISendAsWritten`.
- SendPath.HandleWriteOk: is about write events in the intended event mode; as the code stands no write event ever comes (`UnsignedSend.RunAsWrittenExact`).
- UnsignedSend.RunAsWrittenExact: a call of `isend` that never returns is no step, and for runs in which a write call has answered zero only lengths and event mode are described (`UnsignedSend.SendAsWrittenExact` is about each single call). After the begin index has wrapped, one byte before the contents is read; its value is an input.
- Connections.TcpConnection.KeepRest: uses `append` as the header promises it; `FirstAppendFits` and `AppendAsWritten` say when the line as written does the same.
- Codec.Encode: uses `append` as the header promises it; `EncodeAsWritten` uses it as written.
- Codec.RoundTrip: is about `decode` with the missing length test in place; `DecodeAsWrittenExact` says when that makes no difference.
- Buffers.Buffer.MakeRoomFor: tests the free tail with the end index; `MakeRoomForAsWritten` is the line as written.
- Buffers.Buffer.MoveHead: subtracts before it zeroes; `MakeRoomForAsWritten` contains the order as written.
- TimerRuns.AllRunsGood: holds up to a misuse of cancel; after dereferencing the end of the map nothing is known of the program.
- TimerPass.PassEnds: assumes that the callbacks still to come ask only for timers after the snapshot; one that keeps asking for due timers keeps the loop busy.
- The outer `while` of `loop` (net/tiny_eventbase.cxx:199-200) does not end by itself; its rounds are the steps of `TimerRuns.Run`, and no liveness is claimed beyond the stated measures.
- Connections.Drain: how far a try of more than 512 bytes is cut depends on the free tail of the buffer, and is given by bounds.
- Real time and fairness: the clock is an arbitrary sequence of readings.
- Data races on buffers, channels and list iterators, and the destruction of a callback object while it runs: every modelled step is atomic.
- `m_maxtasks` of the thread pool is stored and never looked at, so the queue has no bound here either.
- A reply whose task the stopped thread pool refuses (app/tiny_server.cxx:96-100) is dropped by the server; in `Delivery` it is a task that is never pushed.
- The reply is fixed in app/tiny_server.cxx:85-87 (`Delivery.Notice`); `Delivery` allows any function from requests to replies that fit a frame.
- A process that has crashed on a length field below 8: in `Delivery` such a connection is only not read any more.
- Order between messages of one connection across a sweep that interleaves with write events: a skipped message can be overtaken, so only the order of acceptance by `send` is claimed.
- DeliveryProofs.RunGood: after a close of a free object (`crashed`) the model makes no step; nothing is known of the program from then on.
- DeliveryAsStands.ClientSeesAllReplies: has `send` and the write handler as they stand; `encode` (also of bodies of 504 to 512 bytes) and the decode loop are the intended ones, and an `isend` that never returns is no step.
- `recycle` stamps the time in the same step as it queues the connection (net/tiny_tcpconnection.cxx:59-60).
- The read callback is one step: a connection that the recycle thread closes in the middle of its own callback is not modelled, and neither is a close in the middle of one call of `send`.
- Producers of the thread pool enqueue after `start` has returned.
- Backend names connection objects by their index and keeps their send side as a value; aliasing through pointers to them is not modelled. `Connections.TcpConnection` is the object with its buffers.
- The stop flags of the send and recycle threads, errors of `sem_wait`, and an upper bound on the semaphores: skipped elements post again on every sweep.
- The condition-variable waits of `popWait` with a positive timeout: the event loop calls it with 0.
- A full wakeup pipe and failed writes to it: every wakeup byte is written.
- Host byte order: 16-bit fields are little-endian.
