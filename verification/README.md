# A verified model of a reactor library and its example servers

The project models the parts of a C++ reactor library (an event loop with timers, pollers, buffers
and connections) and of its example servers whose correctness depends on more than one function, and
proves what they are for, over every input and every run.

| file | component |
|---|---|
| EventLoop.dfy | functors handed from any thread to the loop thread |
| TimerModel.dfy, TimerSet.dfy, TimerAlarm.dfy, TimerQueue.dfy | what a timer queue does, its ordered set, its alarm, and the two-set implementation that refines them |
| Calendar.dfy, TimeZone.dfy | Julian days, UTC, local time with summer time |
| Pollers.dfy | the poll and epoll pollers, and their equivalence |
| Wrappers.dfy, Bytes.dfy, Buffer.dfy | options, byte searches and the byte buffer |
| TcpConnection.dfy | the output path of a connection and its shutdown |
| Http.dfy, LengthHeaderCodec.dfy, HubCodec.dfy | incremental parsers over the buffer |
| Memcache.dfy | the sharded store with compare-and-swap |
| WordCountProtocol.dfy, WordCount.dfy | the distributed word count, end to end |
| Hub.dfy | the publish/subscribe server |
| Connector.dfy | the connecting state machine with backoff |
| TimingWheel.dfy | the idle-connection timing wheel |

Protocols are state machines: a `State`, an `Action` for each atomic step, `Enabled`, `Step`, `IsRun`
and `Final`. Locked sections, system calls and callbacks dispatched by the loop are single steps;
what the kernel or a user decides is a parameter of the action, so a theorem about all runs covers
every schedule. The objects that the source updates in place are classes whose methods are proved to
do the corresponding step. Incremental parsers are a function of all bytes received, to which the
loops over the buffer are proved equal.

Where a line of the source departs from what it is evidently meant to do, the line is modelled as it
is, together with the intended variant, and the exact condition under which the property survives is
proved:

- `src/TcpConnection.cpp:283` retrieves 0 bytes after a write (`Code.drains`).
- `src/TcpConnection.cpp:163` tests kDisconnected instead of kDisconnecting (`Code.forcesDisconnecting`).
- `src/TimerQueue.cpp:248` compares the wrong way round (`TimerAlarm.AsWritten`).
- `src/TimeZone.cpp:345` counts 50 seconds a minute (`Calendar.SECONDS_PER_MINUTE`).
- `src/StringPiece.h:53` ends a string at its first NUL (`Bytes.CStr`): on the way from the word counters, to the hub's subscribers, and whenever a payload is sent from another thread.
- `src/EventLoop.cpp:54-58` leaves a flag uninitialised; it starts with any value.
- `src/Connector.cpp:108-115` lets restart abandon a socket that is being connected (`Connector.Abandons`).
- `src/Buffer.h:45` ignores the initial size asked for; only the default size exists.

`dafny verify dfyconfig.toml` checks everything.

## Model

| member | source | states |
|---|---|---|
| `EventLoop.NoLostWakeup` | src/EventLoop.cpp:80-151 | In every interleaving of the loop thread and any number of posting threads, a loop about to block in poll with a functor queued or a quit requested has a positive eventfd counter, or some thread is between its push or quit store and its eventfd write |
| `EventLoop.FifoExactlyOnce` | src/EventLoop.cpp:140-151 | In every interleaving, functors run ++ unrun rest of the batch ++ queue is the sequence of all pushes |
| `EventLoop.BatchIsClosed` | src/EventLoop.cpp:243-258 | Between the swap and the end of a batch only the functors swapped out can run, whatever is pushed meanwhile, so a batch is finite |
| `EventLoop.BlockedLoopMakesProgress` | src/EventLoop.cpp:80-105 | From every reachable blocked state with work queued and no post half done, poll can return and one round runs everything ever pushed, then stops exactly if a quit was requested |
| `EventLoop.IdlePostNeedsPrompting` | src/EventLoop.cpp:140-151 | A loop-thread post made outside loop() is stranded exactly if the calling flag is off and nothing else is about to wake the loop |
| `EventLoop.StepKeepsInv` | src/EventLoop.cpp:221-258 | Each atomic step keeps FIFO order, the meaning of the calling flag, and that nothing queued is without a wakeup |
| `EventLoop.StepKeepsFifo` | src/EventLoop.cpp:140-151 | Each atomic step moves functors from the queue to the batch to the executed ones without losing, doubling or reordering any |
| `EventLoop.RunKeepsInv` | src/EventLoop.cpp:80-151 | The invariant holds after every run |
| `EventLoop.SoloRoundRunsTheQueue` | src/EventLoop.cpp:234-258 | One undisturbed round reads the eventfd to zero and runs the whole queue in order |
| `EventLoop.Loop.constructor` | src/EventLoop.cpp:54-70 | The initial state, with the calling flag uninitialised |
| `EventLoop.Loop.QueueInLoop` | src/EventLoop.cpp:140-151 | A post from another thread, or from a functor, leaves the eventfd readable; the queue gains the functor, and the call is a run of the machine that keeps its invariant |
| `EventLoop.Loop.Quit` | src/EventLoop.cpp:107-117 | A quit from another thread leaves the eventfd readable; the call is a run of the machine |
| `EventLoop.Loop.PollReturns` | src/EventLoop.cpp:234-241 | After poll has reported the wakeup channel the eventfd is read to zero |
| `EventLoop.Loop.PostAll` | src/EventLoop.cpp:140-151 | Posts of handlers and of other threads are queued in order; with functors running, the eventfd is readable afterwards |
| `EventLoop.Loop.RunFunctor` | src/EventLoop.cpp:254-256 | One functor runs, and what it and other threads post meanwhile goes to the queue, not to the batch |
| `EventLoop.Loop.RunBatch` | src/EventLoop.cpp:254-256 | The loop over the batch runs exactly the functors swapped out, in order, and ends |
| `EventLoop.Loop.DoPendingFunctors` | src/EventLoop.cpp:243-258 | Exactly the functors queued at the call run, in order; what is posted meanwhile is queued for the next time with the eventfd readable |
| `EventLoop.Loop.Round` | src/EventLoop.cpp:87-102 | One round of the loop runs exactly what was queued before poll returned and what the event handlers post, in this order, and is a run of the machine |
| `TimerModel.CancelIsFinal` | src/TimerQueue.cpp:134-158 | After a timer is cancelled or freed, no run queues it again, and it runs at most once more, only if the current batch holds it unrun |
| `TimerModel.CancelDooms` | src/TimerQueue.cpp:134-158 | Cancelling an id dooms exactly the timer with that address and sequence number, once it has been inserted; every other timer, also one at the same address, is untouched |
| `TimerModel.HandleReadRunsTheDue` | src/TimerQueue.cpp:160-180 | Whatever the callbacks add, cancel or create, handleRead runs exactly the timers that were due, once each, in order of expiration, then queues again the repeating ones not cancelled meanwhile and frees the rest |
| `TimerModel.TimerRunsWhenDue` | src/TimerQueue.cpp:112-132 | A timer created for a time, added and not cancelled is in the batch of the first handleRead at or after that time, and in none before |
| `TimerModel.WaitsUntilDue` | src/TimerQueue.cpp:125-212 | Until then nothing changes it but its own insertion |
| `TimerModel.BatchRunsInOrder` | src/TimerQueue.cpp:160-180 | While callbacks re-enter the queue the batch is unchanged and runs in order |
| `TimerModel.StepKeepsInv` | src/TimerQueue.cpp:125-236 | Every timer is in exactly one place, the batch holds exactly the expired ones, and no two live timers share an address |
| `TimerModel.SettleAllAt` | src/TimerQueue.cpp:214-236 | reset treats each timer of the batch on its own |
| `TimerModel.DoomedStep` | src/TimerQueue.cpp:214-227 | No step revives a cancelled timer or gives it a second run |
| `TimerAlarm.AlarmIsTimely` | src/TimerQueue.cpp:125-268 | With the comparison the right way round, the alarm is never later than the earliest timer outside handleRead, in every run of additions, cancellations, expiries and restarts, whatever the expirations |
| `TimerAlarm.AlarmIsTimelyIfSafe` | src/TimerQueue.cpp:238-268 | As written, the alarm is never late in a run exactly if every timer added outside handleRead is the only one, ties with the earliest, or is due no earlier than an alarm already too early, and every handleRead ends with the earliest timer due after the epoch or armed for |
| `TimerAlarm.AlarmIsLate` | src/TimerQueue.cpp:238-268 | As written, two timers with different expirations make the alarm late, in either order |
| `TimerAlarm.SettledAlarm` | src/TimerQueue.cpp:229-235 | At the end of handleRead the alarm is set for exactly the earliest timer left, if that is due after the epoch, and otherwise left as it is |
| `TimerAlarm.AlarmIsForATimer` | src/TimerQueue.cpp:125-236 | In every run, with either test, the alarm is off or set for the expiration of a timer added since it last went off, or of the earliest one left when handleRead last ended |
| `TimerAlarm.AlarmChanges` | src/TimerQueue.cpp:125-171 | What each event does to the alarm |
| `TimerAlarm.AlarmForAnOlderTimer` | src/TimerQueue.cpp:229-235 | The alarm may be for a timer added before it last went off |
| `TimerAlarm.StepIsTimelyIfSafe` | src/TimerQueue.cpp:125-268 | The one-step form of that condition |
| `TimerAlarm.StepKeepsInv` | src/TimerQueue.cpp:125-268 | The right test keeps the alarm timely through cancellations and callbacks |
| `TimerAlarm.InsertAllAppend` | src/TimerQueue.cpp:214-227 | Restarted timers are inserted one after the other |
| `TimerSet.InsertedIsSorted` | src/TimerQueue.cpp:238-268 | Insertion keeps the set ordered and adds just the new entry |
| `TimerSet.ErasedIsSorted` | src/TimerQueue.cpp:134-158 | Erasure keeps the set ordered and removes just the entry |
| `TimerSet.FirstInserted` | src/TimerQueue.cpp:238-268 | The earliest timer after an insertion |
| `TimerQueue.ExpiredIsDue` | src/TimerQueue.cpp:182-212 | What the sentry search takes is exactly the due list, in order |
| `TimerQueue.CreateRepresents` | src/TimerQueue.cpp:112-117 | A new timer at a free address represents the creation in the model |
| `TimerQueue.AddRepresents` | src/TimerQueue.cpp:125-132 | Insertion into both indexes represents the addition in the model |
| `TimerQueue.CancelActiveRepresents` | src/TimerQueue.cpp:134-158 | Erasing an active timer from both indexes and freeing it represents its cancellation |
| `TimerQueue.CancelOtherRepresents` | src/TimerQueue.cpp:134-158 | A cancellation of an id that is not active, stale ids at reused addresses included, represents the model's, and frees nothing |
| `TimerQueue.ExpireRepresents` | src/TimerQueue.cpp:182-212 | Moving the due timers out of both indexes represents the expiry in the model |
| `TimerQueue.RestartRepresents` | src/TimerQueue.cpp:214-227 | Restarting and re-inserting a repeating timer represents its settling |
| `TimerQueue.FreeRepresents` | src/TimerQueue.cpp:214-227 | Deleting a timer of the batch represents its settling; it is freed once |
| `TimerQueue.TimerQueue.constructor` | src/TimerQueue.cpp:88-96 | An empty queue with nothing armed, with the comparison as written or the right way round |
| `TimerQueue.TimerQueue.CreateTimer` | src/Timer.h:22-26 | A new timer gets the next sequence number; the id is its address and that number |
| `TimerQueue.TimerQueue.Insert` | src/TimerQueue.cpp:238-268 | Both indexes gain the timer, and the result is the test as written |
| `TimerQueue.TimerQueue.AddTimerInLoop` | src/TimerQueue.cpp:125-132 | Refines Add, keeps both indexes and the heap in agreement with the model, and is the alarm's Added event |
| `TimerQueue.TimerQueue.CancelInLoop` | src/TimerQueue.cpp:134-158 | Refines Cancel for any id at all, dereferencing only active timers, and is the alarm's Cancelled event or none |
| `TimerQueue.TimerQueue.GetExpired` | src/TimerQueue.cpp:182-212 | Removes exactly the entries with expiration <= now from both indexes, in order |
| `TimerQueue.TimerQueue.TakeExpired` | src/TimerQueue.cpp:160-171 | Refines Expire: the due timers move from both indexes to the batch |
| `TimerQueue.TimerQueue.BeginHandleRead` | src/TimerQueue.cpp:160-171 | Refines Expire, and is the alarm's Fired event |
| `TimerQueue.TimerQueue.RunNextCallback` | src/TimerQueue.cpp:160-180 | Refines RunNext: the timer about to run has not been freed |
| `TimerQueue.TimerQueue.ResetOne` | src/TimerQueue.cpp:214-227 | One turn of reset settles the head of the batch, restarting (src/Timer.cpp:5-12) or freeing it |
| `TimerQueue.TimerQueue.SettleRest` | src/TimerQueue.cpp:218-227 | The loop settles the rest of the batch and inserts exactly the restarted timers |
| `TimerQueue.TimerQueue.SettleBatch` | src/TimerQueue.cpp:176-227 | Refines Settle |
| `TimerQueue.TimerQueue.Reset` | src/TimerQueue.cpp:214-236 | Refines Settle, and is the alarm's Settled event, which arms for the earliest timer left |
| `TimeZone.ZoneRoundTrip` | src/TimeZone.cpp:265-305 | For every zone with well-spaced transitions, local time and back is the identity on all times, both passes of each repeated hour included, exactly if the clocks only go back when an hour of summer time ends |
| `TimeZone.LocalRoundTrip` | src/TimeZone.cpp:286-305 | A single time survives exactly if no transition other than the end of an hour of summer time makes it repeat |
| `TimeZone.UnrepeatedRoundTrip` | src/TimeZone.cpp:265-305 | A time that will not repeat survives, in any zone |
| `TimeZone.RepeatedRoundTrip` | src/TimeZone.cpp:297-302 | The first pass of a repeated stretch survives exactly if the correction by an hour applies |
| `TimeZone.FindLocaltimeIsLast` | src/TimeZone.cpp:225-250 | The search finds the local time of the last transition not after the key |
| `TimeZone.WellSpacedIsOrdered` | src/TimeZone.cpp:201-205 | Transitions further apart than any offset change are ordered by UTC and by local time |
| `TimeZone.HalfHourSummerTime` | src/TimeZone.cpp:297-302 | A zone with half an hour of summer time does not survive |
| `TimeZone.LocalTimeIsReadLatest` | src/TimeZone.cpp:286-305 | Any local time the clocks show is read, if not marked as summer time, as the latest time at which they show it; if marked, an hour earlier unless they show summer time then |
| `TimeZone.ToLocalTimeIs` | src/TimeZone.cpp:265-284 | Local time is ahead of UTC by the offset in force, and says whether that is summer time |
| `TimeZone.FromLocalTimeIs` | src/TimeZone.cpp:286-305 | A time not marked as summer time is read with the offset of the last transition not after it in local time, in a gap too |
| `Calendar.DayNumberRoundTrip` | src/Date.cpp:8-31 | Every day number from -32044 on is the number of the date it decodes to |
| `Calendar.DateRoundTrip` | src/Date.cpp:8-31 | Every Gregorian date from -4800-03-01 on decodes from its day number |
| `Calendar.ConsecutiveDays` | src/Date.cpp:8-15 | Consecutive dates get consecutive numbers |
| `Calendar.DecodingFitsUpTo` | src/Date.cpp:17-31 | Decoding stays within 32 bits exactly up to day number 536838867 |
| `Calendar.EncodingFitsUpTo` | src/Date.cpp:8-15 | Encoding stays within 32 bits exactly up to 15 December 5874689 |
| `Calendar.UtcFitsUpTo` | src/TimeZone.cpp:307-335 | From -4800-03-01 on, every value in toUtcTime, the cast of the day count included, stays within 32 bits exactly up to the end of day number 536838867; so does the encoding in fromUtcTime |
| `Calendar.UtcRoundTrip` | src/TimeZone.cpp:307-348 | In that range: as written, UTC and back loses ten seconds per minute of the hour, so it is the identity exactly in the first minute of an hour; with factor 60 it is the identity, for negative times too |
| `Calendar.UtcFieldsRoundTrip` | src/TimeZone.cpp:337-348 | With factor 60, broken-down UTC in that range survives the way to seconds and back |
| `Calendar.DayOfTheYear` | src/TimeZone.cpp:329-332 | The difference of day numbers is the number of days before the date in its year |
| `Calendar.UtcDayFields` | src/TimeZone.cpp:307-335 | In that range: the weekday is that of the day number, and the day of the year counts the days of the months before |
| `Calendar.EpochIsThursday` | src/TimeZone.cpp:327 | The epoch is a Thursday |
| `Calendar.WeekDays` | src/Date.h:69-72 | Weekdays advance by one a day; for day numbers below -1 the result can be negative |
| `Calendar.Epoch` | src/Date.cpp:33 | The day number of 1970-01-01 |
| `Pollers.RunBoth` | src/PollPoller.cpp:63-139 | For every legal sequence of updates and removals, the two pollers watch the same descriptors for the same events, and exactly those that the last request for each descriptor asks for |
| `Pollers.WatchedIsAskedFor` | src/EPollPoller.cpp:86-147 | The registry watches a descriptor exactly for the events of the last request for it |
| `Pollers.RunFrom` | src/EPollPoller.cpp:86-147 | Both pollers follow the same registry from any matching state on |
| `Pollers.StepPoll` | src/PollPoller.cpp:63-139 | A legal request may be made of the poll poller and changes its registry accordingly |
| `Pollers.StepEPoll` | src/EPollPoller.cpp:86-147 | The same for the epoll poller |
| `Pollers.TableRemove` | src/PollPoller.cpp:109-139 | Swapping with the last entry and popping keeps entries and back-indices in bijection |
| `Pollers.TableAppend` | src/PollPoller.cpp:63-85 | Appending an entry keeps the bijection |
| `Pollers.TableChange` | src/PollPoller.cpp:87-106 | Changing or parking an entry keeps the bijection |
| `Pollers.TableInterest` | src/PollPoller.cpp:63-107 | Entries with non-negative descriptor and non-zero events are exactly the watched ones |
| `Pollers.MirrorChange` | src/EPollPoller.cpp:149-174 | Index states and kernel map change together |
| `Pollers.PollPoller.AddEntry` | src/PollPoller.cpp:63-85 | A new channel gets an entry and its index |
| `Pollers.PollPoller.ChangeEntry` | src/PollPoller.cpp:87-106 | A known channel's entry is changed in place, and masked if it wants no events |
| `Pollers.PollPoller.Update` | src/PollPoller.cpp:63-107 | Registers the channel's events, whatever its state |
| `Pollers.PollPoller.Remove` | src/PollPoller.cpp:109-139 | Unregisters a parked channel, moves the last entry into its place, and leaves a channel that cannot be added again |
| `Pollers.PollPoller.InterestIsWatched` | src/PollPoller.cpp:63-139 | What poll is asked to watch is what is registered |
| `Pollers.EPollPoller.Ctl` | src/EPollPoller.cpp:149-174 | ADD only of absent, MOD and DEL only of present descriptors |
| `Pollers.EPollPoller.AddToKernel` | src/EPollPoller.cpp:92-107 | A new or deleted channel is added, with any events |
| `Pollers.EPollPoller.ChangeInKernel` | src/EPollPoller.cpp:109-123 | A known channel is changed, or deleted if it wants no events |
| `Pollers.EPollPoller.Update` | src/EPollPoller.cpp:86-124 | Registers the channel's events, whatever its state |
| `Pollers.EPollPoller.Remove` | src/EPollPoller.cpp:126-147 | Unregisters a channel, which is then as new |
| `Pollers.EPollPoller.InterestIsWatched` | src/EPollPoller.cpp:86-174 | The kernel's non-zero interests are what is registered |
| `TcpConnection.StreamIsConserved` | src/TcpConnection.cpp:94-141 | With retrieve(n), under any schedule of partial writes, the bytes accepted, as many as write(2) reported, ++ the buffered bytes equal the payloads that reached sendInLoop, taken from the actions of the run, exactly if none was given up on a fault or because the connection was down |
| `TcpConnection.StreamIsConservedAsWritten` | src/TcpConnection.cpp:276-303 | With retrieve(0), and nothing given up, the same stream is conserved exactly if handleWrite never got a byte through |
| `TcpConnection.OfferedIsPayloads` | src/TcpConnection.cpp:94-141 | The history of offered bytes is the concatenation of the payloads that the run's actions bring to sendInLoop |
| `TcpConnection.StepOffers` | src/TcpConnection.cpp:94-141 | The one-step form: a step offers exactly its payload |
| `TcpConnection.AcceptedIsTaken` | src/TcpConnection.cpp:108-122 | The accepted bytes only grow, by exactly the counts that write(2) reports where the code calls it |
| `TcpConnection.StepTakes` | src/TcpConnection.cpp:108-122 | The one-step form |
| `TcpConnection.FunctorsAreFifo` | src/EventLoop.cpp:140-151 | Functors run ++ batch ++ pending is everything posted, in order; none is lost or doubled |
| `TcpConnection.Transitions` | src/TcpConnection.cpp:143-249 | Which steps change the phase, and to what; going down turns interest off and keeps the buffer |
| `TcpConnection.ForceCloseTakesDown` | src/TcpConnection.cpp:160-184 | forceClose on a connected connection takes it down by the time its functor has run; on a disconnecting one it does so with the test as intended and nothing at all as written |
| `TcpConnection.ShutdownCompletes` | src/TcpConnection.cpp:143-158 | After shutdown(), while the connection stays up, once the functor has run and nothing is buffered, shutdownWrite has been called |
| `TcpConnection.HalfClosesOnlyWhenAsked` | src/TcpConnection.cpp:143-158 | shutdownWrite is called only on a connection that is disconnecting or down |
| `TcpConnection.WriteInterest` | src/TcpConnection.cpp:94-141 | Until the connection goes down, write interest is on exactly while bytes are buffered, in the code as written too; with forceClose as intended, the phase tells when that is |
| `TcpConnection.HalfClosesAfterLastByte` | src/TcpConnection.cpp:143-158 | Every shutdownWrite finds nothing buffered unless the connection went down with bytes buffered first; before that the kernel has every payload byte of the run |
| `TcpConnection.HalfClosesTooLate` | src/TcpConnection.cpp:152-158 | That exception does occur |
| `TcpConnection.ShutdownWaitsForever` | src/TcpConnection.cpp:276-303 | As written, a connection whose buffer was ever needed never half-closes while it is up |
| `TcpConnection.BufferNeverEmpties` | src/TcpConnection.cpp:276-303 | As written, buffered bytes stay buffered for good |
| `TcpConnection.GoesDownOnce` | src/TcpConnection.cpp:160-184 | Once queued functors have run, the connection has gone down at most once exactly if forceClose was never called on one already down; with the test as intended that is always so |
| `TcpConnection.RevivedInterest` | src/TcpConnection.cpp:160-167 | As written, forceClose on a connection that is down breaks the interest rule exactly if bytes were left in its buffer |
| `TcpConnection.StepExcess` | src/TcpConnection.cpp:94-141 | A step loses bytes exactly if it gives a payload up, doubles bytes exactly if it keeps what was written, and otherwise conserves the stream |
| `TcpConnection.StepKeepsInv` | src/TcpConnection.cpp:94-319 | Each step keeps write interest in line with the buffer, and going down final unless the connection is revived |
| `TcpConnection.ShutdownIsGraceful` | src/TcpConnection.cpp:143-158 | With batches run whole between events (src/EventLoop.cpp:87-102), some continuation of shutdown() half-closes while a payload that send() accepted is still queued exactly if, with bytes buffered, a payload waits for the next batch; with none buffered, any payload waits and the call is from the loop thread, or one waits in this batch and one for the next |
| `TcpConnection.NextBatchIsCutOff` | src/TcpConnection.cpp:285-297 | Bytes buffered by the end of one batch can be written out, and the connection half-closed, before the next batch brings its payload |
| `TcpConnection.StepIsCalm` | src/TcpConnection.cpp:94-158 | A disconnecting connection whose waiting payloads are all in the batch, or all behind one that leaves the empty buffer alone, never cuts a payload off |
| `TcpConnection.RunKeepsSends` | src/TcpConnection.cpp:143-167 | No shutdown or forced close is queued before it is asked for |
| `TcpConnection.PostedWhole` | src/TcpConnection.cpp:61-87 | A payload sent from another thread is posted whole exactly if it has no NUL (src/StringPiece.h:53), and otherwise as a prefix |
| `TcpConnection.RepeatsAByte` | src/TcpConnection.cpp:283 | As written, a payload written in two parts is not conserved |
| `TcpConnection.GoesDownTwice` | src/TcpConnection.cpp:160-167 | As written, forceClose after the peer's close takes the connection down twice |
| `TcpConnection.SendExcess` | src/TcpConnection.cpp:94-141 | sendInLoop splits a payload between kernel and buffer without loss, or gives it up whole |
| `TcpConnection.WriteExcess` | src/TcpConnection.cpp:276-303 | A partial write moves a prefix of the buffer to the kernel, or as written doubles it |
| `TcpConnection.TcpConnection.constructor` | src/TcpConnection.cpp:22-36 | The initial state of every run |
| `TcpConnection.TcpConnection.ConnectEstablished` | src/TcpConnection.cpp:226-235 | Refines the step that starts the connection |
| `TcpConnection.TcpConnection.Send` | src/TcpConnection.cpp:61-87 | Refines send: ignored unless connected, at once in the loop thread, posted from another and then cut at a NUL |
| `TcpConnection.TcpConnection.SendInLoop` | src/TcpConnection.cpp:94-141 | Refines the step in which a payload goes to the kernel, to the buffer, to both in this order, or nowhere |
| `TcpConnection.TcpConnection.HandleWrite` | src/TcpConnection.cpp:276-303 | Refines the write step, and calls shutdownWrite exactly when the buffer has emptied while disconnecting |
| `TcpConnection.TcpConnection.Shutdown` | src/TcpConnection.cpp:143-150 | Refines the shutdown step, from the loop thread or another |
| `TcpConnection.TcpConnection.ForceClose` | src/TcpConnection.cpp:160-167 | Refines the step that may revive a connection, as written or as intended |
| `TcpConnection.TcpConnection.ForceCloseInLoop` | src/TcpConnection.cpp:178-184 | Takes the connection down unless it is down |
| `TcpConnection.TcpConnection.SwapFunctors` | src/EventLoop.cpp:245-252 | Refines the swap: what was posted becomes the batch |
| `TcpConnection.TcpConnection.RunFunctor` | src/EventLoop.cpp:254-256 | Refines the step in which the loop runs the next functor of its batch |
| `TcpConnection.TcpConnection.HandleClose` | src/TcpConnection.cpp:305-319 | Refines going down: interest goes off and the buffer keeps its bytes |
| `TcpConnection.TcpConnection.ConnectDestroyed` | src/TcpConnection.cpp:238-249 | Refines the removal, which takes a connection down only if it is connected |
| `Buffers.IntRoundTrip` | src/Buffer.h:225-303 | Signed big-endian integers of any width decode to what was encoded |
| `Buffers.DecodeIntFits` | src/Buffer.h:272-303 | Every byte string of a width decodes to a number that fits it and encodes back to it |
| `Buffers.NatRoundTrip` | src/Buffer.h:225-248 | Unsigned encoding and decoding are inverse |
| `Buffers.BytesRoundTrip` | src/Buffer.h:272-303 | Decoding and encoding are inverse on bytes |
| `Buffers.Buffer.constructor` | src/Buffer.h:45-51 | An empty buffer of the default size |
| `Buffers.Buffer.MoveDown` | src/Buffer.h:375-383 | Compaction's forward copy is safe although the ranges overlap |
| `Buffers.Buffer.MakeSpace` | src/Buffer.h:368-384 | Makes room without touching the content; the array grows exactly if the bytes in front of the window would not do; the assertion before compaction holds |
| `Buffers.Buffer.EnsureWritableBytes` | src/Buffer.h:193-200 | Makes room without touching the content |
| `Buffers.Buffer.Append` | src/Buffer.h:179-186 | The content gains the bytes at its end |
| `Buffers.Buffer.Prepend` | src/Buffer.h:333-339 | The content gains the bytes at its front |
| `Buffers.Buffer.RetrieveAll` | src/Buffer.h:150-154 | The content is empty |
| `Buffers.Buffer.Retrieve` | src/Buffer.h:111-120 | The content loses a prefix |
| `Buffers.Buffer.RetrieveAsString` | src/Buffer.h:161-167 | The prefix taken and the content left are the old content |
| `Buffers.Buffer.Unwrite` | src/Buffer.h:218-222 | The content loses a suffix |
| `Buffers.Buffer.Shrink` | src/Buffer.h:341-347 | The content survives the move to a smaller array |
| `Buffers.Buffer.ReadFd` | src/Buffer.cpp:29-58 | The content gains exactly the n bytes read, across both iovecs |
| `Buffers.Buffer.AppendInt` | src/Buffer.h:225-248 | The content gains the encoding |
| `Buffers.Buffer.PrependInt` | src/Buffer.h:305-327 | The content gains the encoding in front |
| `Buffers.Buffer.PeekInt` | src/Buffer.h:272-303 | Reads the integer that was encoded in front |
| `Buffers.Buffer.ReadInt` | src/Buffer.h:250-270 | Reads the integer in front and drops it |
| `Bytes.FindCRLF` | src/Buffer.h:80-92 | The first CRLF, or none |
| `Bytes.FindCRLFStable` | src/Buffer.h:80-92 | A CRLF found stays the first, whatever arrives after it |
| `Bytes.FindCRLFAfter` | src/Buffer.h:80-92 | A line without CRLF ends at the CRLF behind it |
| `Http.PieceIndependent` | src/HttpContext.cpp:41-80 | However the bytes are cut, verdict, state, request and leftover bytes are the same as at once, up to an error or the end of the request |
| `Http.ParseResumes` | src/HttpContext.cpp:41-80 | Parsing may stop anywhere and resume |
| `Http.ParseConsumesPrefix` | src/HttpContext.cpp:41-80 | Only whole lines are cut off the front, nothing on failure, and only the request line can fail |
| `Http.RequestLineIsRead` | src/HttpContext.cpp:4-38 | Every request line of a known method and version is accepted and read correctly; path ++ query is the target |
| `Http.RequestRoundTrip` | src/HttpContext.cpp:41-80 | A whole request, of any known method and version, target, headers with white space around their values and a line without colon at the end, is read as it was written, and exactly its bytes are consumed |
| `Http.HeadersAreRead` | src/HttpContext.cpp:60-73 | Header lines are read one after the other up to the first line without a colon; of several with one field the last counts |
| `Http.HeaderLineIsRead` | src/HttpContext.cpp:61-69 | The field ends at the first colon, and a line without one ends the headers |
| `Http.VerbsMatch` | src/HttpRequest.h:53-72 | Exactly GET, POST, HEAD, PUT and DELETE are methods, each the one it names |
| `Http.OnlyRequestLinesAreRead` | src/HttpContext.cpp:4-38 | Nothing else is accepted |
| `Http.HeaderValueIsTrimmed` | src/HttpRequest.h:133-148 | A header's value is the text behind the colon without the white space around it; no other header changes |
| `Http.VersionsMatch` | src/HttpContext.cpp:24-34 | Exactly HTTP/1.0 and HTTP/1.1 are versions |
| `Http.NamesHaveNoSpace` | src/HttpRequest.h:53-72 | Method names contain no space |
| `Http.HttpContext.constructor` | src/HttpContext.h:23-26 | A fresh request and the first state |
| `Http.HttpContext.Reset` | src/HttpContext.h:35-40 | The parser is as new |
| `Http.HttpContext.AddHeaderLine` | src/HttpRequest.h:133-148 | The two trimming loops do what the specification says |
| `Http.HttpContext.OnLine` | src/HttpContext.cpp:46-73 | One turn of the loop does what one line asks for |
| `Http.HttpContext.ParseRequest` | src/HttpContext.cpp:41-80 | From the states that expect a request line or headers, the loop ends and leaves what the specification says |
| `LengthHeaderCodec.CodecRoundTrip` | tests/chat/codec.h:24-57 | Whatever the messages of at most 65536 bytes and the chunking, exactly the complete messages are delivered, in order, and the buffer holds exactly the incomplete tail |
| `LengthHeaderCodec.ChunkIndependent` | tests/chat/codec.h:24-45 | Deliveries, leftover and shutdown do not depend on the chunking, for any bytes |
| `LengthHeaderCodec.DecodeResumes` | tests/chat/codec.h:24-45 | Decoding may stop anywhere and resume |
| `LengthHeaderCodec.DecodeEncoded` | tests/chat/codec.h:26-43 | An encoded message is delivered if it is short enough, and otherwise shuts the connection down |
| `LengthHeaderCodec.DecodeAll` | tests/chat/codec.h:24-45 | A stream of encodings and an incomplete tail |
| `LengthHeaderCodec.DecodeStops` | tests/chat/codec.h:31-42 | A length out of range, negative ones too, shuts the connection down; an incomplete message waits |
| `LengthHeaderCodec.LostOffTheLoop` | tests/chat/codec.h:49-57 | Nothing of a message of at most 65536 bytes is posted if it is sent from another thread, as tests/chat/client.cpp:43-49 does, because its header starts with a NUL; in the loop thread all of it reaches sendInLoop |
| `LengthHeaderCodec.TakeMessage` | tests/chat/codec.h:36-39 | Takes one message out of the buffer |
| `LengthHeaderCodec.PeekLength` | tests/chat/codec.h:27-29 | Reads the length in front |
| `LengthHeaderCodec.OnMessage` | tests/chat/codec.h:24-45 | The loop delivers and leaves what the specification says |
| `LengthHeaderCodec.Send` | tests/chat/codec.h:49-57 | Appending and prepending builds the encoding that conn->send is given |
| `WordCount.DistributedCountNeedsNulFree` | tests/wordcount/hasher.cpp:43-66 | For all files, any number of senders and receivers, all batch sizes, cut-offs, chunkings and interleavings of the senders' chunks, the receivers together give each word its number of occurrences exactly if no word contains a NUL |
| `WordCount.DistributedCount` | tests/wordcount/hasher.cpp:162-187 | Without NULs, no key is known to two receivers and every count is exact, over all senders |
| `WordCount.MergedTallies` | tests/wordcount/hasher.cpp:182-185 | Together, the records of several senders count the words of all of them, each word in one bucket |
| `WordCount.CountsAreExact` | tests/wordcount/receiver.cpp:54-56 | Maps that hold what the records add up to count each word exactly |
| `WordCount.NulIsNotCounted` | src/StringPiece.h:53 | A word with a NUL is cut off and never counted |
| `WordCount.Sender.constructor` | tests/wordcount/hasher.cpp:140-160 | Nothing has been sent |
| `WordCount.Sender.Send` | tests/wordcount/hasher.cpp:54-66 | The record goes to the bucket that its word hashes to; streams and buffers together are the encoded records, and a full batch does not stay in a buffer |
| `WordCount.Sender.CountSome` | tests/wordcount/hasher.cpp:173-179 | The map counts the words read since it was cleared, and is cut off at the first size over the limit |
| `WordCount.Sender.SendAll` | tests/wordcount/hasher.cpp:182-185 | Every entry of the map is sent, in any order |
| `WordCount.Sender.ProcessFile` | tests/wordcount/hasher.cpp:162-187 | Every word of the file is sent as often as it occurs, whatever the cut-off |
| `WordCount.Sender.DisconnectAll` | tests/wordcount/hasher.cpp:129-135 | What is still buffered is sent |
| `WordCount.Sender.ProcessAll` | tests/wordcount/hasher.cpp:203-207 | The streams carry the counts of all files |
| `WordCountProtocol.ReceiverOfSeveral` | tests/wordcount/receiver.cpp:48-63 | A receiver with any number of senders, each connection with its own buffer and one map for all, ends with the total of each key over all senders, however their chunks interleave |
| `WordCountProtocol.InterleavingAdds` | tests/wordcount/receiver.cpp:48-63 | Interleaved chunks of any bytes add to the map what each sender's chunks come to on their own, and leave the same bytes in its buffer |
| `WordCountProtocol.ConsumeAdds` | tests/wordcount/receiver.cpp:48-63 | What bytes add to a map does not depend on the map |
| `WordCountProtocol.ReceiverTotals` | tests/wordcount/receiver.cpp:48-63 | A receiver that is sent records in any chunks ends with the total of each key |
| `WordCountProtocol.LegibleIsSettled` | tests/wordcount/receiver.cpp:52-56 | What a line with a tab counts does not depend on the bytes that follow exactly if something other than white space follows its tab |
| `WordCountProtocol.ChunkIndependent` | tests/wordcount/receiver.cpp:48-63 | A stream whose lines are legible is counted alike however it is cut |
| `WordCountProtocol.ConsumeResumes` | tests/wordcount/receiver.cpp:48-63 | Counting may stop anywhere and resume |
| `WordCountProtocol.ConsumeRecords` | tests/wordcount/receiver.cpp:48-63 | Encoded records are consumed whole and added up |
| `WordCountProtocol.NumberStaysInLine` | tests/wordcount/receiver.cpp:55 | atoll reads the number of its own line only |
| `WordCountProtocol.DecimalRoundTrip` | tests/wordcount/hasher.cpp:54-60 | A printed count is read back |
| `WordCountProtocol.AtollReads` | tests/wordcount/receiver.cpp:55 | atoll skips white space and reads a sign and a number |
| `Bytes.CStrIsIdentity` | src/StringPiece.h:53 | A string becomes its longest prefix without a NUL, and so survives conversion exactly if it has none |
| `WordCountProtocol.RecordsAreWellFormed` | tests/wordcount/hasher.cpp:54-60 | What is sent is well formed |
| `WordCountProtocol.AddAllTotals` | tests/wordcount/receiver.cpp:54-56 | Adding records up gives each key its total |
| `WordCountProtocol.Receiver.OnLine` | tests/wordcount/receiver.cpp:52-61 | One line is counted |
| `WordCountProtocol.Receiver.OnMessage` | tests/wordcount/receiver.cpp:48-63 | The loop counts and leaves what the specification says, and hangs up exactly on a line without a tab |
| `Memcache.CasSucceedsIffUntouched` | tests/memcached/server/MemcacheServer.cpp:97-104 | A cas with the token that a get returned succeeds exactly if nobody stored or deleted the key since, and then the store holds the very item that was read |
| `Memcache.CasSucceedsOnce` | tests/memcached/server/MemcacheServer.cpp:97-104 | Of all cas commands with one token at most one ever succeeds |
| `Memcache.StepKeepsInv` | tests/memcached/server/MemcacheServer.cpp:37-131 | Whatever complete items are offered, items are filed under their keys and carry different tokens of at most the counter's value |
| `Memcache.StepEndsWithCRLF` | tests/memcached/server/MemcacheServer.cpp:37-111 | If all stored items end in CRLF they still do after a step exactly if it does not store an item that does not, other than by prepending it |
| `Memcache.RunEndsWithCRLF` | tests/memcached/server/MemcacheServer.cpp:37-111 | If every item offered ends in CRLF, as tests/memcached/server/Session.cpp:135 sees to, every stored item does after any run |
| `Memcache.StepTokens` | tests/memcached/server/MemcacheServer.cpp:37-111 | A step leaves a key alone or makes every token given out so far stale for it |
| `Memcache.StepAt` | tests/memcached/server/MemcacheServer.cpp:37-131 | A step changes one key and stores it with a new token |
| `Memcache.SetAddReplace` | tests/memcached/server/MemcacheServer.cpp:51-73 | set stores always, add exactly if the key is absent, replace exactly if it is present: then the key holds the item under the next token and nothing else changes; otherwise nothing does |
| `Memcache.AppendPrepend` | tests/memcached/server/MemcacheServer.cpp:74-96 | append and prepend store exactly if the key is present, the two values spliced in the right order, with the flags and expiry that were held |
| `Memcache.CheckAndSet` | tests/memcached/server/MemcacheServer.cpp:97-104 | cas stores exactly if the key is present under the item's token |
| `Memcache.DeleteGet` | tests/memcached/server/MemcacheServer.cpp:114-131 | delete takes out the key and nothing else; get changes nothing |
| `Memcache.MergedPayload` | tests/memcached/server/MemcacheServer.cpp:74-96 | append and prepend join the payloads in their order and keep flags and expiry; the other policies store the item |
| `Memcache.JoinedEndsWithCRLF` | tests/memcached/server/MemcacheServer.cpp:80-89 | Splicing drops the last two bytes of the first part, and ends in CRLF exactly if the second part does |
| `Memcache.Item.constructor` | tests/memcached/server/item.cpp:9-17 | An item that has received its key |
| `Memcache.Item.Append` | tests/memcached/server/item.cpp:20-26 | The bytes go behind those received |
| `Memcache.Item.SplitsAt` | tests/memcached/server/item.h:56-76 | A complete item is its key and its value |
| `Memcache.Item.TerminatedEndsWithCRLF` | tests/memcached/server/item.h:99-102 | endsWithCRLF says that the item is complete and its value ends in CRLF |
| `Memcache.MemcacheServer.constructor` | tests/memcached/server/MemcacheServer.cpp:18-24 | An empty store |
| `Memcache.MemcacheServer.GetItem` | tests/memcached/server/MemcacheServer.cpp:114-122 | The shard gives what the flat map holds |
| `Memcache.MemcacheServer.DeleteItem` | tests/memcached/server/MemcacheServer.cpp:124-131 | Refines deletion from the flat map, and tells whether the key was there |
| `Memcache.MemcacheServer.Erase` | tests/memcached/server/MemcacheServer.cpp:124-131 | The shard and the flat map lose the key |
| `Memcache.MemcacheServer.Insert` | tests/memcached/server/MemcacheServer.cpp:51-57 | Insertion into the key's shard, which does nothing if the key is there |
| `Memcache.MemcacheServer.Put` | tests/memcached/server/MemcacheServer.cpp:51-57 | A new token, and the item in the place of the old one |
| `Memcache.MemcacheServer.Join` | tests/memcached/server/MemcacheServer.cpp:76-89 | The new item is built by two appends into its buffer and is complete |
| `Memcache.MemcacheServer.Splice` | tests/memcached/server/MemcacheServer.cpp:74-96 | append puts the old value in front, prepend the new one |
| `Memcache.MemcacheServer.Choose` | tests/memcached/server/MemcacheServer.cpp:48-108 | When each policy stores, and what |
| `Memcache.MemcacheServer.Update` | tests/memcached/server/MemcacheServer.cpp:37-111 | Refines the step of the flat map |
| `Memcache.MemcacheServer.StoreItem` | tests/memcached/server/MemcacheServer.cpp:37-111 | Refines the step of the flat map for any complete item whose assertions hold, in the shard of its hash, and reports whether the key existed and the item was stored |
| `Hub.IndexesAgree` | tests/hub/hub.cpp:81-153 | In every reachable state a connection is in an audience exactly if it subscribes to the topic, one that is down is in none, and a subscriber that has not been shut down was last sent the latest content |
| `Hub.LatestContentIsSent` | tests/hub/hub.cpp:26-48 | Whatever happens before and after, the latest content has been sent whole to a subscriber, since it was given to send, exactly if the subscriber had not been shut down before (src/TcpConnection.cpp:63) and neither topic nor content has a NUL |
| `Hub.SilencedSubscriber` | tests/hub/hub.cpp:110-116 | A subscriber that was shut down for a bad line stays in the audience and is sent nothing |
| `Hub.SilencingBytes` | tests/hub/hub.cpp:93-118 | The bytes with which that happens |
| `Hub.SentWhole` | tests/hub/hub.cpp:51-54 | A message is sent whole exactly if neither topic nor content has a NUL |
| `Hub.AnnouncementIsSent` | tests/hub/hub.cpp:26-48 | A publication, and a subscription to a published topic, sends the latest content once, unless the connection was shut down |
| `Hub.RunGrows` | tests/hub/hub.cpp:26-48 | Nothing sent is taken back, and nothing is sent after a shutdown |
| `Hub.PublicationReachesSubscribers` | tests/hub/hub.cpp:39-48 | A publication is sent once to each subscriber of its topic that has not been shut down, and to nobody else |
| `Hub.HubDoesAsAsked` | tests/hub/hub.cpp:81-153 | After any run a connection subscribes exactly if the last thing it asked for, while up, was to subscribe; a topic has the content and time of the last publication; a connection is shut down exactly if that happened |
| `Hub.StepObeys` | tests/hub/hub.cpp:81-153 | The one-step form |
| `Hub.StepKeepsInv` | tests/hub/hub.cpp:81-153 | Every operation keeps the two indexes in agreement and the subscribers current |
| `Hub.LeaveOneMore` | tests/hub/hub.cpp:85-90 | Unsubscribing from one more topic extends the part already left |
| `Hub.PubSubServer.constructor` | tests/hub/hub.cpp:65-73 | An empty hub |
| `Hub.PubSubServer.GetTopic` | tests/hub/hub.cpp:146-153 | Finds the topic or makes it |
| `Hub.PubSubServer.DoSubscribe` | tests/hub/hub.cpp:126-132 | Both indexes gain the pair, and the latest content is sent unless the connection is shut down |
| `Hub.PubSubServer.DoUnsubscribe` | tests/hub/hub.cpp:134-139 | Both indexes lose the pair |
| `Hub.PubSubServer.SendAll` | tests/hub/hub.cpp:45-47 | Each of the audience is given the message once; those shut down drop it |
| `Hub.PubSubServer.DoPublish` | tests/hub/hub.cpp:141-144 | The content is kept and sent to the audience |
| `Hub.PubSubServer.LeaveAll` | tests/hub/hub.cpp:87-89 | The loop leaves every audience |
| `Hub.PubSubServer.OnConnection` | tests/hub/hub.cpp:81-91 | A connection that goes down is in no audience and has no subscription left |
| `Hub.PubSubServer.Execute` | tests/hub/hub.cpp:103-111 | Each command does its operation |
| `Hub.PubSubServer.HandleOne` | tests/hub/hub.cpp:96-117 | One turn of the loop |
| `Hub.PubSubServer.ObeyMessages` | tests/hub/hub.cpp:96-113 | The loop carries out the commands that the bytes hold and leaves the rest |
| `Hub.PubSubServer.OnMessage` | tests/hub/hub.cpp:93-118 | The commands that the bytes hold are carried out, the rest is left, and the connection is shut down exactly on an error, after which nothing is sent to it |
| `HubCodec.ParseEncoded` | tests/hub/codec.cpp:3-37 | parseMessage inverts makeMessage (tests/hub/hub.cpp:51-54) exactly for topics and contents without CRLF |
| `HubCodec.StreamRoundTrip` | tests/hub/codec.cpp:3-37 | Such commands arrive as they were sent, however the stream is cut |
| `HubCodec.Grammar` | tests/hub/codec.cpp:3-37 | sub, unsub and pub lines, byte by byte, are the commands they name |
| `HubCodec.Refusals` | tests/hub/hub.cpp:110-116 | A line without a blank shuts the connection down and stays; one with an unknown word shuts it down and is taken out |
| `HubCodec.HandlesFirst` | tests/hub/hub.cpp:93-118 | An encoded command is carried out before what follows it |
| `HubCodec.ChunkIndependent` | tests/hub/hub.cpp:93-118 | Up to the first error the cutting does not matter |
| `HubCodec.AfterError` | tests/hub/hub.cpp:93-118 | After an error it matters exactly if a complete command follows the offending line |
| `HubCodec.HandleResumes` | tests/hub/hub.cpp:93-118 | Handling may stop anywhere and resume, and stops for good at an error |
| `HubCodec.ParseStable` | tests/hub/codec.cpp:3-37 | A verdict stands, whatever arrives later |
| `HubCodec.ParseMessage` | tests/hub/codec.cpp:3-37 | Parses what is in the buffer and consumes it on success only |
| `HubCodec.ParseContent` | tests/hub/codec.cpp:15-30 | The content of a pub is the line that follows |
| `Connector.SocketsAreConserved` | src/Connector.cpp:28-206 | In every run that respects the assertions, each socket ever made is held while connecting, closed once or handed over once, and in one of these places only, exactly if restart was never called while connecting |
| `Connector.RestartLosesASocket` | src/Connector.cpp:108-115 | A restart while connecting does lose a socket |
| `Connector.EventOutcome` | src/Connector.cpp:148-188 | In every reachable state that holds a socket: a writable event with nothing wrong ends connected, the socket handed over exactly if not stopped and closed otherwise; an error closes it, hands nothing over, and schedules the next attempt exactly if not stopped; any other event changes nothing |
| `Connector.StartOutcome` | src/Connector.cpp:60-115 | The three results of connect: the socket is held, closed and the next attempt scheduled behind the current delay, or closed; restart starts the schedule afresh |
| `Connector.StopOutcome` | src/Connector.cpp:39-53 | stop takes back the wish to connect; stopInLoop closes the socket being connected; a queued startInLoop then does nothing |
| `Connector.RetriesBackOff` | src/Connector.cpp:190-206 | The k-th retry since construction or the last restart waits min(500 * 2^k, 30000) ms |
| `Connector.StopIsFinal` | src/Connector.cpp:39-53 | After stop and until the next start or restart no socket is made, none is handed over and no retry is scheduled |
| `Connector.StepIsTidy` | src/Connector.cpp:117-146 | The channel outlives its removal until the deferred reset, exactly one reset is queued then, and a socket is lost exactly if restart abandons it |
| `Connector.StepPlaces` | src/Connector.cpp:60-106 | No step loses, doubles or forgets a socket, also when an error and writability are dispatched together |
| `Connector.StepBacksOff` | src/Connector.cpp:190-206 | Each step keeps delay and waits on the schedule |
| `Connector.Connector.constructor` | src/Connector.cpp:11-15 | Disconnected, with the initial delay |
| `Connector.Connector.Start` | src/Connector.cpp:22-26 | Refines start, at once in the loop or queued, and keeps the channel and backoff invariants |
| `Connector.Connector.StartInLoop` | src/Connector.cpp:28-106 | A new socket, connecting, closed, or closed and retried as connect(2) says |
| `Connector.Connector.RunStart` | src/Connector.cpp:28-37 | Refines a queued or delayed startInLoop, which does nothing once stopped |
| `Connector.Connector.Stop` | src/Connector.cpp:39-43 | Refines stop, after which StopIsFinal applies |
| `Connector.Connector.StopInLoop` | src/Connector.cpp:45-53 | Refines the stop in the loop: the socket being connected is closed once |
| `Connector.Connector.Restart` | src/Connector.cpp:108-115 | Refines restart, the one step that may abandon a socket |
| `Connector.Connector.RemoveAndResetChannel` | src/Connector.cpp:132-141 | The channel leaves the poller and its reset is queued |
| `Connector.Connector.ResetChannel` | src/Connector.cpp:143-146 | Refines the deferred reset: only a channel that has left the poller is freed |
| `Connector.Connector.HandleWrite` | src/Connector.cpp:148-177 | Hands the socket over, closes it or retries |
| `Connector.Connector.HandleError` | src/Connector.cpp:179-188 | Closes the socket and retries |
| `Connector.Connector.Retry` | src/Connector.cpp:190-206 | Closes the socket and, unless stopped, schedules the next attempt |
| `Connector.Connector.HandleEvent` | src/Channel.cpp:62-94 | The error callback comes before the write callback, whose assertion holds |
| `TimingWheel.IdleForNTicks` | tests/idleconnection/echo.cpp:26-68 | After an activity, with N >= 1 buckets, the entry stays while fewer than N ticks pass without another and is destroyed by the N-th |
| `TimingWheel.WheelIsExact` | tests/idleconnection/echo.cpp:26-68 | In every reachable state the wheel holds exactly the entries active within N ticks; a tick destroys exactly those whose N-th tick it is and shuts down those whose connection exists |
| `TimingWheel.ExpiryIsFinal` | tests/idleconnection/echo.cpp:55-61 | No message brings a destroyed entry back |
| `TimingWheel.LivesAreTheirOwn` | tests/idleconnection/echo.cpp:26-43 | The connections that exist are those made and not freed; the wheel keeps none alive |
| `TimingWheel.StepMatches` | tests/idleconnection/echo.cpp:26-68 | The wheel follows a clock and the times of last activity |
| `TimingWheel.ExpiringIffDue` | tests/idleconnection/echo.cpp:64-68 | The entries in the oldest bucket alone are those that are due |
| `TimingWheel.EchoServer.constructor` | tests/idleconnection/echo.cpp:7-19 | A full ring of empty buckets |
| `TimingWheel.EchoServer.Lock` | tests/idleconnection/echo.cpp:55-56 | The weak reference can be locked exactly while a bucket holds the entry |
| `TimingWheel.EchoServer.InsertInBack` | tests/idleconnection/echo.cpp:59 | The newest bucket gains the entry |
| `TimingWheel.EchoServer.OnConnection` | tests/idleconnection/echo.cpp:26-43 | Refines the wheel: an entry for a new connection, and nothing when it goes down |
| `TimingWheel.EchoServer.OnMessage` | tests/idleconnection/echo.cpp:45-62 | Refines the wheel: an entry still held is put in the newest bucket, one that is gone is not |
| `TimingWheel.EchoServer.OnTimer` | tests/idleconnection/echo.cpp:64-68 | Refines the tick on the ring in place: overwriting one slot drops the oldest bucket and no other |

## Left out

- The operating system: sockets, poll, epoll, eventfd, timerfd, clocks and files appear as parameters or as small pieces of kernel state. `src/SocketsOps.cpp`, `src/Socket.cpp`, `src/Acceptor.cpp`, `src/InetAddress.cpp` are not part of this model.
- Threads, mutexes, latches and the loop-thread pool: a locked section is one atomic step.
- `shared_ptr` and `weak_ptr` lifetimes, except that the timer queue's objects live on a heap with reused addresses and the timing wheel's entries live as long as a bucket holds them.
- The return of active channels from the two pollers; `src/PollPoller.cpp:46-58` never copies the events that occurred to the channel.
- The 64-bit range of the CAS counter, of sequence numbers, of word counts and of `atoll`, and the `int` length of spliced items: these are unbounded. The 32-bit range is modelled in Calendar.dfy and the integer widths in Buffer.dfy.
- Callbacks of a connection for high water and completed writes, its reading side, `startRead` and the timer of `forceCloseWithDelay`.
- The reading of zone files, and the fields of `struct tm` in local time: `gmtime_r` and `timegm` are taken as inverse, so a broken-down local time is a number of local seconds.
- Time zones whose transitions are closer together than their offsets differ.
- The time at which an HTTP request was received.
- Http.HttpContext.ParseRequest: not for calls in kExpectBody or kGotAll, because the source's loop does not end there (`src/HttpContext.cpp:45-77`).
- Memcache.MemcacheServer.StoreItem: items are held by value and the caller's item keeps its token, since the source shares an item that nobody changes after it is stored.
- The memcached command parser, statistics and expiry times.
- Hub.PubSubServer.SendAll: the order in which an audience is walked is left open.
- LengthHeaderCodec.Send: ends with the buffer that conn->send is given; what becomes of it is in `LengthHeaderCodec.LostOffTheLoop`.
- WordCountProtocol.ChunkIndependent: only for streams whose lines are legible, which what the hasher sends is; `WordCountProtocol.LegibleIsSettled` shows that the count of any other line depends on bytes that have not arrived.
- WordCountProtocol.ConsumeResumes: likewise.
- WordCount.DistributedCount: that each receiver gets the whole of each stream is a hypothesis. `tests/wordcount/hasher.cpp:43-52` sends its last batch and shuts down from another thread; `TcpConnection.ShutdownIsGraceful` shows when that is safe, and with bytes still buffered it is not.
- WordCount.DistributedCountNeedsNulFree: likewise.
- Calendar.UtcFieldsRoundTrip: only up to the day number at which `Calendar.UtcFitsUpTo` finds the first overflow.
- The resetting of the timerfd to at least 100 microseconds from now.
- The throttling of the hasher, which delays a batch but does not change it.
- The FastCGI, chat-room, process-monitor, DNS and benchmark programs.
