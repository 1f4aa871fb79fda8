# mymuduo, modelled and proved

mymuduo is a reactor in the style of muduo: one event loop per thread, TCP connections on top of it,
an HTTP request parser and response printer, a double-buffered asynchronous logger and a timer queue.
This project models its five stateful cores and proves what they promise over every input, every run
and every interleaving.

`dafny verify dfyconfig.toml` checks all of it.

## How it is built

Each core comes in two layers. Classes carry the source's own fields and loops (`Buffer`, `FixedBuffer`,
`HttpContext`, `EpollPoller`, `TcpConnection`, `TcpServer`, `AsyncLogging`, `EventLoop`, `TimerQueue`, …);
each method's contract equates the object's new state with a function of the old one. What the source
promises is then proved about those functions, over sequences of steps, in the files called `…Model`
and in `HttpParser`. The step functions are total: a step that is not enabled changes nothing, so a
run is any sequence of steps at all, and a result about `Run(INIT, steps)` is about every interleaving.

| core | files | main results |
|---|---|---|
| functor hand-off | `LoopModel`, `EventLoop` | no lost wake-up and exactly-once FIFO hand-off, for any producers and any interleaving; a woken loop runs everything pushed before its swap |
| connections | `Buffer`, `Poller`, `ConnectionModel`, `TcpConnection`, `LifecycleModel`, `LifecycleRounds`, `TcpServer` | the buffer refines a byte queue; the poller's books mirror the kernel's; output conservation; graceful half-close; a closed connection is in exactly one place, is destroyed once, and gets there within a whole round of each of its two loops |
| logger | `LogStream`, `LoggerModel`, `AsyncLogging` | lines are conserved in order, short by exactly the dropped ones; the commented-out assertions hold, for buffers that move between owners |
| HTTP | `Bytes`, `HttpRequest`, `HttpParser`, `HttpContext`, `HttpResponse` | parsing in chunks equals parsing at once; exact acceptance of the request line; request, response and pipelining round trips |
| timers, integers | `TimerModel`, `TimerQueue`, `Numerals` | timers are conserved, never early, never twice within their interval; when the timerfd is left set right, exactly; integer formatting is canonical and fits |

## Where the code does not keep a promise

Each is proved of the model of the code as it is, with the exact condition under which the promise holds.

* `sendInLoop` keeps the result of `::write` in a `size_t`, so its error branch is never taken
  (TcpConnection.cc:232-233). `UnsignedAgrees`, `UnsignedConserves` and `UnsignedCounterexample` model it
  as compiled. The runs of `ConnectionModel` use the signed result that lines 242-253 are written for.
* A send queued by another thread can be written behind the half-close, and make the connection half-close
  again (`LateSendCounterexample`). Over any history that happens exactly when such a send comes to run while
  the connection is shutting down with nothing buffered (`LateWriteExactly`); without one, the half-close is
  as it should be, queued sends or not (`GracefulHalfClose`).
* One dispatch can close a connection twice: exactly when it reports a hang-up and priority data but no
  ordinary data, and the read then finds the end of the stream (`DoubleCloseExactly`).
* A read of the timerfd that finds no timer strictly before now does not set it again, and the queue then
  stands still until an earlier timer is added (`RoundArmsExactly`, `MissedTimer`, `StuckUntilEarlierAdd`).
  "Expired" means strictly before now because the sentry holds the member `timerEntryPtr_`, which is null
  and hides the file's own pointer of the same name (TimerQueue.cc:66, 157; TimerQueue.h).
* `Timestamp::now` counts seconds and calls them microseconds (Timestamp.cc:14-17). A timer d >= 1
  microseconds ahead of it is missed unless its expiry is read about d seconds late, and then the queue
  stands still (`FoundExactly`, `FoundOnTimeExactly`, `SecondsClockStops`).
* `activeTimers_` is never filled, so a cancellation outside the callbacks does nothing, and one inside
  them does nothing to a one-shot (`CancelOutsideCallbacks`, `OneShotConservation`).
* A `Content-Length` line is cut off from bodies of 10^13 bytes on (`ContentLengthExact`).
* The parser ends the headers at any line without a colon, not only at an empty one
  (`HeadersEndAtColonlessLine`), and accepts an empty target (`RequestLineAcceptance`); RFC 7230, sections
  3.2 and 5.3, has neither.

## Model

| member | source | states |
|---|---|---|
| LoopModel.InvStep | mymuduo/src/EventLoop.cc:77-146 | every step of any thread keeps: functors pending between the loop's swap and the return of its next poll, or quit_ set while it is in poll, imply a readable eventfd or a caller that still owes its wakeup |
| LoopModel.FifoStep | mymuduo/src/EventLoop.cc:134-225 | every step keeps: functors run, then the rest of the batch, then the pending ones, are all pushes in mutex order |
| LoopModel.Reachable | mymuduo/src/EventLoop.cc:77-225 | no lost wake-up and exactly-once FIFO hand-off hold after every interleaving of any number of producers |
| LoopModel.EveryPushCounts | mymuduo/src/EventLoop.cc:134-139 | each push that takes place, by the step list, is recorded, in order, and nothing else is |
| LoopModel.ExactlyOnce | mymuduo/src/EventLoop.cc:134-225 | after any steps of any threads, functors run, then the rest of the batch, then the pending ones, are the functors queued by those steps, each once and in mutex order |
| LoopModel.PushAppends | mymuduo/src/EventLoop.cc:134-146 | a push puts its functor last among the pending ones, and the wake-up is owed by a foreign caller, or by the loop while it runs functors |
| LoopModel.WakeDelivers | mymuduo/src/EventLoop.cc:149-157 | whoever owes a wake-up can deliver it, and then the eventfd is readable |
| LoopModel.WakeupReported | mymuduo/src/EventLoop.cc:88-93 | poll reports the eventfd only when it is readable, and reading it empties it |
| LoopModel.OwesNothingBetween | mymuduo/src/EventLoop.cc:219-224 | the loop enters the next functor, or ends the round, only when it owes no wake-up of its own |
| LoopModel.QuitSets | mymuduo/src/EventLoop.cc:108-118 | a call of quit sets quit_ |
| LoopModel.QuitExactly | mymuduo/src/EventLoop.cc:108-118 | over any run quit_ is set exactly by such a call |
| LoopModel.QuitLeavesLoop | mymuduo/src/EventLoop.cc:83-83 | the head of the loop leaves it exactly when quit_ is set |
| LoopModel.NeverSleepsOnWork | mymuduo/src/EventLoop.cc:83-157 | once every caller is back from queueInLoop or quit, a loop in poll with work or quit_ set has a readable eventfd, for every interleaving |
| LoopModel.QueuedFunctorRuns | mymuduo/src/EventLoop.cc:209-225 | in every run in which the loop thread enters more functors than are ahead of a queued one, that one has run, in its place, whatever all threads do meanwhile |
| LoopModel.RoundRunsAll | mymuduo/src/EventLoop.cc:209-225 | a round the loop completes has run everything pushed before its swap, in every interleaving |
| LoopModel.RunsBatch | mymuduo/src/EventLoop.cc:219-222 | the functor loop runs the whole swapped batch, in order, and nothing else |
| LoopModel.RoundDrains | mymuduo/src/EventLoop.cc:83-101 | a woken loop can go round: if no other thread comes in, its next round runs all that had been pushed, then exits if quit_ was set and polls again otherwise |
| EventLoops.EventLoop.QueueInLoop | mymuduo/src/EventLoop.cc:134-146 | appends the functor to pendingFunctors_, and writes the wake-up iff the caller is foreign or the functors are running: the push step followed by the wake step |
| EventLoops.EventLoop.Quit | mymuduo/src/EventLoop.cc:108-118 | is exactly setting quit_, with a wake-up for a foreign caller only |
| EventLoops.EventLoop.Wakeup | mymuduo/src/EventLoop.cc:149-157 | leaves the eventfd readable and never wraps its counter |
| EventLoops.EventLoop.HandleRead | mymuduo/src/EventLoop.cc:198-206 | is the step that empties the eventfd |
| EventLoops.EventLoop.DoPendingFunctors | mymuduo/src/EventLoop.cc:209-225 | runs every functor pushed so far once and in order; what they and other threads queue meanwhile stays for the next round, with a wake-up due |
| EventLoops.EventLoop.RunFunctor | mymuduo/src/EventLoop.cc:219-222 | takes the next functor of the batch, and no other |
| EventLoops.EventLoop.RunEffects | mymuduo/src/EventLoop.cc:134-146 | functors queued while one runs, by it and by other threads, are appended in mutex order and none is lost |
| Buffers.Buffer.constructor | mymuduo/include/mymuduo/Buffer.h:17-20 | an empty queue with the requested room |
| Buffers.Buffer.FindCRLF | mymuduo/include/mymuduo/Buffer.h:32-37 | finds the first CRLF among the readable bytes, and nothing iff there is none |
| Buffers.Buffer.Retrieve | mymuduo/include/mymuduo/Buffer.h:40-50 | drops exactly a prefix, everything when asked for more |
| Buffers.Buffer.RetrieveAll | mymuduo/include/mymuduo/Buffer.h:59-63 | drops everything and moves back to the front |
| Buffers.Buffer.RetrieveAsString | mymuduo/include/mymuduo/Buffer.h:75-80 | what it returns followed by what is left is what was there |
| Buffers.Buffer.RetrieveAllAsString | mymuduo/include/mymuduo/Buffer.h:65-68 | returns all readable bytes and leaves none |
| Buffers.Buffer.Append | mymuduo/include/mymuduo/Buffer.h:91-101 | extends the readable bytes by exactly the new ones, on the same array or a new one |
| Buffers.Buffer.EnsureWritableBytes | mymuduo/include/mymuduo/Buffer.h:82-88 | yields the requested room, keeps the readable bytes, touches nothing when there is room |
| Buffers.Buffer.Store | mymuduo/include/mymuduo/Buffer.h:94-95 | the copy loop writes the bytes behind the readable ones and no others |
| Buffers.Buffer.MakeSpace | mymuduo/include/mymuduo/Buffer.h:129-142 | both branches, growth and move, yield the room and keep the readable bytes |
| Buffers.Buffer.MoveDown | mymuduo/include/mymuduo/Buffer.h:138-138 | the overlapping copy to the front preserves the bytes |
| Buffers.Buffer.ReadFd | mymuduo/src/Buffer.cc:12-39 | both outcomes of the scatter read, in spare room alone or spilling over, append exactly the bytes the kernel delivered; an error changes nothing |
| Buffers.ReadAll | mymuduo/src/Buffer.cc:12-39 | however many reads it takes, all bytes that arrive end up behind the readable ones, in order |
| Buffers.RunQueue | mymuduo/include/mymuduo/Buffer.h:40-142 | over any sequence of appends, socket reads, failed reads and retrievals, bytes taken out followed by bytes left are the initial ones followed by the bytes put in |
| Pollers.InterestBits | mymuduo/include/mymuduo/Channel.h:42-71 | setting and clearing one interest bit sets and clears it and leaves the other alone |
| Pollers.EventBits | mymuduo/src/Channel.cc:12-14 | read interest is normal and urgent data together, write interest is room to write, and neither touches error and hang-up |
| Pollers.Channel.EnableReading | mymuduo/include/mymuduo/Channel.h:42-46 | the poller's mirror of the kernel survives, no other channel changes |
| Pollers.Channel.DisableReading | mymuduo/include/mymuduo/Channel.h:47-51 | likewise |
| Pollers.Channel.EnableWriting | mymuduo/include/mymuduo/Channel.h:52-56 | likewise |
| Pollers.Channel.DisableWriting | mymuduo/include/mymuduo/Channel.h:57-61 | likewise |
| Pollers.Channel.DisableAll | mymuduo/include/mymuduo/Channel.h:62-66 | likewise, and no event is left |
| Pollers.Channel.Remove | mymuduo/src/Channel.cc:46-52 | with no event left, takes the channel out of the poller and keeps the mirror |
| Pollers.EpollPoller.EpollCtl | mymuduo/src/EpollPoller.cc:184-184 | the kernel refuses ADD of a registered fd and MOD or DEL of an unregistered one |
| Pollers.EpollPoller.Update | mymuduo/src/EpollPoller.cc:173-195 | applies the operation, and counts it when the kernel refuses |
| Pollers.EpollPoller.UpdateChannel | mymuduo/src/EpollPoller.cc:75-115 | the kNew/kAdded/kDeleted machine restores the mirror after the channel's events changed, with no refused call |
| Pollers.EpollPoller.RemoveChannel | mymuduo/src/EpollPoller.cc:121-134 | the channel leaves channels_ and the kernel, from each of the three states |
| Pollers.EpollPoller.KernelIsMirror | mymuduo/src/EpollPoller.cc:75-134 | the kernel's set is exactly fd -> events of the kAdded channels, channels_ exactly the kAdded and kDeleted ones |
| Pollers.EpollPoller.Forget | mymuduo/src/Channel.cc:21-21 | a channel that is out of the poller can die and leave the mirror as it is |
| Pollers.EpollPoller.FillActiveChannels | mymuduo/src/EpollPoller.cc:142-165 | every reported fd is found, as a kAdded channel, in order; each channel's revents are the events last reported for it, or what they were |
| Pollers.LatestIsReported | mymuduo/src/EpollPoller.cc:160-161 | for an fd reported once those are the reported events |
| Pollers.RunOps | mymuduo/src/EpollPoller.cc:75-134 | after any sequence of births, interest changes, removals and deaths of channels, with fds used again, the mirror holds, no epoll_ctl was ever refused, and the kernel watches what the operations alone come to |
| ConnectionModel.SendConserves | mymuduo/src/TcpConnection.cc:216-272 | a send adds exactly its accepted bytes behind those buffered, whatever the kernel takes at once |
| ConnectionModel.OutputConservation | mymuduo/src/TcpConnection.cc:152-272 | over any run, bytes written followed by bytes buffered are the accepted payloads in order |
| ConnectionModel.SentIsTaken | mymuduo/src/TcpConnection.cc:157-232 | over any run the bytes written are those the kernel answered it took, off the front of direct sends and of the buffer |
| ConnectionModel.InputConservation | mymuduo/src/TcpConnection.cc:130-150 | over any run the input buffer holds what it held followed by the bytes of the reads that succeeded |
| ConnectionModel.SendExactly | mymuduo/src/TcpConnection.cc:216-272 | a send on an idle open connection writes at once and buffers what the kernel does not take, short of a fault; on a busy one it buffers everything |
| ConnectionModel.WriteExactly | mymuduo/src/TcpConnection.cc:152-186 | a writable socket takes bytes off the front of the buffer; when the last is gone write interest ends, and a connection shutting down half-closes |
| ConnectionModel.CallsGoThrough | mymuduo/src/TcpConnection.cc:47-81 | sends go through exactly while connected, queued ones until disconnect |
| ConnectionModel.EstablishedOpens | mymuduo/src/TcpConnection.cc:106-114 | establishment opens a new connection and watches for data |
| ConnectionModel.ClosesAtEnd | mymuduo/src/TcpConnection.cc:130-197 | a hang-up or the end of the stream disconnects, ends all interest and runs the close callback; a failed read changes nothing |
| ConnectionModel.DestroyedEnds | mymuduo/src/TcpConnection.cc:117-128 | connectDestroyed disconnects one that is still connected and changes no other |
| ConnectionModel.QuietAcceptsAll | mymuduo/src/TcpConnection.cc:216-272 | in a run without faults, shutdown or disconnect, every payload is accepted whole |
| ConnectionModel.ReportsExactly | mymuduo/src/TcpConnection.cc:162-265 | in every step the write-complete callback is queued iff its write leaves nothing unwritten, and the high-water one iff the buffered bytes cross the mark |
| ConnectionModel.GracefulStep | mymuduo/src/TcpConnection.cc:83-271 | every step but a late queued send keeps: until disconnect write interest is on iff bytes are buffered, and the half-close waits for them |
| ConnectionModel.GracefulHalfClose | mymuduo/src/TcpConnection.cc:83-174 | in every history without a late queued send shutdownWrite happens at most once, exactly when every accepted byte has been written, and no write follows it |
| ConnectionModel.LoopThreadHalfClose | mymuduo/src/TcpConnection.cc:83-174 | so it does for every connection used on its loop thread only |
| ConnectionModel.ShutdownStarts | mymuduo/src/TcpConnection.cc:83-103 | shutdown of a connected connection, bytes buffered or not, starts the disconnect, keeps every byte, and half-closes at once only when nothing is being written |
| ConnectionModel.ShutdownRun | mymuduo/src/TcpConnection.cc:83-174 | after it, in every history without a late queued send, no loop-thread payload is accepted, and while nothing closes the connection it has half-closed iff the kernel has all that was accepted |
| ConnectionModel.LateWriteExactly | mymuduo/src/TcpConnection.cc:83-278 | over any history, queued sends included, a write follows the half-close iff a queued send runs while the connection is shutting down with nothing buffered |
| ConnectionModel.LateSendCounterexample | mymuduo/src/TcpConnection.cc:74-174 | one such send is written behind the half-close, twice, and the connection half-closes again |
| ConnectionModel.UnsignedAgrees | mymuduo/src/TcpConnection.cc:232-253 | the code as compiled does what it is written for iff the write does not fail, or nothing is written directly |
| ConnectionModel.UnsignedConserves | mymuduo/src/TcpConnection.cc:232-266 | the code as compiled adds exactly the payload to written and buffered bytes iff the direct write does not fail |
| ConnectionModel.UnsignedCounterexample | mymuduo/src/TcpConnection.cc:232-266 | a write that would block leaves a byte from in front of the payload in the output buffer |
| ConnectionModel.DispatchCloses | mymuduo/src/Channel.cc:65-90 | how often one dispatch closes, from its event mask and what the read finds |
| ConnectionModel.DispatchExactly | mymuduo/src/Channel.cc:65-90 | each callback runs at most once, in the order close, error, read, write, and exactly when its events are reported |
| ConnectionModel.CallbacksRun | mymuduo/src/TcpConnection.cc:33-36 | what each of them does to the connection |
| ConnectionModel.DoubleCloseExactly | mymuduo/src/Channel.cc:69-84 | one dispatch closes twice iff it reports HUP and PRI without IN and the read finds the end |
| TcpConnections.TcpConnection.constructor | mymuduo/src/TcpConnection.cc:26-40 | starts connecting, with empty buffers and a channel that watches nothing |
| TcpConnections.TcpConnection.WriteSocket | mymuduo/src/TcpConnection.cc:232-232 | the kernel takes a prefix, or nothing on an error; a write behind the half-close is counted |
| TcpConnections.TcpConnection.WriteDirectly | mymuduo/src/TcpConnection.cc:230-254 | writes at once, reports a complete write, and tells a fault from a full socket |
| TcpConnections.TcpConnection.KeepRest | mymuduo/src/TcpConnection.cc:259-271 | buffers the rest, turns write interest on, and reports the high-water mark when it is crossed |
| TcpConnections.TcpConnection.SendInLoop | mymuduo/src/TcpConnection.cc:216-272 | the fields move as the send step does, through buffer, channel and poller |
| TcpConnections.TcpConnection.Send | mymuduo/src/TcpConnection.cc:47-54 | sends a string, only while connected |
| TcpConnections.TcpConnection.SendBuffer | mymuduo/src/TcpConnection.cc:65-81 | sends a buffer's bytes, or hands them to the functor it queues from another thread, and empties the buffer, only while connected; the buffer may be the input buffer |
| TcpConnections.TcpConnection.ShutdownInLoop | mymuduo/src/TcpConnection.cc:97-103 | half-closes only when nothing is left to write |
| TcpConnections.TcpConnection.Shutdown | mymuduo/src/TcpConnection.cc:83-90 | starts the shutdown once, from the connected state; from another thread shutdownInLoop is queued |
| TcpConnections.TcpConnection.HandleWrite | mymuduo/src/TcpConnection.cc:152-186 | the fields move as the writability step does: a prefix leaves the buffer, and a drained one ends write interest |
| TcpConnections.TcpConnection.Drained | mymuduo/src/TcpConnection.cc:162-175 | turns write interest off, reports completion, and half-closes a connection that is shutting down |
| TcpConnections.TcpConnection.HandleRead | mymuduo/src/TcpConnection.cc:130-150 | appends what arrived, closes at the end of the stream, and changes nothing on an error |
| TcpConnections.TcpConnection.HandleClose | mymuduo/src/TcpConnection.cc:188-197 | disconnects, and leaves a channel that watches nothing |
| TcpConnections.TcpConnection.ConnectEstablished | mymuduo/src/TcpConnection.cc:106-114 | connects and turns read interest on |
| TcpConnections.TcpConnection.ConnectDestroyed | mymuduo/src/TcpConnection.cc:117-128 | from every state it is called in, the channel ends up out of the poller and the fd out of the kernel's set |
| LifecycleModel.StepKeeps | mymuduo/src/TcpServer.cc:53-102 | every step of every loop keeps the invariant that ties each connection's stage to the map and to the one functor queued for it |
| LifecycleRounds.AcceptAdds | mymuduo/src/TcpServer.cc:53-88 | a new connection gets the next number, an entry in the map and the loop asked for, where its establishment runs or is queued |
| LifecycleRounds.CloseBegins | mymuduo/src/TcpConnection.cc:188-197 | any connected one can be closed outside the rounds of its loop; it then watches nothing and its removal runs or is queued |
| LifecycleRounds.DestroyedByItsLoop | mymuduo/src/TcpConnection.cc:117-128 | a connection is destroyed only by its own loop, inside a round of functors, established, disconnected and without interest, and is held on to until the round ends |
| LifecycleRounds.DestructionEnds | mymuduo/src/TcpConnection.cc:117-128 | destroying one that is still connected would disconnect it first; the channel leaves the poller in either case |
| LifecycleRounds.PhasesRespected | mymuduo/src/EventLoop.cc:83-101 | events are handled outside the rounds of functors, and functors run inside them |
| LifecycleRounds.RoundBrackets | mymuduo/src/EventLoop.cc:209-225 | a round takes up all that is pending, and lets go of what it ran when it ends |
| LifecycleModel.ClosedInOnePlace | mymuduo/src/TcpServer.cc:90-102 | in every reachable state a closed connection is in exactly one of: in the map with one removal queued on the base loop, out of it with one connectDestroyed queued on its own loop, destroyed |
| LifecycleModel.DestroyedOnceAfterEstablished | mymuduo/src/TcpConnection.cc:106-128 | connectDestroyed runs at most once, after connectEstablished, and never removes a channel that still watches something |
| LifecycleModel.UnreferencedIsDead | mymuduo/src/TcpServer.cc:53-102 | when the map and every functor have let go of a connection, it was destroyed and its channel has left the poller |
| LifecycleModel.SocketOutlivesChannel | mymuduo/src/TcpConnection.cc:117-128 | the socket is closed only after the channel has left the poller |
| LifecycleModel.DrainedServer | mymuduo/src/TcpServer.cc:53-102 | with nothing queued, the map holds exactly the connected ones and each closed one was destroyed |
| LifecycleModel.QueuedFunctorRuns | mymuduo/src/EventLoop.cc:209-225 | in every run in which a loop executes more functors than are ahead of this one, this one has run, whatever is queued meanwhile |
| LifecycleRounds.RoundExecutesAll | mymuduo/src/EventLoop.cc:209-225 | in every interleaving, a round that ends has executed as many functors as were pending when it began |
| LifecycleRounds.RoundRunsEach | mymuduo/src/EventLoop.cc:209-225 | and each of those has had its effect |
| LifecycleRounds.RoundPossible | mymuduo/src/EventLoop.cc:209-225 | a loop that is not inside a round can run a whole one from every state |
| LifecycleRounds.FunctorCanRun | mymuduo/src/EventLoop.cc:209-225 | every queued functor can be brought to run |
| LifecycleRounds.RoundRemoves | mymuduo/src/TcpServer.cc:90-102 | one whole round of the base loop takes a closed connection out of the map, in every interleaving |
| LifecycleRounds.RoundDestroys | mymuduo/src/TcpServer.cc:95-102 | one whole round of its own loop destroys one that is out of the map, in every interleaving |
| LifecycleRounds.ClosedCanBeDestroyed | mymuduo/src/TcpServer.cc:90-102 | from every reachable state a closed connection can get to its destruction |
| LifecycleRounds.DestroyedIsFreed | mymuduo/src/TcpServer.cc:90-102 | a destroyed one is referred to by nobody, and its socket closed, once no loop is inside a round |
| LifecycleModel.RemovalHappens | mymuduo/src/TcpServer.cc:90-102 | a closed connection leaves the map in every run in which the base loop executes as many functors as it has queued |
| LifecycleModel.DestructionHappens | mymuduo/src/TcpServer.cc:95-102 | and is destroyed in every run in which its own loop does |
| TcpServers.NamesDistinct | mymuduo/src/TcpServer.cc:58-61 | connections get different names, so none displaces another in the map |
| TcpServers.LifecycleSeesAll | mymuduo/src/TcpConnection.cc:47-197 | the lifecycle's three moves of a connection are what its own steps do to its state and interest, and no other step matters to it |
| TcpServers.TcpServer.constructor | mymuduo/src/TcpServer.cc:24-31 | starts in the initial state of the lifecycle |
| TcpServers.TcpServer.NewConnection | mymuduo/src/TcpServer.cc:53-88 | is the accept step, and adds one entry under a name that was not there |
| TcpServers.TcpServer.RemoveConnection | mymuduo/src/TcpServer.cc:90-93 | is the removal request of the close step: at once on the base loop, queued on it otherwise |
| TcpServers.TcpServer.RemoveConnectionInLoop | mymuduo/src/TcpServer.cc:95-102 | removes exactly that connection's entry and queues its destruction on its own loop |
| LogStreams.FixedBuffer.Append | mymuduo/include/mymuduo/LogStream.h:23-30 | appends all of it or nothing, and never fills the last byte |
| LogStreams.FixedBuffer.Add | mymuduo/include/mymuduo/LogStream.h:37-37 | takes over what was written behind the contents |
| LogStreams.FixedBuffer.Reset | mymuduo/include/mymuduo/LogStream.h:39-39 | empties it |
| LoggerModel.OwnedStep | mymuduo/src/AsyncLogging.cc:14-108 | every step keeps: no next buffer implies a full one, so a batch always has enough buffers to refill both spares |
| LoggerModel.HeldAppend | mymuduo/src/AsyncLogging.cc:14-31 | an append adds its line last, whole, iff it is shorter than a large buffer |
| LoggerModel.HeldTrim | mymuduo/src/AsyncLogging.cc:70-80 | the overload drop removes a run of whole lines in the middle, and counts them |
| LoggerModel.HeldStep | mymuduo/src/AsyncLogging.cc:14-108 | every step keeps what is held a selection of what was appended, short by exactly the lines it loses |
| LoggerModel.Conservation | mymuduo/src/AsyncLogging.cc:14-112 | for every interleaving, lines written, batched and buffered are an order-preserving selection of the appended ones, complete iff none was lost |
| LoggerModel.CalmConservation | mymuduo/src/AsyncLogging.cc:14-112 | with lines shorter than a large buffer and batches of at most 25, they are all the appended lines in order |
| LoggerModel.RoundWrites | mymuduo/src/AsyncLogging.cc:44-112 | in every interleaving a round that runs to its end has added to the file, in order, all the lines the front end held when it took them, or those of the first two buffers of more than 25 |
| LoggerModel.RoundCanEnd | mymuduo/src/AsyncLogging.cc:70-112 | and every round can |
| LoggerModel.SparesGiven | mymuduo/src/AsyncLogging.cc:60-65 | the locked section gives the first spare away, and the second iff there is no next buffer |
| AsyncLoggings.AsyncLogging.constructor | mymuduo/src/AsyncLogging.cc:6-12 | four distinct empty buffers, one for each owner |
| AsyncLoggings.AsyncLogging.AppendLine | mymuduo/src/AsyncLogging.cc:14-31 | the buffers that move and the bytes in them are the append step, and no buffer is held twice |
| AsyncLoggings.AsyncLogging.PushCurrent | mymuduo/src/AsyncLogging.cc:22-27 | the full buffer goes to buffers_, and the spare or a new one takes its place |
| AsyncLoggings.AsyncLogging.Rotate | mymuduo/src/AsyncLogging.cc:22-25 | the same, with the ownership of every buffer accounted for |
| AsyncLoggings.AsyncLogging.Allocate | mymuduo/src/AsyncLogging.cc:27-27 | a new buffer shares no storage with any that is held |
| AsyncLoggings.AsyncLogging.StoreLine | mymuduo/src/AsyncLogging.cc:19-19 | the bytes of the current buffer are those of its lines |
| AsyncLoggings.AsyncLogging.Collect | mymuduo/src/AsyncLogging.cc:50-66 | is the locked step: the whole front end moves to the batch and both slots are refilled from the spares |
| AsyncLoggings.AsyncLogging.SwapBuffers | mymuduo/src/AsyncLogging.cc:58-65 | where every pointer goes in the locked section |
| AsyncLoggings.AsyncLogging.Trim | mymuduo/src/AsyncLogging.cc:70-80 | is the overload step: the first two buffers of more than 25 stay |
| AsyncLoggings.AsyncLogging.WriteBatch | mymuduo/src/AsyncLogging.cc:82-86 | writes the lines of the batch, in order, behind those in the file |
| AsyncLoggings.AsyncLogging.Recycle | mymuduo/src/AsyncLogging.cc:88-110 | is the recycling step: both spares are owned and empty again |
| AsyncLoggings.AsyncLogging.RefillSpares | mymuduo/src/AsyncLogging.cc:94-108 | back() is never taken of an empty batch, whichever spares are missing |
| AsyncLoggings.AsyncLogging.TakeBack | mymuduo/src/AsyncLogging.cc:97-99 | takes the last buffer of the batch and empties it |
| AsyncLoggings.AsyncLogging.BackEndRound | mymuduo/src/AsyncLogging.cc:44-112 | a round with no appender in between writes everything appended, or its first two buffers on overload |
| AsyncLoggings.AsyncLogging.RoundStart | mymuduo/src/AsyncLogging.cc:46-48 | the three commented-out assertions hold at the start of every round |
| AsyncLoggings.AsyncLogging.BatchTaken | mymuduo/src/AsyncLogging.cc:68-68 | the fourth holds behind the swap, and there are two buffers when both spares are missing |
| HttpRequests.VerbRoundTrip | http/include/http/HttpRequest.h:46-106 | setMethod and methodString are inverse on the five methods, and only those are accepted |
| HttpRequests.VerbNames | http/include/http/HttpRequest.h:50-101 | GET, POST, HEAD, PUT and DELETE give their methods, and nothing else gives one |
| HttpRequests.HttpRequest.SetMethod | http/include/http/HttpRequest.h:46-75 | sets the method named, and says whether it is one |
| HttpRequests.HttpRequest.SetTarget | http/src/HttpContext.cc:19-28 | splits the target at its first question mark, which stays with the query; without one an older query stays |
| HttpRequests.HttpRequest.AddHeader | http/include/http/HttpRequest.h:138-163 | stores the value without white space around it, over an earlier one of the name: getHeader then returns it, and what it did before for every other name |
| HttpRequests.HttpRequest.SkipSpace | http/include/http/HttpRequest.h:142-146 | the first loop drops exactly the leading white space |
| HttpRequests.HttpRequest.DropTrailingSpace | http/include/http/HttpRequest.h:147-150 | the second drops exactly the trailing white space |
| HttpRequests.HttpRequest.Swap | http/include/http/HttpRequest.h:170-178 | exchanges all six fields |
| Bytes.TrimInverse | http/include/http/HttpRequest.h:142-150 | trimming gives back a trimmed value from any white space around it |
| Bytes.Literals | http/include/http/HttpRequest.h:142-150 | which characters are white space, and which end a line |
| HttpParser.RequestLineAcceptance | http/src/HttpContext.cc:8-49 | a line is accepted iff it is one of five methods, a space, a target without spaces, a space, and HTTP/1.0 or HTTP/1.1 |
| HttpParser.RequestLineFields | http/src/HttpContext.cc:8-49 | and then exactly its method, path, query and version are stored |
| HttpParser.VersionNames | http/src/HttpContext.cc:30-45 | HTTP/1.0 and HTTP/1.1 give their versions, and nothing else gives one |
| HttpParser.RequestLineDecides | http/src/HttpContext.cc:57-78 | where a request line is awaited a complete line in the grammar is consumed, and any other fails the parse, which then stays there and consumes nothing |
| HttpParser.RequestLineStored | http/src/HttpContext.cc:57-68 | parsing goes on with the headers behind an accepted line, with its method, target and version and the receive time stored |
| HttpParser.HeaderLineDecides | http/src/HttpContext.cc:79-97 | in the headers a complete line with a colon is stored, split at the first and trimmed, and one without ends them |
| HttpParser.HeadersNeverFail | http/src/HttpContext.cc:79-102 | from the headers on nothing fails and nothing leads back |
| HttpParser.ParseSplit | http/src/HttpContext.cc:51-109 | parsing the first bytes, then the rest behind what was left unread, is parsing all of them, wherever they are split |
| HttpParser.TimeIrrelevant | http/src/HttpContext.cc:65-65 | the time of reading reaches nothing but the receive time |
| HttpParser.IncrementalIsOneShot | http/src/HttpContext.cc:51-109 | any chunks, cut anywhere, parsed one after the other, give the verdict, state, fields and unread bytes of one call on the whole input |
| HttpParser.HeadersReadBack | http/src/HttpContext.cc:79-102 | a printed header block is read back as the map it denotes, later values over earlier ones, and nothing behind it is touched |
| HttpParser.RequestRoundTrip | http/src/HttpContext.cc:51-109 | printing any valid request and parsing it gives it back and leaves what follows unread |
| HttpParser.PipelineRoundTrip | http/src/HttpContext.cc:51-109 | n rounds of parse and reset on n printed requests yield exactly those, in order, and consume exactly their bytes |
| HttpParser.HeadersEndAtColonlessLine | http/src/HttpContext.cc:84-96 | a line ends the headers iff it has no colon |
| HttpContexts.HttpContext.constructor | http/include/http/HttpContext.h:23-26 | starts at the request line of a fresh request |
| HttpContexts.HttpContext.Reset | http/include/http/HttpContext.h:38-43 | is as good as a new context |
| HttpContexts.HttpContext.ProcessLine | http/src/HttpContext.cc:8-49 | the scan sets verdict and fields as specified, also those it leaves behind when it rejects |
| HttpContexts.HttpContext.TakeMethod | http/src/HttpContext.cc:12-13 | stores the method named |
| HttpContexts.HttpContext.TakeTarget | http/src/HttpContext.cc:19-28 | stores path and query |
| HttpContexts.HttpContext.TakeVersion | http/src/HttpContext.cc:30-45 | stores the version iff the string is one |
| HttpContexts.HttpContext.TakeRequestLine | http/src/HttpContext.cc:59-73 | accepts the line iff it is in the grammar, and consumes it with its CRLF iff it does |
| HttpContexts.HttpContext.TakeHeaderLine | http/src/HttpContext.cc:81-96 | stores a header or ends the block, and consumes the line |
| HttpContexts.HttpContext.ParseRound | http/src/HttpContext.cc:55-107 | a round that goes on consumes at least two bytes, and the rest of the parse is that of what is left |
| HttpContexts.HttpContext.ParseRequest | http/src/HttpContext.cc:51-109 | terminates, with the verdict, state and unread bytes of the specified parse; where a request line is awaited it fails, consuming nothing, iff there is a complete line that is not in the grammar |
| HttpContexts.ParseReads | http/src/HttpContext.cc:51-109 | appending each read to the buffer and parsing on is one parse of all the bytes |
| HttpContexts.ParsePipeline | http/src/HttpContext.cc:51-109 | parse and reset in turn on one buffer give exactly the requests and the unread bytes of the specified rounds, up to the first that is rejected or incomplete |
| HttpContexts.NothingStored | http/src/HttpContext.cc:51-109 | a parse that has not got past the request line has stored nothing |
| HttpResponses.HttpResponse.AddHeader | http/include/http/HttpResponse.h:56-59 | updates the map the headers denote and keeps them in order |
| HttpResponses.InsertIsUpdate | http/include/http/HttpResponse.h:56-59 | insertion into the ordered headers is the update of the map |
| HttpResponses.InsertSorted | http/include/http/HttpResponse.h:56-59 | and keeps the names strictly ascending |
| HttpResponses.HttpResponse.AppendToBuffer | http/src/HttpResponse.cc:11-41 | appends the printed response to what the buffer holds |
| HttpResponses.HttpResponse.AppendStatusLine | http/src/HttpResponse.cc:13-18 | appends the status line through the 32-byte scratch buffer |
| HttpResponses.HttpResponse.AppendDefaults | http/src/HttpResponse.cc:20-29 | appends the close header, or the length and keep-alive headers |
| HttpResponses.HttpResponse.AppendHeaders | http/src/HttpResponse.cc:31-37 | the loop appends every header in the map's order |
| HttpResponses.HttpResponse.AppendHeader | http/src/HttpResponse.cc:33-36 | appends one header line |
| HttpResponses.ContentLengthExact | http/src/HttpResponse.cc:26-26 | the scratch buffer holds the Content-Length line iff the body is below 10^13 bytes |
| HttpResponses.StatusLineExact | http/src/HttpResponse.cc:15-15 | and the status line for every 32-bit status code |
| HttpResponses.StatusLineFirst | http/src/HttpResponse.cc:13-41 | the first line of the printed response is the status line, and the parsed part is what follows it |
| HttpResponses.PrintedResponse | http/src/HttpResponse.cc:11-41 | the printed bytes in so many words, with the literal default headers |
| HttpResponses.ResponseRoundTrip | http/src/HttpResponse.cc:11-41 | parsing what follows the status line recovers the headers laid over the defaults and leaves exactly the body unread |
| TimerModel.InsertedIsSet | mymuduo/src/TimerQueue.cc:206-208 | insertion keeps the set's order and adds just that entry |
| TimerModel.StepKeeps | mymuduo/src/TimerQueue.cc:103-211 | every call keeps: the set is ordered, each entry is filed under its timer's expiration, and the expired ones are out of it |
| TimerModel.FiledOnce | mymuduo/src/TimerQueue.cc:196-211 | no timer is in the set twice |
| TimerModel.ExpiredExactly | mymuduo/src/TimerQueue.cc:154-160 | getExpired takes out, in order, exactly the entries strictly before now |
| TimerModel.PutBackEffect | mymuduo/src/TimerQueue.cc:175-181 | a round of reset restarts and files an uncancelled repeating timer, and no other |
| TimerModel.ResetEffect | mymuduo/src/TimerQueue.cc:171-194 | the whole loop does so for exactly the expired, repeating, uncancelled timers |
| TimerModel.RepeatingReturns | mymuduo/src/TimerQueue.cc:171-181 | an expired repeating timer is filed at now plus its interval iff no callback of the round cancelled it |
| TimerModel.RoundRuns | mymuduo/src/TimerQueue.cc:115-194 | a whole round runs the callbacks of exactly the timers strictly before now, once each and in order, whatever they add and cancel; a repeating one is filed again, one interval after now, iff no cancellation of it took place in the round |
| TimerModel.RoundCanEnd | mymuduo/src/TimerQueue.cc:142-149 | every round can be run to its end |
| TimerModel.CancelInCallback | mymuduo/src/TimerQueue.cc:126-129 | a cancellation inside the callbacks notes the timer, and does nothing else |
| TimerModel.ActiveTimers | mymuduo/src/TimerQueue.cc:117-167 | what cancellation and expiry would do about a timer in activeTimers_, if there were one |
| TimerModel.AddFiles | mymuduo/src/TimerQueue.cc:103-113 | adding files the timer under its expiration, and sets the timerfd iff it is the earliest |
| TimerModel.RestartedExactly | mymuduo/src/Timer.cc:6-16 | a timer repeats iff its interval is positive, and restarted is due that interval later |
| TimerModel.CancelOutsideCallbacks | mymuduo/src/TimerQueue.cc:115-131 | a cancellation outside the callbacks changes nothing |
| TimerModel.OneShotConservation | mymuduo/src/TimerQueue.cc:103-194 | over any run a one-shot waits or has fired exactly once |
| TimerModel.RepeatingConservation | mymuduo/src/TimerQueue.cc:103-194 | over any run a repeating timer is kept in exactly one place unless a callback cancelled it |
| TimerModel.CallsAreTimely | mymuduo/src/TimerQueue.cc:132-181 | no callback runs before its time, and two of one timer are more than its interval apart |
| TimerModel.ArmedBetweenRounds | mymuduo/src/TimerQueue.cc:103-194 | in runs in which every expiry finds an expired timer, the timerfd is set to the earliest one between rounds |
| TimerModel.ResetArms | mymuduo/src/TimerQueue.cc:171-194 | one round of reset's loop is enough to leave the timerfd set to the earliest |
| TimerModel.RoundArmsExactly | mymuduo/src/TimerQueue.cc:132-194 | an expiry leaves the timerfd set right iff it found a timer strictly before now, whatever its callbacks do |
| TimerModel.MissedTimer | mymuduo/src/TimerQueue.cc:132-194 | an expiry at the very time of the only timer leaves it unfired and the timerfd unset |
| TimerModel.StuckUntilEarlierAdd | mymuduo/src/TimerQueue.cc:103-113 | from then on nothing fires until an earlier timer is added |
| TimerModel.FoundExactly | mymuduo/src/Timestamp.cc:14-17 | a timer d microseconds ahead of the clock is found by its own expiry iff real time has got through d + 1 seconds of the clock by then |
| TimerModel.FoundOnTimeExactly | mymuduo/src/TimerQueue.cc:27-40 | an expiry read on time finds exactly the timers that were overdue when set, or due in the last 100 microseconds of a second |
| TimerModel.SecondsClockStops | mymuduo/src/TimerQueue.cc:103-194 | any queue whose earliest timer is ahead of the clock misses it unless the expiry is read about d seconds late, and fires nothing from then on until an earlier timer is added |
| TimerModel.DelayExact | mymuduo/src/TimerQueue.cc:27-40 | the delay is a valid one that never disarms, at least 100 microseconds, and exact from there on |
| TimerQueues.TimerQueue.Insert | mymuduo/src/TimerQueue.cc:196-211 | files the timer and says whether it is the earliest |
| TimerQueues.TimerQueue.AddTimerInLoop | mymuduo/src/TimerQueue.cc:103-113 | is the add step: the timerfd is set iff the timer is the earliest |
| TimerQueues.TimerQueue.CancelInLoop | mymuduo/src/TimerQueue.cc:115-131 | adds the timer to cancelingTimers_ iff the callbacks are running, and changes nothing else |
| TimerQueues.TimerQueue.GetExpired | mymuduo/src/TimerQueue.cc:154-169 | is the expiry step, and returns what it took out |
| TimerQueues.TimerQueue.RunCallback | mymuduo/src/TimerQueue.cc:142-145 | a callback is its own call step and the adds and cancels it makes |
| TimerQueues.TimerQueue.RunCallbacks | mymuduo/src/TimerQueue.cc:142-145 | the loop runs the callbacks of all the expired timers, in order |
| TimerQueues.TimerQueue.PutTimerBack | mymuduo/src/TimerQueue.cc:176-181 | restarts and inserts as one round of reset's loop does |
| TimerQueues.TimerQueue.Reset | mymuduo/src/TimerQueue.cc:171-194 | the loop, with the timerfd set in every round, is the end of the round |
| TimerQueues.TimerQueue.HandleRead | mymuduo/src/TimerQueue.cc:132-150 | runs the callbacks of exactly the timers strictly before now, in order; files a repeating one again iff none of those callbacks cancels it; and leaves the timerfd right iff it found one |
| Numerals.DigitsDenote | mymuduo/src/LogStream.cc:15-36 | the digits of a number are canonical and denote it |
| Numerals.NumeralUnique | mymuduo/src/LogStream.cc:15-57 | no other canonical string denotes it |
| Numerals.DecimalDenotes | mymuduo/src/LogStream.cc:15-36 | signed numbers, the most negative included, are read back from their decimal string |
| Numerals.DigitsLength | mymuduo/src/LogStream.cc:21-26 | a number has at most k digits iff it is below the k-th power of the base |
| Numerals.WidthBounds | mymuduo/src/LogStream.cc:15-57 | 64 bits, signed or unsigned, need at most 20 decimal characters and 16 hexadecimal ones |
| LogStreams.TruncDigit | mymuduo/src/LogStream.cc:9-25 | truncating division and the mirrored digit table give the digits of the absolute value, for negative numbers too |
| LogStreams.WriteDigits | mymuduo/src/LogStream.cc:18-26 | the digit loop writes the number's digits backwards and nothing else |
| LogStreams.WriteReversed | mymuduo/src/LogStream.cc:18-31 | with the sign behind them |
| LogStreams.ReverseRange | mymuduo/src/LogStream.cc:33-33 | the reversal in place reverses that range and nothing else |
| LogStreams.Convert | mymuduo/src/LogStream.cc:15-36 | every value of every width up to 64 bits becomes its canonical decimal string, terminated, within the 48 bytes reserved |
| LogStreams.ConvertHex | mymuduo/src/LogStream.cc:41-57 | likewise in base 16, in at most 16 characters |
| LogStreams.LogStream.FormatInteger | mymuduo/src/LogStream.cc:61-69 | appends the decimal string or, with less than 48 bytes left, nothing; the buffer never overruns |
| LogStreams.LogStream.FormatPointer | mymuduo/src/LogStream.cc:119-131 | likewise with 0x in front |
| LogStreams.LogStream.FormatString | mymuduo/include/mymuduo/LogStream.h:79-86 | appends the string, or (null), whole or not at all |

## Left out

- Integer widths of sizes and indices: `size_t` is unbounded here; where a width shows it is written out (the digit loop, `sendInLoop` as compiled, `int` lengths below 2^31 for the log buffers, connection numbers below 2^31).
- System calls: what epoll_wait, readv, write, read of the eventfd and the clock return are parameters; the kernel is its interest set, one eventfd counter and the time the timerfd is set to.
- Errors of handleError and of the eventfd's read and write: they only log.
- A quit() before loop() has started: loop() clears quit_, so it is lost; the runs start behind that statement.
- LoopModel.RoundDrains: one schedule, for what a woken loop can do; what it does in every interleaving is in QueuedFunctorRuns and RoundRunsAll.
- EventLoops.EventLoop.DoPendingFunctors: another thread's push and wake-up come together, while a functor runs; LoopModel has them apart and anywhere.
- runInLoop: on the loop thread it is a plain call, elsewhere queueInLoop.
- TcpConnections.TcpConnection.Send: the string overload on the loop thread; on another it queues a raw pointer, and queued sends are those of the Buffer overload.
- shutdown() from another thread: its check and its assignment are not atomic, and in the histories of ConnectionModel shutdown is called on the loop thread.
- HttpContexts.HttpContext.ParseRequest: required not to be in kExpectBody or kGotAll, in which the code never returns, and not to have failed before without a reset.
- LifecycleModel.ClosedInOnePlace: for dispatches that close a connection once, and without the destructors of servers and loops, which take other paths.
- Epoll events: the low byte of the mask, which holds every event the code names but RDHUP (that only a log line prints).
- The growth of epoll's event list, and the poller's report of an fd no longer in channels_, which the mirror rules out.
- User callbacks: connection, message, write-complete and high-water-mark callbacks are queued or counted, but what they do is unknown.
- AsyncLogging::stop: it does not drain what was appended behind the last swap, and no result here says it does.
- AsyncLogging's wait with a timeout: the locked section can run at any time, so the results do not depend on it.
- The log file: an append-only sequence of lines; rolling, flushing and write errors are not part of this model.
- Timer objects: values in a table by address, not heap objects; addresses are not reused while the queue runs, and interval arithmetic is on reals.
- The clock: in the runs of TimerModel any value after the epoch at each expiry; what becomes of them with the seconds that Timestamp::now returns is proved separately, for real time that does not jump.
- std::set, std::map and std::vector: ordered sequences and maps with their specified operations; allocation failure is not modelled.
- Bytes are characters, and white space is what the C locale's isspace accepts.
- HttpServer, Acceptor, Socket, InetAddress, the thread pool's round robin, thread start-up, log macros, time and floating-point formatting: glue or library calls with nothing hard to prove.
