# Verification of the msquic-asio handle contexts

msquic-asio lets asio code drive MsQuic objects. MsQuic worker threads call back with
events; application threads start operations. The two meet in one context per stream,
connection and listener, made of pending flags, one-shot channels, a mutex and, for accept,
a binary semaphore. This project models those contexts in Dafny and proves what they promise
over every run, together with the ownership of native handles and the hex codec of the
sample program. `dafny verify dfyconfig.toml` checks all of it.

## How it is put together

- `OneShot.dfy`: a one-shot channel as a total state machine whose `Broken` state records
  any misuse (a second send, a read before the send, a live channel replaced). "Exactly
  once" is the claim that no reachable channel is `Broken`.
- `UnlockedCall.dfy`: stream start, stream send and client connection start, which touch
  their flag and channel without the mutex, interleaved with their completion callback.
- `LockedShutdown.dfy`: `async_shutdown` of streams and connections, step by step.
- `ReceiveCopy.dfy`: the receive copy loop, the loop its comment describes, and the send
  length loop.
- `StreamProtocol.dfy`: the stream context as a value (`StreamProtocol`), an ordered byte
  pipe (`BytePipe`) and the whole stream with both sides and MsQuic (`StreamSystem`).
- `Rendezvous.dfy`: the accept rendezvous at the granularity of lock, unlock, acquire, clear
  and send, with any number of callback threads; used by `Listener.dfy` and `Connection.dfy`.
- `StreamHandle.dfy`, `ListenerHandle.dfy`, `ConnectionHandle.dfy`: the classes with the
  fields of the source, each method proved to be the context function that the runs use.
- `Ownership.dfy`: wrappers, native handles and registered callback contexts.
- `Hex.dfy`: `DecodeHexBuffer` and the ticket printer.

A run is a sequence of enabled steps. These guards stand for MsQuic and the application:
MsQuic raises RECEIVE only when the last one has been completed and the peer has not ended
(the receiving states of section 3.2 of RFC 9000), completes only requests it has accepted,
raises nothing after SHUTDOWN_COMPLETE or STOP_COMPLETE, raises the callbacks of one stream
or connection one at a time, raises STOP_COMPLETE when no NEW_CONNECTION callback is under
way, and does not call back on the calling thread from StreamShutdown or ConnectionShutdown.
The application keeps at most one operation of each kind outstanding per object, uses a
connection either as client or as server, and moves no wrapper while one of its operations
is outstanding: the completion handlers capture `this`. The ownership runs carry no
operations, so their moves have no such guard; they allow every assign, open and
registration that passes the asserts, and careful use is a condition of the theorems, not of
the runs.

## Main results

- Streams: over all runs every operation completes exactly once, whatever the interleaving
  (`StreamSystem.ExactlyOnce`); the stream counts bytes like a pipe in every run and keeps
  their order exactly as far as the copy loop does (`StreamSystem.StreamIsAPipe`,
  `ReceiveCopy.OrderedExactlyWhenFitting`, `StreamSystem.MisfitRunScrambles`), and it would
  keep it in every run with an advancing destination (`StreamSystem.IntendedStreamIsAPipe`);
  every code a handler reads has one step of the run as its cause
  (`StreamSystem.AnswerHasItsCause`); everything that MsQuic does not hold finishes after SHUTDOWN_COMPLETE
  (`StreamSystem.CompleteFinishes`).
- Listeners: with any number of NEW_CONNECTION threads the unlocked assert holds, the
  semaphore stays binary, connections are handed over one to one
  (`ListenerSystem.AcceptIsSafe`, `ListenerSystem.ConnectionsConserved`), and every schedule
  delivers (`ListenerSystem.EveryScheduleOfListenerDelivers`).
- Connections: the same until a release overflows or the unlocked assert fails, with the
  exact condition under which a step does that (`ConnectionSystem.ConnectionIsSafe`,
  `ConnectionSystem.StreamsConserved`, `ConnectionSystem.GoesWrongExactly`); connect and
  shutdown are safe in every run and are answered by the events that should answer them
  (`ConnectionSystem.ConnectAndShutdownAreSafe`, `ConnectionSystem.AnswerHasItsCause`).
- Ownership: the exact condition under which a step keeps one owner and one close per handle
  (`Ownership.KeptExactlyWhenCareful`, `Ownership.HandlesConserved`), and the exact conditions
  under which handles call back into their owner's context and contexts outlive the handles
  registered with them (`Ownership.BoundExactlyWhenNotAdopting`,
  `Ownership.LiveExactlyWhenNotOrphaning`).
- Hex: exactly when decoding a printed ticket gives it back (`Hex.TicketRoundTrip`), and
  exactly when printing a decoded string does (`Hex.HexRoundTrip`).

## Where the code is narrower than its intent

- The copy loop never advances its destination, so buffers land on top of each other
  (basic_stream_handle.hpp:416-432 says otherwise in its comment). Order is kept exactly when
  the destination fills inside the first non-empty buffer or no later one has bytes:
  `ReceiveCopy.OrderedExactlyWhenFitting`, with a run that loses the order for every other
  list of sizes in `StreamSystem.MisfitRunScrambles`.
- A connection accept aborted by a transport or peer shutdown leaves its semaphore permit
  behind, stale, until SHUTDOWN_COMPLETE. A later `async_accept` then overflows the semaphore unless a
  stream callback takes that permit before the release, and a stream callback that takes it
  breaks the unlocked assert unless an accept is raised before the assert:
  `ConnectionSystem.GoesWrongExactly`, reached in `ConnectionSystem.NextAcceptOverflows`,
  `ConnectionSystem.NextStreamBreaksAssert` and, for the lucky order,
  `ConnectionSystem.ClaimedPermitDelivers`.
- A client start still at MsQuic when SHUTDOWN_COMPLETE is handled never completes, and it
  is the only operation for which that is so: `ConnectionSystem.ClientStartStuck`,
  `ConnectionSystem.CompleteFinishes`, reached in `ConnectionSystem.HeldStartIsReachable`.
- CONNECTED asserts that a connect is outstanding; a server that is late breaks it:
  `ConnectionSystem.CallbackAsserts`, `ConnectionSystem.ConnectedBeforeConnect`.
- Stream asserts at lines 183, 207 and 209 fail when a send or unclaimed data meets an abort
  or SHUTDOWN_COMPLETE: `StreamSystem.CallbackAsserts`, reached in
  `StreamSystem.EventDuringSend` and `StreamSystem.CompleteBeforeReceive`.
- A callback blocked at acquire holds up the whole object: no listener stop and no
  connection shutdown completes before the next `async_accept`.
- `assign` takes any handle and `native_handle()` shows one that is owned, so two wrappers
  can hold and close the same handle; taking a handle, or null, into an open wrapper loses the
  old one; a stream that was moved from registers a null context:
  `Ownership.KeptExactlyWhenCareful`, `Ownership.SharedHandleClosedTwice`,
  `Ownership.ReopenedStreamLeaks`, `Ownership.NullAssignLeaks`,
  `Ownership.MovedFromStreamRegistersNull`.
- `release` and `assign` leave the registered callback context alone, so a released handle
  can call back into another wrapper's or a destroyed context:
  `Ownership.BoundExactlyWhenNotAdopting`, `Ownership.LiveExactlyWhenNotOrphaning`,
  `Ownership.ReleasedHandleDangles`.

## Model

The rows come in this order: the main results, the lemmas and loops they rest on, the runs
that reach an exceptional state ("Witness"), the codes an event gives ("Code table"), and the
step-for-step links between classes, whole calls and the runs ("Link").

| member | source | states |
|---|---|---|
| StreamSystem.ExactlyOnce | include/boost/msquic/basic_stream_handle.hpp:97-213 | over all runs no channel is sent on twice or replaced while live, an armed flag means an unsent channel, and every operation is finished or outstanding |
| StreamSystem.StreamIsAPipe | include/boost/msquic/basic_stream_handle.hpp:363-444 | in every run as many bytes are acknowledged as handlers saw, never more than the peer wrote; if the receives fit, they are the peer's bytes in order |
| StreamSystem.MisfitRunScrambles | include/boost/msquic/basic_stream_handle.hpp:420-432 | for all sizes that do not fit there is a run whose bytes are not the peer's |
| ReceiveCopy.OrderedExactlyWhenFitting | include/boost/msquic/basic_stream_handle.hpp:416-432 | for given sizes, the peer's bytes arrive in order for all contents and destinations if and only if the sizes fit |
| StreamSystem.IntendedStreamIsAPipe | include/boost/msquic/basic_stream_handle.hpp:414-438 | with the advancing copy the stream is an ordered pipe in every run, with no condition on sizes |
| StreamSystem.CompleteDrains | include/boost/msquic/basic_stream_handle.hpp:185-206 | after SHUTDOWN_COMPLETE every waiting receive and shutdown has its value; a start or send lacks one only if MsQuic still holds it |
| StreamSystem.CompleteFinishes | include/boost/msquic/basic_stream_handle.hpp:185-210 | after SHUTDOWN_COMPLETE every step counts the outstanding operations down, one is always possible for those MsQuic does not hold, and at zero all have finished |
| StreamSystem.RestIsNear | include/boost/msquic/basic_stream_handle.hpp:185-210 | after SHUTDOWN_COMPLETE a run without new calls is no longer than the steps that were left |
| StreamSystem.AllCanFinish | include/boost/msquic/basic_stream_handle.hpp:284-300 | from every state after SHUTDOWN_COMPLETE with no request at MsQuic there is a run in which everything ever begun finishes |
| StreamSystem.ReceiveRendezvous | include/boost/msquic/basic_stream_handle.hpp:271-400 | frontend and backend flags are never both up, the first implies state ok, the second a queued and unacknowledged RECEIVE; the asserts of async_start, async_send and async_receive hold where they are made |
| StreamSystem.AnswerHasItsCause | include/boost/msquic/basic_stream_handle.hpp:100-204 | in every run the code a handler of start, send or shutdown is about to read was sent by one step, with no new call of the operation since: START_COMPLETE with its status, SEND_COMPLETE with success, SHUTDOWN_COMPLETE with success to a waiting shutdown, a refusal with its native status, or a shutdown called after SHUTDOWN_COMPLETE with success |
| StreamSystem.ShutdownWaitsForComplete | include/boost/msquic/basic_stream_handle.hpp:461-472 | in every run a shutdown that got success has met SHUTDOWN_COMPLETE; an accepted one called before waits with its flag up, one called after is answered at once |
| StreamSystem.CallbackAsserts | include/boost/msquic/basic_stream_handle.hpp:100-209 | each assert of the callback holds in every run, except lines 183, 207 and 209, for which the exact condition is given |
| StreamSystem.QueuedDataIsNext | include/boost/msquic/basic_stream_handle.hpp:150-200 | data queued before the end survives every event and is what the next async_receive gets |
| StreamSystem.NothingAfterEnd | include/boost/msquic/basic_stream_handle.hpp:150-200 | once the end was reported no run delivers or acknowledges another byte, and receives do not wait |
| ListenerSystem.AcceptIsSafe | include/boost/msquic/basic_listener_handle.hpp:101-123 | in every run with any number of callbacks no release overflows, the unlocked assert and those of async_accept and async_stop (lines 198 and 240) hold, no channel is misused and every operation is finished or outstanding |
| ListenerSystem.ConnectionsConserved | include/boost/msquic/basic_listener_handle.hpp:112-121 | in every run permits plus threads past acquire are at most one, and each offered connection is in flight, unread or delivered, once and in one place |
| ListenerSystem.ReleaseNeverOverflows | include/boost/msquic/basic_listener_handle.hpp:204-214 | for a listener the semaphore is never released at one, in any run |
| ListenerSystem.EveryScheduleOfListenerDelivers | include/boost/msquic/basic_listener_handle.hpp:104-121 | with async_stop, STOP_COMPLETE and any other callbacks interleaved, one outstanding accept and a blocked callback end in exactly one delivery after rank many pipeline steps, one of which is always possible |
| ListenerSystem.AcceptUnblocksListener | include/boost/msquic/basic_listener_handle.hpp:197-214 | from every state with a blocked callback, one async_accept that gets the lock is eight steps from its delivery |
| ListenerSystem.StopDrains | include/boost/msquic/basic_listener_handle.hpp:124-140 | after STOP_COMPLETE nothing is pending, waiting accepts and stops are answered, later ones complete at once |
| ListenerSystem.StopWaitsForComplete | include/boost/msquic/basic_listener_handle.hpp:243-256 | in every run a stop with a value has success and has met STOP_COMPLETE, and one called before waits with its flag up |
| ListenerSystem.StopWaitsForAccept | include/boost/msquic/basic_listener_handle.hpp:250-256 | with a callback blocked, ListenerStop does not return in any run before the next async_accept |
| ListenerSystem.StoppedFinishes | include/boost/msquic/basic_listener_handle.hpp:219-271 | after STOP_COMPLETE every outstanding accept and stop counts down to its handler, and all that began finish |
| ListenerSystem.RestIsNear | include/boost/msquic/basic_listener_handle.hpp:124-140 | after STOP_COMPLETE a run without new calls is no longer than the steps that were left |
| ListenerSystem.AllCanFinish | include/boost/msquic/basic_listener_handle.hpp:204-249 | from every state after STOP_COMPLETE there is a run in which all accepts and stops ever begun finish |
| ConnectionSystem.GoesWrongExactly | include/boost/msquic/basic_connection_handle.hpp:209-211 | in every run in which nothing has gone wrong, the next step overflows the semaphore or breaks the assert at line 211 if and only if an accept was aborted, SHUTDOWN_COMPLETE is still to come, and either async_accept releases while the permit left over lies unclaimed, or the callback that claimed it reaches its assert with no accept raised for it |
| ConnectionSystem.AcceptOverflowsExactly | include/boost/msquic/basic_connection_handle.hpp:470-480 | with no accept outstanding, a whole async_accept overflows the semaphore if and only if an earlier accept handler got an error, SHUTDOWN_COMPLETE is still to come and no callback has claimed the permit |
| ConnectionSystem.ConnectionIsSafe | include/boost/msquic/basic_connection_handle.hpp:91-240 | in every run in which no release has overflowed and no assert at line 211 has failed, no channel is misused, the semaphore stays binary, the asserts at lines 381, 423 and 463 hold and every operation is finished or outstanding |
| ConnectionSystem.StreamsConserved | include/boost/msquic/basic_connection_handle.hpp:214-219 | in every such run each offered stream is in flight, unread or delivered, once and in one place, and the permits are one for a pending accept and one more after an abort |
| ConnectionSystem.OtherRunsGoWrong | include/boost/msquic/basic_connection_handle.hpp:209-211 | every other run has a first step that overflows the semaphore or reaches line 211 with the flag down, and an accept was aborted before it |
| ConnectionSystem.ConnectAndShutdownAreSafe | include/boost/msquic/basic_connection_handle.hpp:313-431 | in every run, also beyond a broken assert at line 211, start, connect and shutdown channels are never misused, their operations are finished or outstanding, a shutdown gets success, and SHUTDOWN_COMPLETE answers connect and shutdown |
| ConnectionSystem.AnswerHasItsCause | include/boost/msquic/basic_connection_handle.hpp:96-198 | in every run the code a handler of start, connect or shutdown is about to read was sent by one step, with no new call since: success from CONNECTED, connection_aborted from a shutdown event that met a waiting connect or from a connect called after SHUTDOWN_COMPLETE, a refused start's native status, and for a shutdown success from SHUTDOWN_COMPLETE or from a call after it |
| ConnectionSystem.ConnectAndShutdownWait | include/boost/msquic/basic_connection_handle.hpp:327-333 | in every run a shutdown with a value has met SHUTDOWN_COMPLETE, and a shutdown or a server's connect called before waits with its flag up |
| ConnectionSystem.EveryScheduleOfConnectionDelivers | include/boost/msquic/basic_connection_handle.hpp:209-219 | with shutdown, connect and all events interleaved, one outstanding accept and a blocked callback end in exactly one delivery after rank many pipeline steps, one of which is always possible |
| ConnectionSystem.AcceptUnblocksConnection | include/boost/msquic/basic_connection_handle.hpp:462-480 | from every state with a blocked stream callback, one async_accept that gets the lock is eight steps from its delivery |
| ConnectionSystem.CompleteDrains | include/boost/msquic/basic_connection_handle.hpp:173-198 | after SHUTDOWN_COMPLETE, in every run in which nothing went wrong, no connect, accept or shutdown is pending, waiting ones are answered, later ones complete at once |
| ConnectionSystem.CompleteStays | include/boost/msquic/basic_connection_handle.hpp:173-179 | shutdown_complete is final in every run |
| ConnectionSystem.CompleteFinishes | include/boost/msquic/basic_connection_handle.hpp:319-351 | after it every operation but a client start held by MsQuic counts down to its handler, and all that began finish |
| ConnectionSystem.RestIsNear | include/boost/msquic/basic_connection_handle.hpp:173-198 | after SHUTDOWN_COMPLETE a run without new calls is no longer than the steps that were left |
| ConnectionSystem.AllCanFinish | include/boost/msquic/basic_connection_handle.hpp:327-502 | from every state after SHUTDOWN_COMPLETE with no client start at MsQuic there is a run in which everything ever begun finishes |
| ConnectionSystem.CallbackAsserts | include/boost/msquic/basic_connection_handle.hpp:102-182 | in every run the asserts hold if and only if a connect is outstanding at CONNECTED and no client start at a shutdown event |
| ConnectionSystem.ClientStartStuck | include/boost/msquic/basic_connection_handle.hpp:141-143 | a client start held by MsQuic at SHUTDOWN_COMPLETE never completes in any continuation |
| ConnectionSystem.ClientStartFinishes | include/boost/msquic/basic_connection_handle.hpp:394-406 | a waiting client start can run its handler if and only if MsQuic has answered it |
| ConnectionSystem.ShutdownWaitsForAccept | include/boost/msquic/basic_connection_handle.hpp:208-211 | with a stream callback blocked, no run handles a shutdown event before the next async_accept |
| Ownership.HandlesConserved | include/boost/msquic/basic_quic_handle.hpp:29-50 | in every careful run an open handle has at most one wrapper and is closed at most once; unless it was handed out or released and not registered since, its callbacks go to its wrapper's own context; with no wrapper and no loose handle left, every handle ever given out has been closed |
| Ownership.KeptExactlyWhenCareful | include/boost/msquic/basic_quic_handle.hpp:39-43 | for every step, assign of any handle or null included, ownership survives if and only if the wrapper was empty and took an open handle no other wrapper has, or was assigned what it had, and no moved-from stream registered its null context |
| Ownership.BoundExactlyWhenNotAdopting | include/boost/msquic/basic_quic_handle.hpp:43 | a careful step keeps every owned handle calling back into its owner's context if and only if it does not assign a handle registered elsewhere |
| Ownership.LiveExactlyWhenNotOrphaning | include/boost/msquic/basic_quic_handle.hpp:45-50 | a careful step leaves every open handle calling back into a live context if and only if it does not destroy a wrapper whose context another open handle is still registered with |
| Ownership.ContextsOutlive | include/boost/msquic/basic_connection_handle.hpp:266-285 | in every careful run without such a destruction registered contexts outlive their open handles |
| Ownership.OnlyOwnersClose | include/boost/msquic/basic_stream_handle.hpp:493-498 | a handle is closed only by close or destruction of the wrapper that owns it, and only while open |
| Ownership.AcceptPathBinds | include/boost/msquic/basic_listener_handle.hpp:116-121 | construct, assign, set_callback, the move into the channel and the move to the handler, with the emptied wrappers destroyed, leave the handler's wrapper owning the handle and bound to its context, and change nothing else |
| UnlockedCall.NoLostWakeup | include/boost/msquic/basic_stream_handle.hpp:317-334 | in every interleaving of caller and completion callback the channel is never misused, a callback finds the flag up and its own channel waiting, the failure path never races a second send and answers the native status of the refusal, and an answered call holds its own answer |
| LockedShutdown.NoLostWakeup | include/boost/msquic/basic_stream_handle.hpp:451-473 | wherever SHUTDOWN_COMPLETE falls, a waiting shutdown is answered or still has its flag up to meet the event, with success only once the event is handled, or with the native status MsQuic refused it with |
| Hex.TicketRoundTrip | example/sample.c:828-829 | decoding the printed ticket gives it back if and only if it has at most 10240 bytes; a longer one decodes to nothing, its length taken to fit 32 bits; the 16-bit cast keeps the length |
| Hex.HexRoundTrip | example/sample.c:161-181 | printing the decoding gives the uppercase string if and only if it is hex, of even length, and fits |
| ReceiveCopy.CopyOut | include/boost/msquic/basic_stream_handle.hpp:418-433 | returns min(bufferLen, sum of sizes), writes nothing beyond that, and leaves the fold of truncated buffers at offset 0 |
| ReceiveCopy.LastCopyWins | include/boost/msquic/basic_stream_handle.hpp:420-432 | at every offset the last buffer whose share reaches it determines the byte |
| ReceiveCopy.ShareIsLeftover | include/boost/msquic/basic_stream_handle.hpp:422-431 | a buffer contributes exactly what the bytes before it leave room for |
| ReceiveCopy.UntouchedByte | include/boost/msquic/basic_stream_handle.hpp:426-427 | an offset no buffer reaches keeps its old byte |
| ReceiveCopy.AdvancingDelivers | include/boost/msquic/basic_stream_handle.hpp:416-432 | with a destination that advances, as the comment says, the peer's bytes are in order for every destination and all buffers |
| SendLength.QueuedLength | include/boost/msquic/basic_stream_handle.hpp:337-340 | the length loop returns the exact sum; the 64-bit size never wraps |
| SendLength.SumBound | include/boost/msquic/basic_stream_handle.hpp:337-340 | the largest request, 2^32-1 buffers of 2^32-1 bytes, stays below 2^64 |
| BytePipe.NextKeepsOrdered | include/boost/msquic/basic_stream_handle.hpp:360-361 | the pipe hands over exactly the prefix taken |
| StreamSystem.StepRefinesPipe | include/boost/msquic/basic_stream_handle.hpp:112-149 | every step whose copy fits is a step of the ordered byte pipe or leaves it unchanged |
| StreamSystem.HandlerAcknowledges | include/boost/msquic/basic_stream_handle.hpp:414-444 | a handler acknowledges min(destination, offer) and reports as much; with nothing on offer it acknowledges 0 |
| StreamSystem.SentValueStays | include/boost/msquic/basic_stream_handle.hpp:402-415 | a value sent to an outstanding receive is what its handler reads, whatever happens between |
| StreamSystem.StepAnswers | include/boost/msquic/basic_stream_handle.hpp:100-204 | each of these channels gets a value at exactly the steps named there and no others, and is otherwise touched only by its own call and handler |
| StreamSystem.StepAnswersReceive | include/boost/msquic/basic_stream_handle.hpp:112-200 | the receive channel gets a value exactly from RECEIVE, from an end event with a receive waiting, and from async_receive after the end with nothing queued, each with its code and buffers |
| StreamSystem.EndedReceiveIsImmediate | include/boost/msquic/basic_stream_handle.hpp:383-396 | after the end, with nothing queued, a receive completes at once, empty, with the code of the state |
| StreamSystem.IntendedStepRefinesPipe | include/boost/msquic/basic_stream_handle.hpp:414-438 | with the advancing copy every step is a step of the pipe or leaves it unchanged |
| Rendezvous.PermitsAndThreads | include/boost/msquic/basic_listener_handle.hpp:101-123 | permits plus threads between acquire and send are at most one, and one more with a stale permit; such threads are at most one |
| Rendezvous.FlagAndChannel | include/boost/msquic/basic_listener_handle.hpp:104-107 | with no stale permit the assert made without the lock holds; a thread about to send always has an unsent channel |
| Rendezvous.StepKeepsInv | include/boost/msquic/basic_listener_handle.hpp:101-121 | every step of caller and callbacks that does not itself overflow or break the assert keeps the lock, permit, flag, channel and handle bookkeeping, stale permit or not |
| Rendezvous.HandlerDelivers | include/boost/msquic/basic_listener_handle.hpp:219-233 | a successful completion carries an offered handle not delivered before; a failed one carries none |
| Rendezvous.QuietMeansAllDelivered | include/boost/msquic/basic_listener_handle.hpp:101-121 | with no callback under way and nothing unread, handles delivered are the handles offered, one to one |
| Rendezvous.WrongExactlyWhenStale | include/boost/msquic/basic_connection_handle.hpp:209-211 | at every act of the rendezvous, a release overflows, or the assert fails, if and only if a permit is stale and, for a release, unclaimed, for the assert, claimed with no accept raised and unserved |
| Rendezvous.StalePermitIsInTheWay | include/boost/msquic/basic_connection_handle.hpp:475-479 | on an unclaimed stale permit no accept gets past its release before a callback acquires |
| Rendezvous.ClaimedAcceptGoesRight | include/boost/msquic/basic_connection_handle.hpp:209-219 | from every state with a stale permit and a callback at acquire, claiming it first lets the next accept complete with that callback's handle |
| Rendezvous.CallOverflowsExactlyWhenStale | include/boost/msquic/basic_connection_handle.hpp:475-479 | an uninterrupted accept call overflows if and only if a stale permit lies unclaimed |
| Rendezvous.AbortStrandsPermit | include/boost/msquic/basic_connection_handle.hpp:148-152 | aborting a pending accept leads, by the next accept's own steps, to an overflowed semaphore |
| Rendezvous.AbortedIsSeen | include/boost/msquic/basic_connection_handle.hpp:488-498 | with no accept outstanding, the stranded permit is there if and only if some accept handler got an error and the object is still open |
| Rendezvous.StepAnswers | include/boost/msquic/basic_listener_handle.hpp:104-140 | the accept channel gets a value exactly from a callback, with success and its handle, from an abort or a close of a pending accept, with the code and no handle, and from a call on a closed object, with connection_aborted |
| OneShot.BrokenExactlyOutOfTurn | include/boost/msquic/basic_stream_handle.hpp:271-297 | a channel slot records misuse exactly when its channels are not each created, sent on once and taken once, in that order; in turn, what is taken is what was sent |
| Rendezvous.LockHolderNeverBlocks | include/boost/msquic/basic_listener_handle.hpp:102-104 | nobody waits on the semaphore holding the mutex; whoever holds it can go on |
| Rendezvous.BlockedExactly | include/boost/msquic/basic_listener_handle.hpp:102-121 | with the mutex free a callback is blocked if and only if it is at acquire with no permit, and then no accept is waiting for it |
| Rendezvous.RankCountsDown | include/boost/msquic/basic_listener_handle.hpp:197-214 | every step towards the delivery lowers a rank by one and no other step touches it |
| Rendezvous.OnTheWayCanStep | include/boost/msquic/basic_listener_handle.hpp:102-121 | such a step is always possible, whatever other threads do |
| Rendezvous.EveryScheduleDelivers | include/boost/msquic/basic_connection_handle.hpp:209-219 | in every schedule of the rendezvous acts one accept and a blocked callback end in exactly one delivery after rank many pipeline acts |
| Rendezvous.AcceptUnblocks | include/boost/msquic/basic_connection_handle.hpp:462-480 | from any blocked state one async_accept is enough, in eight acts |
| ListenerSystem.RunProjects | include/boost/msquic/basic_listener_handle.hpp:97-123 | every run of the listener is a run of its accept rendezvous |
| ConnectionSystem.RunProjects | include/boost/msquic/basic_connection_handle.hpp:199-220 | every run of the connection is a run of its accept rendezvous |
| ConnectionSystem.StepAnswers | include/boost/msquic/basic_connection_handle.hpp:96-198 | each of the two channels gets a value at exactly the steps named there and no others, and is otherwise touched only by its own calls and handlers |
| Ownership.MoveCarriesContext | include/boost/msquic/basic_connection_handle.hpp:266-285 | a move, of an open wrapper or not, gives handle and context to the new wrapper with the registration still valid, empties the old one, leaves it a context of its own if it is a connection and none if it is a stream, and changes no other wrapper |
| Ownership.StepKeepsInv | include/boost/msquic/basic_connection_handle.hpp:306-311 | every careful step keeps ownership |
| Ownership.AssignAndSetCallbackBind | include/boost/msquic/basic_connection_handle.hpp:280-285 | assign followed by set_callback keeps it, whatever the handle called back before |
| Ownership.TakeInBinds | include/boost/msquic/basic_listener_handle.hpp:116-119 | the callback's new wrapper takes the handle and is bound to it |
| Ownership.HandOverMoves | include/boost/msquic/basic_listener_handle.hpp:231-232 | a move and the destruction of the emptied wrapper change the owner's name only |
| Hex.DecodeHexChar | example/sample.c:147-156 | a nibble, whose digit is the uppercase of the character if and only if that is a hex character; 0 for any other |
| Hex.DecodeHexBuffer | example/sample.c:161-181 | the number of pairs if they fit and 0 otherwise; each byte is its pair's first value times 16 plus the second; the rest of the buffer is kept |
| Hex.OddCharacterIsIgnored | example/sample.c:168-181 | an odd last character changes nothing |
| Hex.PrintTicket | example/sample.c:734-738 | two uppercase digits a byte |
| Hex.PrintedAt | example/sample.c:735-737 | the two characters printed for each byte |
| Hex.ShiftOr | example/sample.c:175-177 | the shift and or of two nibbles, on eight bits, is their base-16 value |
| ReceiveCopy.TwoBuffersCollide | include/boost/msquic/basic_stream_handle.hpp:426-431 | Witness: two one-byte buffers both land on byte 0 |
| StreamSystem.EventDuringSend | include/boost/msquic/basic_stream_handle.hpp:182-207 | Witness: a run in which PEER_SEND_ABORTED or SHUTDOWN_COMPLETE meets a send in flight and breaks the assert at line 183 or 207 |
| StreamSystem.CompleteBeforeReceive | include/boost/msquic/basic_stream_handle.hpp:209 | Witness: a run in which SHUTDOWN_COMPLETE meets unclaimed data and breaks the assert at line 209 |
| Rendezvous.AbortIsReachable | include/boost/msquic/basic_connection_handle.hpp:167-171 | Witness: one accept reaches a state in which a shutdown event aborts it |
| ListenerSystem.BlockedIsReachable | include/boost/msquic/basic_listener_handle.hpp:102-104 | Witness: a run to a callback blocked at acquire while ListenerStop waits |
| ConnectionSystem.ConnectedBeforeConnect | include/boost/msquic/basic_connection_handle.hpp:102-103 | Witness: a server's CONNECTED that comes before async_connect breaks the assert |
| ConnectionSystem.NextAcceptOverflows | include/boost/msquic/basic_connection_handle.hpp:475-479 | Witness: a run with an aborted accept and another one, which ends with the semaphore overflowed |
| ConnectionSystem.NextStreamBreaksAssert | include/boost/msquic/basic_connection_handle.hpp:209-211 | Witness: a run with an aborted accept and a new stream, whose callback reaches the assert with the flag down |
| ConnectionSystem.ClaimedPermitDelivers | include/boost/msquic/basic_connection_handle.hpp:209-219 | Witness: the same with the accept raised between acquire and assert; it completes with the stream, and nothing goes wrong |
| ConnectionSystem.ShutdownMeetsHeldStart | include/boost/msquic/basic_connection_handle.hpp:143-182 | Witness: each shutdown event can meet a client start held by MsQuic, and breaks the assert |
| ConnectionSystem.HeldStartIsReachable | include/boost/msquic/basic_connection_handle.hpp:384-391 | Witness: a run to a client start still held after SHUTDOWN_COMPLETE |
| ConnectionSystem.BlockedIsReachable | include/boost/msquic/basic_connection_handle.hpp:208-209 | Witness: a run to a stream callback blocked at acquire |
| Ownership.SharedHandleClosedTwice | include/boost/msquic/basic_quic_handle.hpp:39-43 | Witness: a wrapper assigned another's native_handle() closes the handle a second time |
| Ownership.ReopenedStreamLeaks | include/boost/msquic/basic_stream_handle.hpp:247-252 | Witness: opening an open stream loses its first handle |
| Ownership.NullAssignLeaks | include/boost/msquic/basic_quic_handle.hpp:43 | Witness: assigning null to an open wrapper loses its handle |
| Ownership.MovedFromStreamRegistersNull | include/boost/msquic/basic_stream_handle.hpp:235-244 | Witness: a stream that was moved from registers a null context |
| Ownership.ReleasedHandleDangles | include/boost/msquic/basic_quic_handle.hpp:43-50 | Witness: a careful run with release and assign, after which an owned open handle calls back into a destroyed context |
| StreamSystem.EndEvents | include/boost/msquic/basic_stream_handle.hpp:100-206 | Code table: state after each event, the code each gives a waiting operation, and what it leaves alone |
| ListenerSystem.StopCompleteAnswers | include/boost/msquic/basic_listener_handle.hpp:124-140 | Code table: STOP_COMPLETE gives shut_down to a pending accept and success to a pending stop, also when it runs inside ListenerStop |
| ConnectionSystem.EventAnswers | include/boost/msquic/basic_connection_handle.hpp:96-198 | Code table: state after each event, the code each pending operation gets from it, and what it leaves alone |
| UnlockedCall.HalvesAreTheirSteps | include/boost/msquic/basic_connection_handle.hpp:377-392 | Link: the code before and after the MsQuic call is the uninterrupted run of the fine steps, for accepted and refused requests |
| LockedShutdown.WholeCallIsItsSteps | include/boost/msquic/basic_connection_handle.hpp:319-334 | Link: the locked call equals its steps run without interruption |
| StreamSystem.ContextFollowsSteps | include/boost/msquic/basic_stream_handle.hpp:451-473 | Link: async_shutdown as a context function is the locked steps of the runs, for every outcome of StreamShutdown |
| StreamHandle.StreamContext.Callback | include/boost/msquic/basic_stream_handle.hpp:81-215 | Link: the callback changes the context as the runs do, and retains the buffers of RECEIVE only |
| StreamHandle.StreamContext.EndWaitingReceive | include/boost/msquic/basic_stream_handle.hpp:155-161 | Link: a waiting receive is told the end with the given code |
| StreamHandle.StreamContext.constructor | include/boost/msquic/basic_stream_handle.hpp:45 | Link: nothing pending, state ok, no channel |
| StreamHandle.BasicStreamHandle.BeginStart | include/boost/msquic/basic_stream_handle.hpp:271-276 | Link: channel and flag are set before StreamStart |
| StreamHandle.BasicStreamHandle.EndStart | include/boost/msquic/basic_stream_handle.hpp:278-283 | Link: a refused start is answered with its native status, an accepted one is left alone |
| StreamHandle.BasicStreamHandle.BeginSend | include/boost/msquic/basic_stream_handle.hpp:317-322 | Link: channel and flag are set before StreamSend |
| StreamHandle.BasicStreamHandle.EndSend | include/boost/msquic/basic_stream_handle.hpp:324-341 | Link: a refused send is answered with its native status and reports 0; an accepted one reports the total length |
| StreamHandle.BasicStreamHandle.AsyncReceive | include/boost/msquic/basic_stream_handle.hpp:367-400 | Link: the locked part of async_receive |
| StreamHandle.BasicStreamHandle.ReceiveHandler | include/boost/msquic/basic_stream_handle.hpp:405-438 | Link: copies the channel's buffers out, acknowledges exactly what it reports, passes the code on |
| StreamHandle.BasicStreamHandle.AsyncShutdown | include/boost/msquic/basic_stream_handle.hpp:451-473 | Link: the locked part of async_shutdown with each outcome of StreamShutdown |
| StreamHandle.BasicStreamHandle.StartHandler | include/boost/msquic/basic_stream_handle.hpp:287-297 | Link: passes on the value sent and uses the channel up |
| StreamHandle.BasicStreamHandle.SendHandler | include/boost/msquic/basic_stream_handle.hpp:345-355 | Link: passes on the value sent with the length queued by the call, and uses the channel up |
| StreamHandle.BasicStreamHandle.ShutdownHandler | include/boost/msquic/basic_stream_handle.hpp:478-488 | Link: passes on the value sent and uses the channel up |
| Rendezvous.AcceptCallIsItsSteps | include/boost/msquic/basic_listener_handle.hpp:197-214 | Link: the accept call, run without interruption, changes flag, channel and semaphore as its context function and nothing else but the caller's place, and goes right unless that overflows |
| Rendezvous.DeliverCallIsItsSteps | include/boost/msquic/basic_listener_handle.hpp:104-121 | Link: the callback from acquire to send equals its steps run without interruption, which go right if and only if the flag is up |
| ListenerSystem.ContextFollowsSteps | include/boost/msquic/basic_listener_handle.hpp:104-256 | Link: async_accept, async_stop and NEW_CONNECTION as context functions agree with the fine steps of the runs |
| ListenerSystem.RunsStartFresh | include/boost/msquic/basic_listener_handle.hpp:36 | Link: the context the constructor makes is the one the runs start from, with no permit |
| ListenerHandle.ListenerContext.NewConnection | include/boost/msquic/basic_listener_handle.hpp:104-121 | Link: NEW_CONNECTION from acquire on |
| ListenerHandle.ListenerContext.StopComplete | include/boost/msquic/basic_listener_handle.hpp:124-140 | Link: STOP_COMPLETE drains accept and stop |
| ListenerHandle.BasicListenerHandle.AsyncAccept | include/boost/msquic/basic_listener_handle.hpp:197-214 | Link: async_accept, open and stopped |
| ListenerHandle.BasicListenerHandle.AsyncStop | include/boost/msquic/basic_listener_handle.hpp:239-256 | Link: async_stop up to its unlock; ListenerStop follows unless already stopped |
| ListenerHandle.BasicListenerHandle.AcceptHandler | include/boost/msquic/basic_listener_handle.hpp:220-233 | Link: passes on code and connection and uses the channel up |
| ListenerHandle.BasicListenerHandle.StopHandler | include/boost/msquic/basic_listener_handle.hpp:260-269 | Link: passes on the value sent and uses the channel up |
| ConnectionSystem.ContextFollowsSteps | include/boost/msquic/basic_connection_handle.hpp:199-480 | Link: async_connect, async_accept, async_shutdown and PEER_STREAM_STARTED as context functions agree with the fine steps of the runs, also on a stale permit |
| ConnectionSystem.RunsStartFresh | include/boost/msquic/basic_connection_handle.hpp:37-39 | Link: the context the constructor makes is the one the runs start from, with no permit |
| ConnectionHandle.ConnectionContext.Callback | include/boost/msquic/basic_connection_handle.hpp:79-240 | Link: the callback changes the context as the runs do |
| ConnectionHandle.ConnectionContext.CleanUpPending | include/boost/msquic/basic_connection_handle.hpp:144-152 | Link: a shutdown event answers a pending connect and a pending accept |
| ConnectionHandle.ConnectionContext.PeerStreamStarted | include/boost/msquic/basic_connection_handle.hpp:199-220 | Link: PEER_STREAM_STARTED from acquire on |
| ConnectionHandle.BasicConnectionHandle.BeginStart | include/boost/msquic/basic_connection_handle.hpp:377-382 | Link: channel and flag are set before ConnectionStart |
| ConnectionHandle.BasicConnectionHandle.EndStart | include/boost/msquic/basic_connection_handle.hpp:384-392 | Link: a refused start is answered with its native status |
| ConnectionHandle.BasicConnectionHandle.AsyncConnect | include/boost/msquic/basic_connection_handle.hpp:417-431 | Link: async_connect, before and after SHUTDOWN_COMPLETE |
| ConnectionHandle.BasicConnectionHandle.AsyncAccept | include/boost/msquic/basic_connection_handle.hpp:462-480 | Link: async_accept, before and after SHUTDOWN_COMPLETE |
| ConnectionHandle.BasicConnectionHandle.AsyncShutdown | include/boost/msquic/basic_connection_handle.hpp:319-334 | Link: async_shutdown, before and after SHUTDOWN_COMPLETE |
| ConnectionHandle.BasicConnectionHandle.ConnectHandler | include/boost/msquic/basic_connection_handle.hpp:397-406 | Link: passes on the value sent and uses the channel up |
| ConnectionHandle.BasicConnectionHandle.AcceptHandler | include/boost/msquic/basic_connection_handle.hpp:486-499 | Link: passes on code and stream and uses the channel up |
| ConnectionHandle.BasicConnectionHandle.ShutdownHandler | include/boost/msquic/basic_connection_handle.hpp:338-348 | Link: passes on the value sent and uses the channel up |
| QuicHandle.BasicQuicHandle.Move | include/boost/msquic/basic_stream_handle.hpp:235-237 | Link: the move constructors take handle and context and empty the other wrapper |
| QuicHandle.BasicQuicHandle.Assign | include/boost/msquic/basic_quic_handle.hpp:43 | Link: takes the handle |
| QuicHandle.BasicQuicHandle.Release | include/boost/msquic/basic_quic_handle.hpp:46-50 | Link: returns the handle and gives it up |
| QuicHandle.BasicQuicHandle.IsOpen | include/boost/msquic/basic_quic_handle.hpp:52-55 | Link: whether a handle is held |
| QuicHandle.BasicQuicHandle.SetCallback | include/boost/msquic/basic_stream_handle.hpp:239-244 | Link: registers the wrapper's own context |
| QuicHandle.BasicQuicHandle.Close | include/boost/msquic/basic_stream_handle.hpp:493-498 | Link: closes an open handle once and forgets it |

## Left out

- StreamSystem.StreamIsAPipe: order is claimed only for runs whose receives fit, because the copy loop does not keep it otherwise; the count of bytes is claimed for all runs, and IntendedStreamIsAPipe claims the order for all runs of the loop that advances.
- ConnectionSystem.ConnectionIsSafe: says nothing of a run beyond a step that overflows the semaphore or breaks the assert at line 211: an overflow leaves the code without defined behaviour, a failed assert ends it (OtherRunsGoWrong shows that no other run is left out).
- ConnectionSystem.StreamsConserved: ends at the same step, for the same reason.
- ConnectionSystem.CompleteDrains: likewise; what it says of connect and shutdown holds in every run (ConnectAndShutdownAreSafe).
- ConnectionSystem.ConnectAndShutdownAreSafe: beyond a step that goes wrong it speaks of a build in which the assert at line 211 is skipped; of a program whose semaphore has overflowed nothing can be claimed.
- Ownership.HandlesConserved: covers runs that are careful as KeptExactlyWhenCareful demands; that the registered context is the owner's is not claimed of a handle that was handed out or released and not registered since, for which it can be false (ReleasedHandleDangles); who closes a handle given up with release is up to the caller.
- SendLength.QueuedLength: takes size_t as 64 bits wide.
- MsQuic, TLS, UDP and timers beyond the event order stated above.
- asio executors and completion tokens: a handler is a step enabled once its channel is sent; the error a channel itself can report is not modelled, nor is the oneshot library.
- Blocks under the mutex that touch nothing another thread reads without it (callback cases, async_receive, async_connect, async_stop) are single steps; weak memory effects are not modelled.
- Moving a wrapper in the middle of an operation, after which the handlers would use the old one.
- What an application thread stuck inside ListenerStop keeps other code from doing; StopWaitsForAccept only says that it is stuck.
- Buffer contents of async_send: only lengths matter to the code.
- set_config, send_resumption_ticket and the failing branch of open, which touch no context.
- The asserts on unsupported events (RESUMED, unknown listener events), cancel and listener restart.
- basic_config_handle.hpp, basic_registration_handle.hpp, msquic_api.hpp, event.hpp and posix_descriptor.hpp: thin wrappers that would add only easy members.
- The rest of sample.c: argument parsing, configuration and printing.
