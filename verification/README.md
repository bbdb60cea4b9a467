# A verified model of shmdata

shmdata shares a stream of frames between one writer process and any number of
reader processes on the same machine.  A frame is copied into a System V shared
segment; two System V semaphores keep the writer out while readers work and
readers out while the writer works; Unix sockets tell readers that a frame is
there and how large it is.  The type of the stream travels as a text,
`name, key=(type)value, ...`.

This project models that library in Dafny 4.11 and proves what its parts promise
each other.  `dafny verify dfyconfig.toml` checks everything.

| files | what they hold |
|---|---|
| `SysVSem` | `semop` as an atomic walk over an array, the locks built on it |
| `FrameProtocol`, `FrameInvariant`, `FrameTheorems`, `FrameCopies`, `FrameLimits`, `CancelLimits` | the whole broadcast as a labelled transition system: any number of writer threads and readers, crashes, resets, cancellations, successive segments; its invariant, the theorems over all runs, and the runs that break a hypothesis |
| `Writer`, `CopyProgram`, `ReaderThread`, `SharedSegment` | the writer, its accesses, the reader and the segment objects as classes, tied to the transition system |
| `StartUp` | a writer starting over any leftovers, with readers being constructed meanwhile |
| `SocketServer`, `UnixSocketServer`, `SocketClient`, `UnixSocketClient`, `SocketShutdown` | the server's bookkeeping, the client's loop, the two ends of one connection and how it ends |
| `TypeText`, `TypeEscape`, `TypeDecode`, `TypeDocument`, `TypeRoundTrip`, `ShmType` | escaping, printing and parsing of types, and the class `Type` |
| `PyDatatype` | the second parser, in the Python wrapper, and when the two agree |
| `HandOff`, `ShmdataSrc` | the zero-copy hand-off of the GStreamer source |
| `SinkAllocator` | the alignment arithmetic of the GStreamer sink |

A blocking `semop` is one attempt that is granted or not; waiting is a state in
which the attempt is not enabled.  The classes model the code step by step and
are proved against functions on values; the transition systems and the lemmas
are about those functions.

## What came out

- The reader increment in `write_start`, whose purpose a comment in the source
  calls unclear (`shmdata/sysv-sem.cpp:140-142`), is what keeps a second writer
  out: `SysVSem.WriterExclusionNeedsReaderIncrement`.
- The timeout reset is safe exactly when no lock is held and every reader that
  owes a token is dead, or when it changes nothing: `FrameTheorems.ResetExact`.
  Fired on a slow live reader it lets the writer in during the callback.
- The server cancels the token of any client of the latest notification whose read
  fails (end of file cancels nothing).  That is right exactly when the client still has a committed token out, or
  was just notified and no second writer thread is around:
  `FrameTheorems.CancelExact`.  For the first cancellation of a client in a run
  without resets that means: exactly when the client left its update unfinished
  (`FrameTheorems.FirstCancelExact`).  A failed read of a client that had finished
  makes the server take a token that is not its own: the writer's, whose release then waits,
  or another reader's, whose callback the writer then enters.  `CancelLimits`
  reaches each of these by a run.
- The destructor of a client joins a loop that ends only when the server sends quit or
  closes the descriptor.  `SocketShutdown.DestroyExact` and `ServerStopExact` say exactly
  when that can still happen.  Two runs in which it cannot, as long as the server's
  process lives: a client whose `start` times out before the connection data is read
  never sends quit (`TimedOutStartHangs`); a client still pending when the server stops
  is sent none, and its descriptor stays open (`StopForgetsPending`).
- A reader sees the current segment exactly when it was attached to it or the
  notified size differs from the last one it saw: `FrameTheorems.CurrencyExact`.
  Replacing a segment by one of the same size goes unnoticed.  In runs of
  `copy_to_shm` a reader sees the current segment as long as no send fails that tells
  it of a growth it needs to know of; sends to others may fail.  After such a loss the
  next notification that reaches it works if and only if its size differs from the
  last one seen (`FrameCopies.LostGrowthExact`, `FrameLimits.LostGrowthIsMissed`).  A
  reader joining late may also be shown an empty frame on a segment that is gone.
- A segment whose identifier is 0 is never removed by its owner (the test is
  `0 < shmid_`), and its replacement then fails: `SharedSegment.ReplaceExact`.
- `clients_notified_` outlives its clients: a client counts as notified without
  having been sent an update exactly when it was accepted on a descriptor still in
  that set (`SocketServer.ToldExact`, `SocketServer.NotifiedOutlivesClient`).
- A string value survives printing and parsing exactly when it has no quote and
  nothing in it reads as a placeholder once encoded; `=COMA,` does not survive.
  An unquoted value that ends in a backslash swallows the separator after it.
  These two are the only ways a type of the documented shape is lost:
  `TypeRoundTrip.RoundTrip`.
- In the GStreamer source all earlier buffers are freed when a frame is given up if
  and only if no wait ends while one of them is in use (`HandOff.SlackAlongExact`);
  freeing in order leaves at most one frame per reading session and flush or stop
  wake-up (`HandOff.OneFrameSlack`).  A frame can even be given up before it is wrapped, if
  and only if a wake-up can come between its posting and its wrapping
  (`HandOff.WrappedLateExact`).  Going to NULL, the join of the reading thread is safe
  if and only if the element had been PAUSED: otherwise a frame that comes after the one
  wake-up may wait for ever (`HandOff.StopExact`).
- A pending client whose read fails leaves its descriptor selected, open and nobody's,
  for ever (`SocketServer.WatchedExact`, `SocketServer.ForgottenForEver`).
- The block the GStreamer sink hands out lies inside the shared segment only if the
  request enlarged by its alignment fits; a segment just resized for it has room for
  the bare bytes at an aligned address and for nothing else (`SinkAllocator.Alloc`).

## Model

| member | source | states |
|---|---|---|
| `SysVSem.OpsMeaning` | shmdata/sysv-sem.cpp:45-51 | when each of the four arrays is granted, walked entry by entry, and the two values it leaves |
| `SysVSem.CommitMeaning` | shmdata/sysv-sem.cpp:159-169 | committing a positive count never waits; a zero count would wait for ever under the lock's own token |
| `SysVSem.WriterExclusionNeedsReaderIncrement` | shmdata/sysv-sem.cpp:134-145 | without the third entry of write_start two locks are granted in a row, with it the second waits |
| `SysVSem.SemaphoreSet.TrySemop` | shmdata/sysv-sem.cpp:143-145 | the loop over the array changes both values as the whole array says, or nothing |
| `SysVSem.SemaphoreSet.ReadLock` | shmdata/sysv-sem.cpp:93-101 | granted exactly while no write lock is held, changing nothing |
| `SysVSem.SemaphoreSet.ReadUnlock` | shmdata/sysv-sem.cpp:103-106 | gives back one token, if there is one |
| `SysVSem.SemaphoreSet.WriteLock` | shmdata/sysv-sem.cpp:134-145 | granted exactly when no token is out; then one lock and one token are |
| `SysVSem.SemaphoreSet.CommitReaders` | shmdata/sysv-sem.cpp:159-169 | adds a token per notified reader at once |
| `SysVSem.SemaphoreSet.WriteUnlock` | shmdata/sysv-sem.cpp:170-173 | takes back the lock and its token |
| `SysVSem.SemaphoreSet.CancelCommitedReader` | shmdata/sysv-sem.cpp:84-89 | takes back one token on behalf of a reader |
| `SysVSem.SemaphoreSet.ResetReaders` | shmdata/sysv-sem.cpp:128-132 | zeroes semaphore 0 and leaves semaphore 1 |
| `FrameInvariant.StepInv` | shmdata/writer.cpp:75-111 | every step of writers, server, readers, crashes, cancellations and resets keeps the invariant of tokens, sessions and readers |
| `FrameInvariant.RunInv` | shmdata/writer.cpp:75-111 | so does every run |
| `FrameTheorems.Exclusion` | shmdata/sysv-sem.cpp:45-51 | over all runs with any number of writers and readers: at most one write lock, and no reader inside its callback while one is held, between notification and commit included |
| `FrameTheorems.StableCallback` | shmdata/reader.cpp:69-74 | the bytes under a running callback do not change |
| `FrameTheorems.TokenConservation` | shmdata/sysv-sem.cpp:84-173 | semaphore 1 is the number of held locks, semaphore 0 that number plus the committed readers that did not decrement, less at most one cancelled ahead of its commit; CancelExact and ResetExact say which cancellations and resets keep it so |
| `FrameTheorems.TokensAreBusyReaders` | shmdata/writer.cpp:103-106 | with no lock held, a live reader owes a token exactly when it has an update to work on, and never two |
| `FrameTheorems.Broadcast` | shmdata/writer.cpp:87-109 | a live reader whose segment was current at every notification has seen exactly the published frames whose send to it succeeded, in order, once, with the bytes at release, but for one it still works on |
| `FrameTheorems.OneCallbackPerFrame` | shmdata/unix-socket-server.cpp:116-135 | without any hypothesis on segments, one callback per frame sent |
| `FrameTheorems.LogsGrow` | shmdata/reader.cpp:69-74 | published and observed logs are only ever extended |
| `FrameTheorems.CurrencyExact` | shmdata/reader.cpp:29-37 | whatever happens in between, the callback caused by a send runs on the current segment if and only if the reader was attached to it at the send or the size differs from the one it last saw |
| `FrameTheorems.CallbackFits` | shmdata/reader.cpp:69-74 | on the current segment a callback's size is within the capacity |
| `FrameTheorems.NeverBlocks` | shmdata/sysv-sem.cpp:103-106 | in runs whose cancellations are right, no read_end and no write_end ever waits, and a thread in a session always has a step |
| `FrameTheorems.WaitingShrinks` | shmdata/sysv-sem.cpp:143-145 | while no lock is held no step adds work to the owing readers, and each step of theirs takes some away |
| `FrameTheorems.WaitIsBounded` | shmdata/sysv-sem.cpp:143-145 | at most five steps per owing reader separate a waiting writer from its lock |
| `FrameTheorems.NoDeadlock` | shmdata/sysv-sem.cpp:114-157 | the lock is granted exactly when nobody owes; every live owing reader can move; when all owing readers are dead the reset can |
| `FrameTheorems.ResetExact` | shmdata/sysv-sem.cpp:128-132 | the reset keeps token conservation if and only if no lock is held and all owing readers are dead, or semaphore 0 is zero already |
| `FrameTheorems.CancelExact` | shmdata/unix-socket-server.cpp:182-188 | in any state the invariant allows, a cancellation keeps token conservation if and only if the client has a committed token out, or was just notified, is not cancelled yet and there is one writer thread |
| `FrameTheorems.CancelUnderLock` | shmdata/sysv-sem.cpp:84-89 | cancelling a client that owes nothing while a lock is held makes the release wait if and only if nobody owes, and then lets every other writer thread in |
| `FrameTheorems.CrashRecovery` | shmdata/sysv-sem.cpp:114-157 | with only dead readers owing the writer waits, and no step but a cancellation or the reset changes who owes; the reset grants the lock, and every run after it keeps the invariant |
| `FrameTheorems.StuckForGood` | shmdata/sysv-sem.cpp:114-126 | over any run without a cancellation or the reset the writer stays stuck |
| `FrameTheorems.OwingHasWork` | shmdata/sysv-sem.cpp:103-106 | over all runs nobody, dead or alive, owes a token for an update it is done with |
| `FrameTheorems.FirstCancelExact` | shmdata/unix-socket-server.cpp:182-188 | the first cancellation of a client, in a run without resets, is right if and only if the client left its update unfinished and, between notification and commit, there is one writer thread |
| `FrameCopies.CopyRunInv` | shmdata/writer.cpp:88-102 | runs of copies (a segment replaced only by a larger one, notified with its size) keep a reader current or sure to re-attach, as long as no send it needs fails; other sends may |
| `FrameCopies.CopyCurrency` | shmdata/writer.cpp:88-102 | then every callback of it with a non-zero size runs on the current segment, within its capacity, late joiners included |
| `FrameCopies.CopyBroadcast` | shmdata/writer.cpp:75-111 | then the broadcast theorem holds for it |
| `FrameCopies.LostSendExact` | shmdata/unix-socket-server.cpp:123-132 | a failed send to a live reader keeps that invariant if and only if the reader is attached to the current segment or has seen no size yet |
| `FrameCopies.LostGrowthExact` | shmdata/reader.cpp:29-37 | after a send lost on a growth, whatever happens, the next notification that reaches the reader is read on the current segment if and only if its size differs from the last one seen |
| `FrameLimits.LateJoinerEmptyFrame` | shmdata/reader.cpp:29-37 | a run of copies that shows a late joiner an empty frame on a segment that is gone |
| `FrameLimits.SameSizeReplacementIsMissed` | shmdata/writer.cpp:139-151 | a run in which a same-size replacement makes a reader see the old bytes |
| `FrameLimits.LostGrowthIsMissed` | shmdata/unix-socket-server.cpp:123-132 | a run of copies in which one failed send makes a live reader see old bytes two frames later |
| `FrameLimits.ResetWhileHeld` | shmdata/sysv-sem.cpp:128-132 | the reset during a held lock lets a second writer in |
| `FrameLimits.ResetWhileReading` | shmdata/sysv-sem.cpp:128-132 | the reset on a slow live reader lets the writer in during its callback |
| `FrameLimits.EarlyCancelWithTwoWriters` | shmdata/unix-socket-server.cpp:182-188 | from any state of the invariant, cancelling between notification and commit lets a second writer thread in beside the holder |
| `FrameLimits.CancelAfterDecrement` | shmdata/unix-socket-server.cpp:182-188 | from any state of the invariant, cancelling another client while only r owes lets the writer in beside the callback of r |
| `CancelLimits.CancelTakesTheLocksToken` | shmdata/unix-socket-server.cpp:182-188 | a run of copies after which the server cancels a dead client of the previous frame and the writer's release waits |
| `CancelLimits.EarlyCancelBreaksExclusion` | shmdata/unix-socket-server.cpp:182-188 | a run with two writer threads after which the cancellation lets both hold the lock |
| `CancelLimits.CancelLetsTheWriterIn` | shmdata/unix-socket-server.cpp:182-188 | a run of copies with two readers after which cancelling one lets the writer in beside the callback of the other |
| `Writers.Writer.constructor` | shmdata/writer.cpp:18-44 | a new writer's three records of the capacity agree on a zeroed segment, with fresh semaphores |
| `Writers.Writer.NewSegment` | shmdata/writer.cpp:94-97 | replacing makes a zeroed segment of the new size and updates both records |
| `Writers.Writer.GrowFor` | shmdata/writer.cpp:88-102 | the segment is replaced exactly when the frame does not fit, and the capacity becomes the larger of the two |
| `Writers.Writer.Notify` | shmdata/writer.cpp:103-106 | the tokens committed are exactly the clients whose send succeeded |
| `Writers.Writer.CopyToShm` | shmdata/writer.cpp:75-111 | capacity becomes the larger of the two sizes, the copy fits, the segment holds the frame, one token per notified client remains and the lock is released; a refused lock changes nothing |
| `Writers.Writer.GetOneWriteAccess` | shmdata/writer.cpp:113-120 | the access holds the lock on the segment as it is |
| `Writers.Writer.GetOneWriteAccessResize` | shmdata/writer.cpp:122-137 | the segment is replaced exactly when the sizes differ, and the records agree afterwards |
| `Writers.Writer.GetOneWriteAccessPtrResize` | shmdata/writer.cpp:139-152 | the segment is always replaced |
| `Writers.OneWriteAccess.ShmResize` | shmdata/writer.cpp:159-168 | the access and the writer move to a new segment of the size asked for |
| `Writers.OneWriteAccess.NotifyClients` | shmdata/writer.cpp:170-182 | the first call notifies and commits, later ones do nothing |
| `Writers.OneWriteAccess.Release` | shmdata/sysv-sem.cpp:170-173 | releasing never waits |
| `Writers.CopiesRunningMax` | shmdata/writer.cpp:88-97 | over copies alone the capacity is the running maximum of the first size and all frame sizes |
| `Writers.ResizeRestartsMax` | shmdata/writer.cpp:122-168 | any other replacement restarts that maximum at its own size |
| `CopyProgram.CopyPublishes` | shmdata/writer.cpp:75-111 | from any reachable state in which the lock is granted, the trace recorded by CopyToShm is a run of copies of the transition system, whichever sends fail, that publishes exactly the frame's bytes to the clients whose send succeeded |
| `ReaderThread.ReaderObject.constructor` | shmdata/reader.cpp:38-48 | a new reader is attached to what the key names, if it names anything, with a last size of 0 |
| `ReaderThread.ReaderObject.SizeReceived` | shmdata/reader.cpp:29-36 | a changed size re-attaches to what the key names, an unchanged one leaves the segment; the named segment keeps its bytes |
| `ReaderThread.ReaderObject.OnBuffer` | shmdata/reader.cpp:69-74 | one callback under the read lock, one token given back |
| `ReaderThread.ReaderObject.OnUpdate` | shmdata/reader.cpp:29-37 | the callback sees the bytes the key names if the reader was attached to them or the size changed, and does not if neither |
| `ReaderThread.UpdateAsRun` | shmdata/reader.cpp:29-37 | the same update is a run of the transition system with the same choice of segment, the same bytes and the same token |
| `SharedSegment.SysVShm.constructor` | shmdata/sysv-shm.cpp:47-69 | an owner gets a zeroed new segment exactly under a free key, anybody else attaches to the one named, whose bytes stay when the size given is 0 |
| `SharedSegment.SysVShm.Destroy` | shmdata/sysv-shm.cpp:71-84 | everybody detaches, only an owner removes, and only an identifier above 0 |
| `SharedSegment.ReplaceExact` | shmdata/writer.cpp:94-95 | destroying and creating under the same key works if and only if the old identifier is not 0; the new segment differs and is zeroed, the old bytes live on while somebody is attached |
| `StartUp.ValidReadersHoldTheWriters` | shmdata/writer.cpp:25-73 | over any leftovers and any interleaving, a Reader that becomes valid holds the started writer's own objects |
| `StartUp.DeadStartProgress` | shmdata/writer.cpp:46-66 | a start on leftovers ends serving after a bounded number of its statements and never reports another writer |
| `StartUp.LiveWriterUntouched` | shmdata/writer.cpp:51-70 | a start that finds a live writer fails and removes nothing of it |
| `SocketServer.StepKeeps` | shmdata/unix-socket-server.cpp:139-245 | one pass keeps established and pending clients duplicate-free and disjoint, inside the select set and below maxfd, and every talk well-formed |
| `SocketServer.HistoryKeeps` | shmdata/unix-socket-server.cpp:139-245 | so does any history of passes and notifications |
| `SocketServer.HistoryFromStart` | shmdata/unix-socket-server.cpp:139-147 | in particular any history from the server's start |
| `SocketServer.NotifiedFits` | shmdata/unix-socket-server.cpp:116-135 | the count returned is that of the clients notified, and fits a short while descriptors fit an fd_set |
| `SocketServer.ToldExact` | shmdata/unix-socket-server.cpp:116-177 | a step lets a connected client count as notified without an update in its log if and only if it accepts a connection on a descriptor in clients_notified_ |
| `SocketServer.AlwaysToldExact` | shmdata/unix-socket-server.cpp:116-245 | over any history, such a client exists at some point if and only if such a descriptor is accepted at some point |
| `SocketServer.WatchedExact` | shmdata/unix-socket-server.cpp:218-242 | a step keeps the selected descriptors those of the listening socket and the clients if and only if no read of a pending client fails |
| `SocketServer.ForgottenForEver` | shmdata/unix-socket-server.cpp:222-225 | a descriptor forgotten so stays selected and open, and is never used again |
| `SocketServer.NotifiedOutlivesClient` | shmdata/unix-socket-server.cpp:119-130 | a reachable history after which an established client that was never notified counts as notified |
| `UnixSocketServer.Server.SendUpdates` | shmdata/unix-socket-server.cpp:123-132 | the loop sends one update per client and records exactly the successful sends |
| `UnixSocketServer.Server.NotifyUpdate` | shmdata/unix-socket-server.cpp:116-135 | the number returned is that of the successful sends |
| `UnixSocketServer.Server.AcceptClient` | shmdata/unix-socket-server.cpp:160-177 | a client that got the connection data becomes pending and selected |
| `UnixSocketServer.Server.EraseClient` | shmdata/unix-socket-server.cpp:213-214 | the find always succeeds and exactly that client goes |
| `UnixSocketServer.Server.HandleReady` | shmdata/unix-socket-server.cpp:180-209 | error, end of file and data are treated as the three branches say |
| `UnixSocketServer.Server.WalkClients` | shmdata/unix-socket-server.cpp:179-210 | the walk collects exactly the clients that had something to read |
| `UnixSocketServer.Server.CheckDisconnections` | shmdata/unix-socket-server.cpp:178-217 | walk and removal together are one step of the bookkeeping, with exactly its callbacks |
| `UnixSocketServer.Server.WalkPending` | shmdata/unix-socket-server.cpp:218-237 | pending clients that acknowledged are established in ascending order |
| `UnixSocketServer.Server.CheckAcks` | shmdata/unix-socket-server.cpp:218-242 | walk and removal of pending clients are one step of the bookkeeping |
| `UnixSocketServer.Server.ClientInteraction` | shmdata/unix-socket-server.cpp:148-244 | one pass of the loop is one step of the bookkeeping |
| `UnixSocketServer.Server.SendQuit` | shmdata/unix-socket-server.cpp:90-103 | every established client is sent one quit at destruction |
| `UnixSocketServer.ErrorCallsExact` | shmdata/unix-socket-server.cpp:185-188 | the error callback is made once for each client whose read failed and that counts as notified, and for no other |
| `SocketClient.LoopKeeps` | shmdata/unix-socket-client.cpp:96-177 | over any passes the callbacks are nothing, or connect, then updates, then at most one disconnect last |
| `SocketClient.HandshakeTyping` | shmdata/unix-socket-client.cpp:109-147 | the first message is the connection data, later ones updates or one final quit, and no update is sent before the server heard from the client |
| `SocketClient.CallbacksAreMessages` | shmdata/unix-socket-client.cpp:96-177 | the callbacks are the messages read, one for one and in order |
| `SocketClient.EstablishedEnds` | shmdata/unix-socket-server.cpp:90-103 | over all runs an established connection ends with a quit said, the first and only one, if and only if the server answers a message or stops and the send succeeds; it ends open and silent if and only if the server stops and the send fails |
| `SocketClient.QuitIsAnswered` | shmdata/unix-socket-server.cpp:197-208 | once the acknowledgement and quit have reached the server, it has the message to read that makes it answer, or close if the send fails |
| `SocketClient.QuitEndsLoop` | shmdata/unix-socket-client.cpp:156-172 | once the server has sent quit, reading the channel ends the loop with every callback made, disconnect last |
| `SocketShutdown.ShutdownExact` | shmdata/unix-socket-client.cpp:96-177 | over all runs: once the destructor has raised its flag, the loop can end without further failures if and only if it has hung up, or the server has sent quit or closed the descriptor, or serves the connection and was sent both acknowledgement and quit |
| `SocketShutdown.DestroyExact` | shmdata/unix-socket-client.cpp:48-65 | the same before the destructor runs: the server is done, or serves the connection, the acknowledgement reached it, start saw the connection and the send of quit succeeds |
| `SocketShutdown.ServerStopExact` | shmdata/unix-socket-server.cpp:90-103 | when the server stops, the loop of a live client can end if and only if it has hung up, or is established and the send of quit succeeds |
| `SocketShutdown.ServerReadFailsExact` | shmdata/unix-socket-server.cpp:182-225 | when a read of the server fails, it can end if and only if it has hung up or is established |
| `SocketShutdown.ServerExitEndsLoop` | shmdata/unix-socket-client.cpp:117-133 | when the server's process ends, every live client's loop can end |
| `SocketShutdown.TimedOutStartHangs` | shmdata/unix-socket-client.cpp:82-84 | a run in which start times out, the client is destroyed, the connection is established after that, and the loop can never end |
| `SocketShutdown.StopForgetsPending` | shmdata/unix-socket-server.cpp:90-103 | a run in which the server stops with the client's answer unread, the client is destroyed in good order, and the loop can never end |
| `UnixSocketClient.SocketThread.ServerGone` | shmdata/unix-socket-client.cpp:117-133 | a lost server disables the socket and ends the loop, with a disconnect only if it was connected |
| `UnixSocketClient.SocketThread.ProcessMessage` | shmdata/unix-socket-client.cpp:134-174 | acknowledge first, then update or quit |
| `UnixSocketClient.SocketThread.OnePass` | shmdata/unix-socket-client.cpp:96-177 | one pass of the loop on any input |
| `UnixSocketClient.SocketThread.ServerInteraction` | shmdata/unix-socket-client.cpp:87-178 | the loop consumes passes exactly until both flags are up |
| `UnixSocketClient.SocketThread.Destruct` | shmdata/unix-socket-client.cpp:48-65 | quit is sent while the socket is up, and the loop is told; whether the join after it returns is DestroyExact |
| `TypeDecode.DecodedIff` | shmdata/type.cpp:111-127 | decoding an encoded value gives it back if and only if no letters in it are completed to a placeholder by their neighbours |
| `TypeDecode.EscapingUndone` | shmdata/type.cpp:105-152 | unescaping the escaped serialised value gives it back if and only if it is clean; no comma and no equals sign of it is left for the splitter |
| `TypeDecode.PlainIsClean` | shmdata/type.cpp:105-127 | values without a quote and without the words COMA and EQUAL are clean |
| `TypeDecode.OverlapLost` | shmdata/type.cpp:105-127 | the value =COMA, does not come back |
| `TypeEscape.SerializeIsSer` | shmdata/type.cpp:133-146 | the four replacements act on each character alone |
| `TypeEscape.EscapeComas` | shmdata/type.cpp:105-109 | escaping turns each serialised comma into its placeholder and touches nothing else |
| `TypeEscape.EscapeEquals` | shmdata/type.cpp:105-109 | likewise for equals signs |
| `TypeDocument.ReadIntBack` | shmdata/type.cpp:66-70 | every int in range is read back from its printed form |
| `TypeDocument.SplitCount` | shmdata/type.cpp:22-24 | the splitter yields one piece more than there are commas, but for a text that ends in a comma |
| `TypeDocument.PieceRead` | shmdata/type.cpp:30-73 | a printed property is understood as its key, its type word and its body |
| `TypeRoundTrip.PrintsDoc` | shmdata/type.cpp:154-190 | the loop of str writes all properties in key order |
| `TypeRoundTrip.ParsePrint` | shmdata/type.cpp:20-80 | what parsing makes of any printed type whose separators are seen |
| `TypeRoundTrip.SeparatorLost` | shmdata/type.cpp:105-109 | an unquoted value ending in a backslash before another property always loses properties |
| `TypeRoundTrip.RoundTrip` | shmdata/type.cpp:20-80 | parsing str() gives back name and properties if and only if all string values are clean and none dangles before another property; then there are no parsing errors and printing again gives the same text |
| `TypeRoundTrip.PrintThrows` | shmdata/type.cpp:154-160 | printing throws exactly when a custom type is attached to a property that holds no string |
| `TypeRoundTrip.DanglingLost` | shmdata/type.cpp:105-109 | a clean value that loses its neighbour |
| `ShmType.ShmType.Read` | shmdata/type.cpp:20-80 | the constructor's loops compute Parse, and keep the map in key order |
| `ShmType.ShmType.ReadValue` | shmdata/type.cpp:47-76 | the value of one key=value, with the integer test, the literal type and the range error |
| `ShmType.ShmType.Get` | shmdata/type.cpp:88-92 | the value under the key, or nothing when no property has it |
| `ShmType.ShmType.Set` | shmdata/type.hpp:36-39 | emplaces a property |
| `ShmType.ShmType.SetTyped` | shmdata/type.cpp:98-103 | emplaces a property and its custom type |
| `ShmType.ShmType.Str` | shmdata/type.cpp:154-190 | the loop computes Print, and throws exactly when it does |
| `ShmType.EmplaceLookup` | shmdata/type.cpp:94-103 | setting a property keeps the value a key has, and all other keys |
| `ShmType.SetPropLegal` | shmdata/type.cpp:94-96 | types built by setting plain properties stay within the round-trip theorem |
| `ShmType.SetCustomLegal` | shmdata/type.cpp:98-103 | setting a custom type stays within it exactly when the key holds no int |
| `PyDatatype.ReaderParseDatatype` | wrappers/python/pyshmdata.cpp:474-536 | the loops terminate and compute PyParse |
| `PyDatatype.ReadValue` | wrappers/python/pyshmdata.cpp:508-526 | the value of one piece, parentheses and the unsigned reading of ints included |
| `PyDatatype.PyParsePrint` | wrappers/python/pyshmdata.cpp:474-536 | what the Python parser makes of any printed type with plain values |
| `PyDatatype.Agreement` | wrappers/python/pyshmdata.cpp:474-536 | on printed types with plain values, no key type and no fraction, the two parsers agree if and only if the library reads the type back and no int is negative |
| `HandOff.WaitsAreBounded` | gst/gstshmdatasrc.c:376-479 | over all interleavings, completed waits are at most the buffers freed, plus one per reading session, plus flush and stop wake-ups |
| `HandOff.AllButOneFreed` | gst/gstshmdatasrc.c:376-479 | without wake-ups all given-up frames but one correspond to freed buffers, whatever the order of freeing |
| `HandOff.OneFrameSlack` | gst/gstshmdatasrc.c:376-479 | with buffers freed in order, giving up a frame means all earlier wrapped buffers are freed but for one per reading session and flush or stop wake-up |
| `HandOff.SlackExact` | gst/gstshmdatasrc.c:376-479 | a step keeps the slack if and only if it is not a wait ending while an earlier buffer is in use |
| `HandOff.SlackAlongExact` | gst/gstshmdatasrc.c:376-479 | over any run the slack holds throughout if and only if no wait ends so |
| `HandOff.FreeThenFinishExact` | gst/gstshmdatasrc.c:389-402 | a wait ended by freeing buffer k keeps the slack if and only if all other earlier buffers are freed |
| `HandOff.OutOfOrderFree` | gst/gstshmdatasrc.c:389-402 | freed out of order, a frame is given up while an earlier buffer is in use |
| `HandOff.WrappedAfterGivenUp` | gst/gstshmdatasrc.c:389-456 | a frame can be given up before it is wrapped |
| `HandOff.WrappedLateExact` | gst/gstshmdatasrc.c:389-475 | a posted frame can be given up before it is wrapped if and only if the flag is up already, a flush is leaving create, an earlier buffer is in use, or a stop may come |
| `HandOff.StopExact` | gst/gstshmdatasrc.c:498-505 | after the wake-up on the way to NULL the join can return from wherever the reading thread gets to, if and only if stop_read was set |
| `HandOff.StaleNeedsWake` | gst/gstshmdatasrc.c:389-475 | along a given run up to the wrapping, the frame wrapped was given up if and only if the wait ended in between, which takes the flag or a wake-up |
| `ShmdataSrc.Element.OnData` | gst/gstshmdatasrc.c:376-388 | the posting half of on_data is one step of the hand-off |
| `ShmdataSrc.Element.AwaitRendered` | gst/gstshmdatasrc.c:389-393 | the wait returns exactly on the flag, and clears it |
| `ShmdataSrc.Element.CreateLocked` | gst/gstshmdatasrc.c:420-470 | create wraps the posted frame, or drops it on a flush |
| `ShmdataSrc.Element.CreateEnd` | gst/gstshmdatasrc.c:472-475 | the first read of a session is let go at once |
| `ShmdataSrc.Element.OnDataRendered` | gst/gstshmdatasrc.c:396-402 | freeing a buffer raises the flag |
| `SinkAllocator.OrOfMasks` | gst/gstshmdatasink.c:247-248 | the union of two alignment masks is the larger mask |
| `SinkAllocator.AndWithMask` | gst/gstshmdatasink.c:275 | masking an address takes it modulo the alignment |
| `SinkAllocator.NextMultiple` | gst/gstshmdatasink.c:276-277 | the adjusted address is the next aligned one |
| `SinkAllocator.Alloc` | gst/gstshmdatasink.c:244-290 | the start is aligned and the recorded size still covers prefix, size and padding, so the subtraction never goes below zero; the block stays inside the segment exactly when the enlarged request fits, after a resize only without prefix, padding and alignment |

## Hypotheses

The transition system of the frame protocol carries these as guards of its steps:
a segment is replaced before the clients are notified within the same lock, and a
notified size fits it; the timeout reset fires while no lock is held and every
reader still owing is dead; a reader is cancelled at most once, after it died, before
it decremented and before its token was reset, and ahead of its commit only with a
single writer thread; descriptors returned by `accept` are not in use, and stay below
`FD_SETSIZE`, which the server never tests.
`FrameTheorems.ResetExact` and `CancelExact` give the exact conditions of the second
and third; `FrameLimits` and `CancelLimits` show what happens beyond them.  The
theorems about `copy_to_shm` in `FrameCopies` follow one reader and ask that no send
to it fails while it needs to hear of a larger segment (`FrameCopies.KeepsUp`).

A "legal" type (`TypeRoundTrip.Legal`) has a non-empty name without commas,
backslashes or a space at its end, keys of letters, digits, underscores and
hyphens, ints in the range of a 32-bit int, and custom types of one word other
than `int` attached to strings only.

## Left out

- Real system calls, errno texts, permissions, select timing, partial reads of a
  socket: messages are whole and channels are queues; every send and every read may fail.
- Creation of a segment or a semaphore set that fails for lack of resources, and
  semaphore values above their system limit; a lock whose `semop` fails outright
  is treated as one that has to wait (`copy_to_shm` does not test it).
- A semaphore set whose identifier is 0, which `0 < semid_` takes for invalid.
- `FrameProtocol`: an access that notifies and then resizes or notifies a size
  above the capacity; `get_one_write_access` reads the segment before it has the
  lock, which only matters with several writer threads.
- `ftok`: a function of the path here; it depends on the inode of the file.
- The destructor of a Writer and the life of a server after it.
- `HandOff`: a `create` that fails on caps, and the reading thread's own shutdown.
- Values other than ints and strings: `long`, `unsigned`, `float`, `double` print
  and come back as strings with a custom type; types printed with a space in their
  name (`long long`, `unsigned long`) cannot be read back.
- Characters above ASCII, and locales other than the default one, in the regular
  expressions.
- PyDatatype.ReaderParseDatatype: does not divide fractions; the two numbers stay a
  text, because rounding is not the point.
- PyDatatype.ReadValue: likewise.
- ShmType.ShmType.Set: ints and strings only, see the value types above.
- ShmType.ShmType.Str: ints and strings only.
- TypeRoundTrip.PrintsDoc: ints and strings only.
- Writers.Writer.constructor: creating the server, the segment and the semaphores
  succeeds; `StartUp` has the failures.
- SysVSem.SemaphoreSet.WriteLock: one attempt at the array; the thread that resets
  after a second is ResetReaders and the reset step of the frame protocol.
- SinkAllocator.Alloc: does not model 64-bit wrap-around of the sizes, because a
  request near 2^64 bytes cannot be served.
- `Follower` and its monitor thread, loggers, the C wrappers, reference counts of
  GObject and Python, caps negotiation, command-line tools.
