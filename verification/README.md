# Vortex: a verified model of its protocols and kernels

Vortex lets a browser drive a user's own devices. Each device keeps one WebSocket to a hub
(or, on a phone, to another device); many requests, uploads and downloads share that socket.
Several hub nodes share one database, which carries leases, pairing codes, device presence,
captured media and a command queue. This project models the parts where an interleaving, an
off-by-one or a rounding would matter, and proves what the code promises about them. To verify
it: `dafny verify dfyconfig.toml`.

Code that updates state in the original is a class or a method with loops here, proved against
specification functions on values; the promises are lemmas about all runs of those functions.

| file | models |
|---|---|
| `StreamRouting`, `StreamMux`, `StreamRefinement` | sender tasks, send-lock, wire and demultiplexer as a step system that refines independent FIFO channels |
| `AgentConnection`, `CallLifecycle`, `CallResults` | the hub's tables of calls in flight, from start to settlement, timeout or close, and what their callers get |
| `Registry`, `AgentSession`, `PeerClient` | supersession of connections; the two other receivers of the same framing |
| `FileTransfer`, `TransferIdentity` | reading and writing a file over the shared socket |
| `RateLimiter`, `RateLimiterRuns`, `RateLimiterBound`, `RateLimiterLaws`, `RateLimiterTight`, `RateLimiterOverlap` | the login rate limiter, a reference limiter that forgets nothing, the numeric bound and its exactness, who is refused and when, and overlapping requests |
| `DeviceLocks`, `PairingCodes`, `Presence` | leases, single-use codes and device presence, SQL statement by SQL statement |
| `Retention`, `CaptureStore`, `CaptureRetention` | which captures are kept, also when captures overlap, and the files behind their rows |
| `CommandQueue`, `QueueSchedule` | the queued-command table, its poller, and whole schedules |
| `Nv21`, `AnnexB`, `Framing`, `PasswordFormat`, `Hex` | byte-level kernels |
| `NodeFailover` | the agent's node list, rounds and backoff |
| `Prelude`, `Text` | options, bytes, concatenation; stripping of strings |

## What turned out false

Some properties one would expect do not hold of the code. Each has a lemma with a failing input or
run, and one saying exactly when the property holds.

- The failure bound, the length of a block and the invisibility of pruning hold if and only if at
  most one request of an address is in flight (`RateLimiterOverlap.BoundHoldsIff`, `BlocksLastIff`,
  `PruningUnseenIff`; each contains its failing run for two).
- Leases are exclusive under `force`, or with SELECT and write apart, if and only if each forced
  acquisition and late write respects a guard it could check (`DeviceLocks.LeaseSafety`,
  `ForceIsSafeIff`, `LateWriteIsSafeIff`; `TwoReadersBothWin` is a failing run).
- Each pairing row is marked by one caller only, but a caller can be told about one row and mark
  another when the same digits are minted again between its statements
  (`PairingCodes.OneRowToldTwice`; `PairingCodes.RedeemsWhatItSaw` is the exact condition).
- A live socket can be without a presence row until the next heartbeat
  (`Presence.SupersededTeardownClearsRow`; `Presence.LiveSocketHasRowIff` is the exact condition).
- A call made after a connection was closed is not failed by that close
  (`CallLifecycle.RequestAfterShutdownWaits` says exactly what ends it).
- The driver and the hub accept the same password records only for 32-byte digests, plain counts,
  ASCII hex without white space and a non-empty salt (`PasswordFormat.DriverThenHub`,
  `HubThenDriver`; `SidesPart` has the failing records), which is what both of them write.
- The hub an agent was first given is forgotten when another node is reached and nobody names it
  (`NodeFailover.FirstAddressIsKeptIff`; `FirstAddressForgotten` is a failing run).
- An NV21 buffer for an odd width or height keeps unwritten bytes at its end, except for a single
  pixel (`Nv21.NoPaddingIff`; `OddFrameHasPadding` is a failing size).

## Model

| member | source | states |
|---|---|---|
| `StreamRouting.RouteAdds` | hub/ws_router.py:171-199 | a frame adds to an open queue exactly the item it completes for that stream: a text frame its own item, a binary frame a chunk for the stream the last header named, any other frame nothing |
| `StreamRouting.NextFrameAdds` | hub/ws_router.py:171-199 | what the first n+1 frames of a socket deliver to one stream is what the first n deliver, followed by the item frame n completes for it |
| `StreamRouting.ItemsOfPrefix` | hub/ws_router.py:171-199 | what a prefix of the frames delivers is a prefix of what all of them deliver |
| `StreamRouting.PayloadOfChunks` | hub/ws_router.py:99-105 | the bytes carried by a list of chunk frames are the concatenation of the chunks |
| `StreamMux.StepKeepsWire` | agent/agent.py:764-774 | under the send-lock, whatever task runs next or is cancelled inside it, the frames on the wire decode to exactly the items recorded as sent, and a header waiting for its binary is the lock holder's |
| `StreamMux.CutKeepsPlan` | agent/agent.py:764-774 | cancelling a task at any point, also between header and binary, leaves what it has sent and will still send a front of its program followed by a chunk-free tail |
| `StreamMux.RunKeepsInv` | hub/ws_router.py:82-112 | every run of any number of sender tasks, deliveries, openings, closings and cancellations keeps the lock, the wire, the queues and every task's plan consistent |
| `StreamRefinement.StepRefinesFifo` | hub/ws_router.py:102-106 | refinement: every step of the shared socket is, for each stream, one push, one pop or no move of an independent FIFO channel, and it is a move of at most one channel |
| `StreamRefinement.PoppedItemIsQueued` | hub/ws_router.py:186-199 | whenever an item leaves a channel, the stream's open queue gets exactly that item; on every other step the queue stays as it is |
| `StreamRefinement.QueueHoldsWhatWasSent` | hub/ws_router.py:171-199 | in every reachable state an open queue holds exactly the items sent for its stream, in send order, from its opening up to what has been delivered, with no chunk after an end marker |
| `StreamRefinement.SentEndsLast` | agent/agent.py:1012-1034 | whatever is interleaved or cancelled, no chunk of a stream is sent after its end marker |
| `StreamRefinement.FinishedTaskSentProgram` | agent/agent.py:1012-1034 | a task that ran to its end uncancelled has sent its whole program on its stream, nothing more and nothing of another stream |
| `StreamRefinement.SentBytesAreAPrefix` | agent/agent.py:764-774 | the bytes of any task, cancelled or not, that reached the wire are a prefix of the bytes it set out to send |
| `StreamRefinement.DanglingHeaderIsHarmless` | agent/agent.py:768-774 | a header whose task was cancelled before its binary never gets a later binary: each later binary follows a header of its own, which is what the slot then names |
| `AgentConnection.AgentConnection.HandleIncoming` | hub/ws_router.py:144-184 | a text message settles the waiting future of its rid, arms the slot, or goes to the queue of its rid; a response without a waiting future goes to the queue; everything else is untouched |
| `AgentConnection.AgentConnection.HandleIncomingBinary` | hub/ws_router.py:186-199 | a binary frame empties the slot and, if the slot named an open stream, is put in that stream's queue |
| `AgentConnection.AgentConnection.FailPending` | hub/ws_router.py:201-208 | the two loops fail every future still waiting, leave settled ones alone, and end every queue with one stop |
| `CallLifecycle.StepKeepsInv` | hub/ws_router.py:64-208 | starting, routing, timing out, resuming, ending and closing each keep the tables, histories and consumers of all calls consistent |
| `CallLifecycle.TablesHoldCallsInFlight` | hub/ws_router.py:70-76 | at every moment of every run the unary table holds exactly the rids of requests in flight and the stream table exactly those of open streams |
| `CallLifecycle.FutureSettlesOnce` | hub/ws_router.py:157-160 | once settled, a future keeps its result for the rest of every run |
| `CallLifecycle.ShutdownSettlesEveryCall` | hub/ws_router.py:201-208 | a close fails every waiting call in flight, changes no settled one, and puts one stop behind everything routed to each open stream |
| `CallLifecycle.WaitsIff` | hub/ws_router.py:70-76 | over every continuation of any reachable state, a request still waits if and only if it waited and none of its answer, its timeout, its end and a close has happened |
| `CallLifecycle.RequestAfterShutdownWaits` | hub/ws_router.py:201-208 | a request made on a closed connection is accepted, and in every continuation waits exactly until its answer, its timeout, its end or a further close: the close before it never ends it |
| `CallLifecycle.ConsumerSeesItsStream` | hub/ws_router.py:127-140 | what stream() has yielded is a prefix of the frames routed to it up to its end, and all of them once it is over |
| `CallLifecycle.CloseEndsEveryStream` | hub/ws_router.py:127-142 | whatever happens after a close, a consumer gets only frames routed before it, gets all of them if it drains, and can always resume until stream() has returned |
| `CallLifecycle.HubRoutesFrames` | hub/ws_router.py:144-199 | the hub's two handlers are the routing that the stream refinement is about, on the open streams and the slot, whatever futures are around |
| `CallLifecycle.QueueGainsItsItems` | hub/ws_router.py:167-199 | one frame from the socket appends to an open queue exactly the items it completes for that stream |
| `CallResults.ResolvedByItsAnswer` | hub/ws_router.py:64-76 | over every run, a request that is resolved is resolved with the first response bearing its rid since the request was made, unchanged |
| `CallResults.AnswerIsKept` | hub/ws_router.py:155-160 | from any reachable state in which a request waits, its response leaves exactly that response, in every continuation until the request ends |
| `CallResults.YieldsWhatWasRouted` | hub/ws_router.py:127-140 | over every run, what stream() has yielded is message by message what was routed to it; as many as were taken, but for a last one that was the stop of a close or an error response; and none is taken behind a stop, an error response or a stream_end |
| `CallResults.ResumeTakesNext` | hub/ws_router.py:127-142 | a consumer can go on exactly while an entry is left or its stream has ended; it then takes the next one, or returns |
| `CallResults.YieldedBytesAreRouted` | hub/ws_router.py:127-140 | over every run, the bytes of what was yielded are the payload of the entries taken, in order and whole |
| `CallResults.Pump` | hub/app.py:1167-1182 | a download passes on exactly the bytes of the chunks before the first stream_end |
| `CallResults.KeepsLatestDirectInfo` | hub/ws_router.py:148-154 | over every run the connection keeps the last direct_info it was sent |
| `Registry.Registry.Register` | hub/ws_router.py:222-231 | registering replaces the device's connection and fails all pending calls of the one replaced; re-registering the current one fails nothing |
| `Registry.Registry.Unregister` | hub/ws_router.py:233-238 | unregistering removes the device only if this connection is current, and always fails this connection's pending calls |
| `Registry.Registry.Get` | hub/ws_router.py:240-241 | finds the current connection of the device, if there is one |
| `Registry.MapsToLatest` | hub/ws_router.py:222-238 | after any sequence of calls a device maps to its most recently registered connection, and is absent exactly when that one has unregistered since |
| `Registry.LateUnregisterIsHarmless` | hub/ws_router.py:233-237 | the unregister of a connection that is not current leaves the whole map unchanged |
| `Registry.LeaversAreFailed` | hub/ws_router.py:226-238 | every connection ever registered is still current or has had its pending calls failed |
| `AgentSession.Session.OpenRecv` | agent/agent.py:776-780 | opening gives the rid an empty queue and touches nothing else |
| `AgentSession.Session.CloseRecv` | agent/agent.py:782-783 | closing removes the rid's queue only |
| `AgentSession.Session.RouteTextFrame` | agent/agent.py:785-796 | the agent routes text frames as the shared routing does, and reports a frame as handled exactly when it is a header or ends an open stream |
| `AgentSession.Session.RouteBinaryFrame` | agent/agent.py:798-809 | the agent routes binary frames as the shared routing does, and reports one as handled exactly when the slot named an open stream |
| `PeerClient.PeerClient.RouteText` | driver/app/src/main/java/com/vortex/driver/PeerClient.kt:231-251 | the phone's receiver routes as the shared routing does, except that an end marker also drops its handler; a response completes the pending call of its id once |
| `PeerClient.PeerClient.RouteBinary` | driver/app/src/main/java/com/vortex/driver/PeerClient.kt:253-258 | binary frames are routed as the shared routing does, to the handler the last header named |
| `PeerClient.PeerClient.OnConnectionLost` | driver/app/src/main/java/com/vortex/driver/PeerClient.kt:169-178 | losing the connection completes every pending call and ends every handler exactly once, and forgets both |
| `FileTransfer.ReadInChunks` | agent/agent.py:1012-1034 | the read loop ends and sends a start marker, the file in non-empty chunks of at most 262,144 bytes that together are the file, and one end marker |
| `FileTransfer.SendUpload` | hub/ws_router.py:99-106 | the hub sends exactly the chunks of the upload that are not empty, in order, losing no byte, and then one end marker |
| `FileTransfer.WriteFile` | agent/agent.py:812-860 | for any queue contents the outcome is that of the write's single steps: up to an end marker the target becomes exactly the chunks' bytes, the count is their length and the warning appears exactly on a size mismatch; otherwise the target is untouched, and only a cancelled task leaves its part file |
| `FileTransfer.UndisturbedOutcome` | agent/agent.py:833-850 | the single steps of an undisturbed write, from any point of it, lead to exactly one of these outcomes |
| `FileTransfer.TargetIsOldOrWhole` | agent/agent.py:834-850 | at every statement of a write, with others changing other files, the target holds its old content, or after the end marker all bytes taken, which is what written counts |
| `TransferIdentity.QueueFollowsPlan` | agent/agent.py:768-809 | a queue opened before its stream's first frame holds, at every moment, a front of what its sender set out to send and then its chunk-free tail |
| `TransferIdentity.DownloadIdentity` | agent/agent.py:1012-1034 | for every interleaving with other streams: the bytes arrived for a read_file are always a prefix of the file, and are the whole file when an end marker arrives |
| `TransferIdentity.UploadIdentity` | agent/agent.py:812-860 | for every interleaving: at every statement of the write the target holds its old content or the whole upload, and then written is the upload's length |
| `TransferIdentity.FinishedQueueIsProgram` | agent/agent.py:798-809 | once a sender has run to its end and everything sent is delivered, a queue open from the start holds exactly what it set out to send |
| `TransferIdentity.UploadCommits` | hub/ws_router.py:99-106 | a finished, uncancelled upload is written: the write over its queue commits, and the path holds the concatenation of the browser's chunks, which is what the count says |
| `TransferIdentity.DownloadArrives` | agent/agent.py:1012-1034 | a finished read_file has delivered exactly a start marker, its chunks and an end marker, in order, and their bytes are the file |
| `RateLimiter.Limiter.RateCheck` | hub/auth.py:36-48 | answers the seconds a block still has, else 0; an expired block is dropped together with the address's log |
| `RateLimiter.Limiter.RateRecordFail` | hub/auth.py:51-72 | sweeps all addresses when too many are tracked, prunes and extends this address's log, and on the fifth recent failure blocks it and empties the log |
| `RateLimiter.Limiter.RateClear` | hub/auth.py:75-79 | forgets the address's failures and block and no other address |
| `RateLimiter.Limiter.PopOld` | hub/auth.py:67-68 | the popleft loop removes exactly the leading entries older than the cutoff |
| `RateLimiterRuns.PruneInvisible` | hub/auth.py:59-60 | pruning at one cutoff never changes what counts at any later cutoff |
| `RateLimiterRuns.SweepKeepsAgreement` | hub/auth.py:55-64 | the garbage collection of all addresses keeps every address in agreement with its full history |
| `RateLimiterRuns.StepAgrees` | hub/app.py:429-445 | each check, failure or success keeps every address in agreement with a limiter that forgets nothing, and its answer is that limiter's |
| `RateLimiterRuns.PruningIsInvisible` | hub/auth.py:36-72 | over every run of login requests, those of one address one after the other and any addresses interleaved, the pruning limiter gives the answers of one that keeps the whole history; stored logs stay sorted and shorter than 5 |
| `RateLimiterBound.PacedSpan` | hub/auth.py:36-72 | any 4q+2 failures let through take at least q windows |
| `RateLimiterBound.FailureBound` | hub/auth.py:22-72 | over any stretch of span seconds without a successful login, requests of one address one after the other and addresses interleaved at will, at most 4*floor(span/60.0)+5 attempts of an address are let through and fail |
| `RateLimiterBound.BlockLastsExactly` | hub/auth.py:36-48 | once a failure triggers a block, every check of the address is refused with the time left until exactly 300 s have passed, and is admitted from then on, whatever other addresses do |
| `RateLimiterBound.BlockHolds` | hub/auth.py:36-48 | during a block the address gets no further than the check, so nothing it does moves the end of the block |
| `RateLimiterLaws.FifthFailureBlocks` | hub/auth.py:22-72 | over every run: the fifth failure of an address within 60 seconds, with no success in between, is followed by a refusal until exactly 300 seconds after it |
| `RateLimiterLaws.RefusedOnlyAfterFive` | hub/auth.py:36-72 | and no other: whoever is refused failed five times within 60 seconds, and is refused until exactly 300 seconds after the last of the five |
| `RateLimiterLaws.SweepDropsTheRest` | hub/auth.py:55-64 | after a failure recorded while more than 10,000 addresses are tracked, every other address left has a first entry at most 60 seconds old, and every other block left still runs; with fewer tracked nothing of them is touched |
| `RateLimiterLaws.SweepKeepsTheRecent` | hub/auth.py:55-64 | the sweep drops no entry of the last 60 seconds and no running block |
| `RateLimiterTight.BoundIsAttained` | hub/auth.py:36-72 | for every k some run lets 4k+5 failures through in a stretch whose bound is 4k+5: the bound is exact |
| `RateLimiterOverlap.CrowdGetsThrough` | hub/app.py:429-440 | with cap requests of one address between check and record, cap+4 failures get through at a single instant |
| `RateLimiterOverlap.BoundHoldsIff` | hub/auth.py:36-72 | the bound 4*floor(span/60)+5 holds for all runs with at most cap requests of an address in flight if and only if cap is at most one |
| `RateLimiterOverlap.BlocksLastIff` | hub/auth.py:36-79 | a triggered block refuses every check for exactly 300 s in all runs with at most cap requests in flight if and only if cap is at most one: a second request that succeeds lifts it |
| `RateLimiterOverlap.PruningUnseenIff` | hub/auth.py:36-72 | the limiter answers as one that forgets nothing in all runs with at most cap requests in flight if and only if cap is at most one: a failure recorded late in a block is dropped by the check that ends it |
| `DeviceLocks.LockTable.AcquireLock` | hub/db.py:902-949 | undisturbed, it grants exactly a free, expired, own or forced lock; a refusal changes nothing and returns another holder's unexpired row |
| `DeviceLocks.LockTable.RefreshLock` | hub/db.py:952-965 | succeeds and extends exactly when the caller holds an unexpired row |
| `DeviceLocks.LockTable.ReleaseLock` | hub/db.py:968-974 | removes the row only if this holder has it |
| `DeviceLocks.LockTable.PurgeLocks` | hub/db.py:1342-1349 | the hourly purge removes exactly the rows that have expired |
| `DeviceLocks.LockTable.GetLock` | hub/db.py:890-899 | shows a row exactly while it is unexpired |
| `DeviceLocks.StepKeepsBacked` | hub/db.py:902-974 | every undisturbed call at a later or equal time keeps each device's unexpired lease backed by its row |
| `DeviceLocks.RefreshIff` | hub/db.py:952-965 | after any undisturbed calls, a refresh succeeds if and only if the caller's lease still runs, and the lease then ends ttl after the refresh |
| `DeviceLocks.AcquireIff` | hub/db.py:902-949 | likewise an unforced acquisition is granted if and only if nobody else's lease runs, and the caller's lease then ends ttl from now |
| `DeviceLocks.ReleaseFrees` | hub/db.py:968-974 | a release gives up the caller's lease and no other; the device is then free to anyone, unless somebody else's lease runs |
| `DeviceLocks.LeaseIsKept` | hub/db.py:902-974 | after any run of undisturbed calls a device whose holder's lease runs is that holder's to refresh and closed to everyone else |
| `DeviceLocks.LeaseSafety` | hub/db.py:902-974 | over every run of whole calls, forced ones and statements on their own: leases are exclusive at every moment and stay so whatever undisturbed calls follow, if and only if each forced acquisition and late write respects its guard; undisturbed unforced calls always do |
| `DeviceLocks.ForceIsSafeIff` | hub/db.py:928-936 | a forced acquisition leaves leases exclusive, whatever undisturbed calls follow, if and only if it would have been granted without force |
| `DeviceLocks.LateWriteIsSafeIff` | hub/db.py:911-944 | with SELECT and write apart, a late write leaves leases exclusive, whatever undisturbed calls follow, if and only if it finds the row free or expired, or its own and no longer than what it writes |
| `DeviceLocks.TwoReadersBothWin` | hub/db.py:911-917 | at every free lock two clients that both read before either writes both end with unexpired leases |
| `DeviceLocks.OnlyLastWriterRefreshes` | hub/db.py:952-965 | from any state, until the next acquisition of the device is written, any refresh that succeeds is by the holder the row named |
| `PairingCodes.PairingTable.CreatePairingCode` | hub/db.py:779-793 | drops expired codes and the user's unused ones, then adds the code; on a collision the insert fails and the other row stays |
| `PairingCodes.PairingTable.ConsumePairingCode` | hub/db.py:796-813 | undisturbed, redeems exactly an unused, unexpired code, returns its owner, and makes it unredeemable; otherwise changes nothing |
| `PairingCodes.PairingTable.PurgeExpired` | hub/db.py:1342-1348 | the hourly purge removes exactly the codes that have expired |
| `PairingCodes.CodesAreSingleUse` | hub/db.py:796-813 | in every statement interleaving of consume, create and purge, no minted row is marked for two callers, and the row a caller was shown was unused and unexpired at its SELECT |
| `PairingCodes.RedeemsWhatItSaw` | hub/db.py:800-813 | the row a caller marks is the row it was shown exactly when the code was not minted again between its two statements |
| `PairingCodes.RowIsClaimedUnlessReminted` | hub/db.py:784-792 | under a code that is still in the table stands the same row as before exactly when the code was not minted again meanwhile |
| `PairingCodes.HonestRedemptionsDiffer` | hub/db.py:796-813 | two callers that each marked the row they were shown were shown different rows |
| `PairingCodes.OneRowToldTwice` | hub/db.py:800-813 | a run in which the code is minted again in between: two callers are told about one row |
| `PairingCodes.RedeemableIff` | hub/db.py:776-813 | over every statement interleaving, a code minted at a moment can be redeemed until exactly 600 seconds after it, if and only if its owner has not minted another and it has not been redeemed; other users' codes and purges change nothing |
| `PairingCodes.StepRedeems` | hub/db.py:779-813 | what one statement does to whether a code can be redeemed: minting starts it, its owner's next mint or its redemption ends it, nothing else does |
| `Presence.PresenceTable.PublishDevicePresence` | hub/db.py:1292-1303 | the device's row becomes this node, its address stripped of white space and trailing slashes, seen now; nothing without a device or an address |
| `Presence.PresenceTable.ClearDevicePresence` | hub/db.py:1306-1314 | removes the row only if it names this node, its address stripped the same way |
| `Text.StripMeans` | hub/db.py:1293-1293 | stripping removes white space from both ends, all of it, and nothing else |
| `Text.RStripMeans` | hub/db.py:1293-1293 | stripping slashes cuts off those at the end, all of them, and nothing else |
| `Presence.PresenceTable.GetDevicePresence` | hub/db.py:1331-1339 | finds the node of a row seen in the last 90 seconds |
| `Presence.StepRegisters` | hub/ws_router.py:222-238 | on each node the live socket of a device is the last one connected there, and only its own teardown removes it |
| `Presence.OnlyHolderTouchesRow` | hub/app.py:2216-2227 | once older handlers have finished, no other node's publish or clear touches the device's row: only the holder's heartbeat sets it and only the purge of hour-old rows removes it |
| `Presence.RowStaysWithHolder` | hub/app.py:224-243 | over any run in which that stays so, a row naming the holder keeps naming it for an hour after it was last seen |
| `Presence.RequestsReachTheHolder` | hub/app.py:124-189 | the holder's next heartbeat makes the row the holder; while it is fresh a request entering at any node is served by the holder, after one hop unless it entered there |
| `Presence.AtMostOneHop` | hub/app.py:128-139 | in every state, settled or not, a request is relayed at most once |
| `Presence.RelayedIff` | hub/app.py:125-141 | a request is relayed if and only if it was not relayed before, the entry node has no socket of the device, and a row seen in the last 90 seconds names another node, which is where it goes |
| `Presence.RowNamesIff` | hub/db.py:1292-1352 | over every run of any handlers, heartbeats and purges: a device's row names a node if and only if some publish or heartbeat of that node was followed by no publish of another node, no clear by a handler of the device on it, and no purge an hour later |
| `Presence.LiveSocketHasRowIff` | hub/app.py:2216-2278 | the row of a device with a live socket names its node if and only if, since the node last published it, no other handler of the device on this node has cleared and no other node has published it; as long as no purge finds that publish an hour old |
| `Presence.SupersededTeardownClearsRow` | hub/app.py:2272-2276 | the run in which it does not: a socket is superseded on its own node, and the older handler's teardown leaves the live device without a row |
| `Retention.MediaIndex.AddTheftMedia` | hub/db.py:1038-1050 | adds one row under an id never used before |
| `Retention.MediaIndex.PruneTheftMedia` | hub/db.py:1142-1156 | the loop deletes exactly the device's rows beyond the cap and returns exactly their paths |
| `Retention.PrunedIds` | hub/db.py:1142-1156 | row by row: every kept row of the device comes before every deleted one, and as many are kept as there are, up to the cap |
| `Retention.PrunedRows` | hub/db.py:1142-1156 | kept and deleted rows partition the device's rows, the kept ones being the newest up to the cap; other devices' rows are untouched |
| `Retention.KeptAreNewer` | hub/db.py:1146-1150 | every kept row is newer by (created_at, id) than every deleted one |
| `Retention.KeptCount` | hub/db.py:1146-1150 | as many rows are kept as there are, up to the cap |
| `Retention.NewestOfNewest` | hub/app.py:1824-1833 | adding a row to the newest and pruning again gives the newest of all, also when clocks go back |
| `Retention.KeepsNewestEver` | hub/app.py:1824-1840 | after any captures of any devices, one after the other, each device holds exactly the newest, up to the cap, of everything it ever captured |
| `CaptureStore.StepKeepsInv` | hub/app.py:1812-1840 | each statement of captures, prunings, deletions and unpairings keeps every row's file on disk and every path to be unlinked free of rows |
| `CaptureStore.IndexedRowsHaveFiles` | hub/app.py:1812-1840 | at every intermediate statement of any interleaving of captures, prunings, manual deletions and unpairings, every indexed row has its file on disk |
| `CaptureStore.FilesAreThoseOfRows` | hub/app.py:1812-1840 | and once every job is done, the files on disk are exactly those of the rows left, when no device was unpaired and no unlink failed |
| `CaptureRetention.SelectSeesStale` | hub/db.py:1146-1150 | while no row among the newest is missing, pruning's SELECT finds stale exactly what is stale among everything ever captured, however many deletes are pending |
| `CaptureRetention.NewestEverUnderInterleaving` | hub/app.py:1812-1840 | however captures interleave statement by statement: at every moment the newest of all a device ever captured are there, and whenever no capture is under way it holds exactly those |
| `CommandQueue.CommandTable.Enqueue` | driver/app/src/main/java/com/vortex/driver/CommandQueue.kt:80-95 | appends an unexecuted row under the next id |
| `CommandQueue.CommandTable.PendingFor` | driver/app/src/main/java/com/vortex/driver/CommandQueue.kt:99-118 | the first 16 unexecuted rows of the device in id order; none when the SELECT fails |
| `CommandQueue.CommandTable.MarkExecuted` | driver/app/src/main/java/com/vortex/driver/CommandQueue.kt:122-136 | marks exactly the row with this id; a database error leaves the table as it was |
| `CommandQueue.DrainCommandQueueOnce` | driver/app/src/main/java/com/vortex/driver/DriverService.kt:300-320 | handles the batch in order, runs exactly its whitelisted commands, and marks every handled row whose update arrives, with an error unless its op was allowed and succeeded |
| `CommandQueue.MarkedMeans` | driver/app/src/main/java/com/vortex/driver/DriverService.kt:300-320 | after a poll a handled row whose mark arrived is executed, with an error exactly if its op is none of keepawake, location_once and play_sound or it failed; every other row is as before |
| `CommandQueue.Service.StartCommandPoller` | driver/app/src/main/java/com/vortex/driver/DriverService.kt:268-279 | however often it is started there is at most one poller |
| `QueueSchedule.HandledOnceInOrder` | driver/app/src/main/java/com/vortex/driver/DriverService.kt:300-320 | at every statement of every run in which no mark is lost and no kill comes between a command and its mark: commands handled, followed by those waiting, are all ever enqueued for the device in id order; so each is handled once and in order |
| `QueueSchedule.MarkTakesFirst` | driver/app/src/main/java/com/vortex/driver/CommandQueue.kt:122-136 | marking the oldest pending row takes exactly that row off the front of what is pending |
| `QueueSchedule.UndisturbedPoll` | driver/app/src/main/java/com/vortex/driver/DriverService.kt:300-320 | the single steps of a poll nobody disturbs, any marks lost and any ops failing, have exactly the outcome of drainCommandQueueOnce |
| `QueueSchedule.HandledInTime` | driver/app/src/main/java/com/vortex/driver/CommandQueue.kt:44-46 | in the same runs, a row with p older pending rows is handled once p/16+1 successful polls are worked off, whatever is enqueued at any statement and whatever ops those rows hold |
| `QueueSchedule.LostMarkIsRetried` | driver/app/src/main/java/com/vortex/driver/CommandQueue.kt:135-135 | a command of a batch whose mark never arrived, lost or cut off by a kill, is in the next batch again, whatever happens in between |
| `QueueSchedule.OnlyWhitelistedRun` | driver/app/src/main/java/com/vortex/driver/CommandQueue.kt:38-42 | over every run, lost marks and kills included, what is run is exactly the whitelisted part of what is handled, in order |
| `QueueSchedule.BatchMeans` | driver/app/src/main/java/com/vortex/driver/CommandQueue.kt:99-118 | a poll selects rows of the device that are not executed, oldest first, at most 16; one that is left out is younger than all 16 selected |
| `QueueSchedule.RunnableMeans` | driver/app/src/main/java/com/vortex/driver/DriverService.kt:300-320 | of a batch exactly the commands of the three ops are run, in id order |
| `Nv21.EveryAccessInBounds` | driver/app/src/main/java/com/vortex/driver/CameraEngine.kt:241-264 | for all sizes and strides, every sample position is inside the buffer exactly when the last one is |
| `Nv21.RepackedIffNv21` | driver/app/src/main/java/com/vortex/driver/CameraEngine.kt:227-269 | a buffer is the repacking exactly when Y sample (r,c) is at r*w+c, V and U of block (r,c) at w*h+2*(r*(w/2)+c) and the place after it, and the rest is 0: the layout fixes every byte |
| `Nv21.LumaGoes` | driver/app/src/main/java/com/vortex/driver/CameraEngine.kt:236-250 | byte r*w+c of the buffer is the Y byte at r*rowStride+c*pixelStride |
| `Nv21.ChromaGoes` | driver/app/src/main/java/com/vortex/driver/CameraEngine.kt:252-267 | bytes w*h+2*(r*(w/2)+c) and the next are the V and the U byte at r*rowStride+c*pixelStride of the U plane's strides |
| `Nv21.SizeAndPadding` | driver/app/src/main/java/com/vortex/driver/CameraEngine.kt:227-258 | the buffer has w*h*3/2 bytes and zeros behind the chroma bytes |
| `Nv21.TightPlaneIsLinear` | driver/app/src/main/java/com/vortex/driver/CameraEngine.kt:239-240 | on a plane without gaps the bulk copy gives what the strided loop gives |
| `Nv21.NoPaddingIff` | driver/app/src/main/java/com/vortex/driver/CameraEngine.kt:230-258 | the two planes fill the allocated buffer if and only if both sizes are even, the image is empty or it is a single pixel |
| `Nv21.OddFrameHasPadding` | driver/app/src/main/java/com/vortex/driver/CameraEngine.kt:230-258 | a frame of three by two pixels leaves its last byte unwritten |
| `Nv21.CopyLuma` | driver/app/src/main/java/com/vortex/driver/CameraEngine.kt:236-250 | both branches write exactly the Y part of the repacking, reading and writing in bounds |
| `Nv21.CopyChroma` | driver/app/src/main/java/com/vortex/driver/CameraEngine.kt:252-267 | the chroma loop with its running index writes exactly the V and U bytes and no others |
| `Nv21.Yuv420ToNv21` | driver/app/src/main/java/com/vortex/driver/CameraEngine.kt:227-269 | the buffer returned is the repacking, for every size and all strides that fit the planes |
| `AnnexB.AvcCodecString` | driver/app/src/main/java/com/vortex/driver/CameraH264Encoder.kt:275-295 | for every byte array the scan stays in bounds, ends, and returns the codec of the first 00 00 01 followed by a type-7 NAL with three bytes behind its header, or the default if there is none |
| `AnnexB.JumpSkipsNothing` | driver/app/src/main/java/com/vortex/driver/CameraH264Encoder.kt:278-292 | inside a three- or four-byte start code that is stepped over, the only start code is the one just examined |
| `AnnexB.CodecIsDetermined` | driver/app/src/main/java/com/vortex/driver/CameraH264Encoder.kt:275-295 | the description of the scan's result leaves exactly one answer |
| `AnnexB.CodecIsInjective` | driver/app/src/main/java/com/vortex/driver/CameraH264Encoder.kt:286-290 | two codec strings are equal exactly when profile, constraints and level are |
| `AnnexB.FirstSpsIsSpelled` | driver/app/src/main/java/com/vortex/driver/CameraH264Encoder.kt:275-295 | for the first complete type-7 NAL the result is avc1. and its profile, constraint and level bytes in that order, two capital hex digits each |
| `AnnexB.NoSpsIsDefault` | driver/app/src/main/java/com/vortex/driver/CameraH264Encoder.kt:275-295 | where there is none the result is avc1.42E01E |
| `Framing.SameLengthsAccepted` | driver/app/src/main/java/com/vortex/driver/InputServer.kt:113-117 | on every header, Python's unsigned and Kotlin's signed reading accept the same lengths within the input cap, with the same value |
| `Framing.HeadersMean` | driver/app/src/main/java/com/vortex/driver/InputServer.kt:113-117 | a header is its four bytes, most significant first, less 2 to the 32 in Kotlin when the first bit is set; lengths from 1 to 65,536 are accepted |
| `Framing.FrameMeans` | agent/input_bridge.py:91-91 | a frame is four bytes adding up to the length of the body, then the body |
| `Framing.DecodeInvertsEncode` | agent/camera_bridge.py:84-95 | for every list of frames, decoding the encoding gives back the non-empty frames in order if and only if every frame is within the cap |
| `Framing.StopsAtOversized` | agent/camera_bridge.py:87-95 | at the first frame over the cap reading stops: exactly the non-empty frames before it come out, and nothing behind it |
| `Framing.CutStream` | agent/camera_bridge.py:84-99 | of a stream cut at any byte, exactly the non-empty frames complete before the cut are decoded |
| `Framing.CompleteBeforeIsLargest` | agent/camera_bridge.py:41-52 | the frames counted as complete are exactly those whose encoding ends before the cut |
| `Framing.ReadExact` | agent/camera_bridge.py:41-52 | however reads split the bytes, either exactly the next n bytes, or nothing and then the stream ended or a read failed |
| `Framing.StreamFromSocket` | agent/camera_bridge.py:82-105 | for every way reads split or fail: the frames yielded are the decoding of the bytes taken, and of the whole stream when no read failed |
| `Framing.ReadFrame` | driver/app/src/main/java/com/vortex/driver/InputServer.kt:105-126 | for every split: the next complete, non-empty, in-cap frame and exactly its bytes taken; nothing only if there is none or a read failed |
| `Framing.WriteFrame` | driver/app/src/main/java/com/vortex/driver/InputServer.kt:128-133 | appends the frame of a body of any size to the connection |
| `Framing.RequestsInvertEncode` | driver/app/src/main/java/com/vortex/driver/InputServer.kt:85-102 | all frames sent on a driver connection are read as requests if and only if each is non-empty and within the cap |
| `Framing.StopsAtUnreadable` | driver/app/src/main/java/com/vortex/driver/InputServer.kt:105-126 | at the first empty or oversized request the connection ends, and exactly the requests before it are read |
| `Framing.HandleClient` | driver/app/src/main/java/com/vortex/driver/InputServer.kt:85-102 | the connection answers a front of its readable requests in order, each with one frame, and all of them when no read failed |
| `Framing.SendCommand` | agent/input_bridge.py:65-103 | against the driver: a result is the answer to this very request, and one comes back exactly when request and answer are non-empty and within the cap, unless a read failed |
| `PasswordFormat.UnhexInvertsHex` | driver/app/src/main/java/com/vortex/driver/Pbkdf2.kt:64-83 | hex written by either side is read back as the same bytes by both |
| `PasswordFormat.HexMeans` | driver/app/src/main/java/com/vortex/driver/Pbkdf2.kt:64-71 | two lower-case hex digits a byte, the high one first |
| `PasswordFormat.StoredIsSpelled` | hub/db.py:567-572 | what is stored is pbkdf2_sha256, 200000, the salt and a 32-byte key in hex, separated by dollar signs |
| `PasswordFormat.ReadingsDifferOnSpaceOnly` | driver/app/src/main/java/com/vortex/driver/Pbkdf2.kt:73-83 | on ASCII texts the driver and the hub read the same bytes or both refuse, except that the hub skips white space and the driver refuses it; every other text the hub refuses |
| `PasswordFormat.FromHexOrNull` | driver/app/src/main/java/com/vortex/driver/Pbkdf2.kt:73-83 | the loop over pairs reads exactly an even-length text of characters that are digits in radix 16, of any script, and refuses any other |
| `PasswordFormat.XorIsZeroIff` | driver/app/src/main/java/com/vortex/driver/Pbkdf2.kt:57-62 | the exclusive or of two bit patterns is zero exactly when they are equal |
| `PasswordFormat.ConstantTimeEquals` | driver/app/src/main/java/com/vortex/driver/Pbkdf2.kt:57-62 | the xor/or loop is equality of byte strings |
| `PasswordFormat.HubReadsDriverCounts` | hub/db.py:577-582 | every iteration count the driver can read is read as the same number by the hub |
| `PasswordFormat.CountsAreRead` | hub/db.py:577-582 | a printed count is read as its number by the hub, and by the driver as far as 32 bits go |
| `PasswordFormat.WrittenOnceVerifiedTwice` | hub/db.py:567-587 | a record written by either side is accepted by both sides for exactly the passwords that derive the same key, its own first of all |
| `PasswordFormat.DriverThenHub` | hub/db.py:575-587 | on any stored text the driver accepts, the hub agrees if and only if the digest has 32 bytes and both hex parts are ASCII |
| `PasswordFormat.HubThenDriver` | driver/app/src/main/java/com/vortex/driver/Pbkdf2.kt:34-44 | on any stored text the hub accepts, the driver agrees if and only if it can read the count, the hex has no white space and the salt is not empty |
| `PasswordFormat.SidesPart` | hub/db.py:575-587 | for every key derivation, password and salt: a record with a digest of another width is accepted by the driver alone, one with an empty salt by the hub alone |
| `PasswordFormat.PartsMean` | hub/db.py:575-587 | which count, salt and digest each side accepts of a text's four parts, whatever they hold |
| `PasswordFormat.OtherTextsAreRefused` | hub/db.py:575-587 | neither side accepts a text that does not begin with pbkdf2_sha256 and a dollar sign |
| `PasswordFormat.Hash` | driver/app/src/main/java/com/vortex/driver/Pbkdf2.kt:28-32 | writes the record of the salt drawn and the key derived |
| `PasswordFormat.Verify` | driver/app/src/main/java/com/vortex/driver/Pbkdf2.kt:34-44 | the driver's verify accepts exactly the four-part records whose key the password derives |
| `NodeFailover.Agent.CandidateUrls` | agent/agent.py:1128-1138 | the loop yields the override, the last hub and the saved nodes without trailing slashes, each non-empty one once, in order of first occurrence |
| `NodeFailover.DedupIsDistinct` | agent/agent.py:1132-1137 | the list kept has no duplicates and exactly the non-empty elements of the input |
| `NodeFailover.DedupKeepsOrder` | agent/agent.py:1132-1137 | what is kept stands in the order in which it first occurred |
| `NodeFailover.CandidatesMean` | agent/agent.py:1128-1138 | the candidates are exactly the override, the last hub and the saved nodes, none empty, none with a trailing slash, none twice; the override comes first, then the last hub |
| `NodeFailover.OverrideGoesFirst` | agent/agent.py:1128-1138 | with an override the next round tries it first and then the rest of the saved list in its order |
| `NodeFailover.MergedIsClean` | agent/agent.py:1448-1457 | a merge has no duplicates or trailing slashes, starts with the node just reached, and holds that node, the answer's and the known nodes, nothing else |
| `NodeFailover.RepeatedConnectIsFixpoint` | agent/agent.py:1448-1461 | connecting again with the same answer changes neither hub nor list, so nothing is saved |
| `NodeFailover.NextRoundTriesSavedList` | agent/agent.py:1128-1138 | without an override the next round tries exactly the saved list, the node last reached first |
| `NodeFailover.SavedListIsWhatWasLearned` | agent/agent.py:1446-1461 | after any connects the saved list is clean, starts with the node last reached and holds exactly the nodes ever learned, up to trailing slashes |
| `NodeFailover.RunRemembersEveryNode` | agent/agent.py:1503-1530 | the same over whole runs of rounds, whatever each attempt does; before the first answer the saved configuration is untouched |
| `NodeFailover.FirstAddressIsKeptIff` | agent/agent.py:1448-1461 | an address known only as the first hub is still tried later if and only if it was reached, listed or answered |
| `NodeFailover.FirstAddressForgotten` | agent/agent.py:1448-1461 | a single connect to another node that names nobody after which the first hub is no longer tried |
| `NodeFailover.TriesEachOnce` | agent/agent.py:1514-1525 | a round tries a prefix of its candidates, each once, stopping early only at a session that ended or a fatal refusal |
| `NodeFailover.OutcomeMeans` | agent/agent.py:1397-1500 | which attempts serve, which are fatal, and which are remembered: only sessions on addresses with a web scheme |
| `NodeFailover.RoundEnds` | agent/agent.py:1514-1530 | a round ends the agent exactly when the last address tried was a fatal one; the pause goes back to a second exactly when it held a session to its end, and otherwise grows by 1.7 up to a minute after all were tried |
| `NodeFailover.BackoffInRange` | agent/agent.py:1503-1530 | over every run the pause stays between 1 and 60 seconds |
| `NodeFailover.BackoffGrows` | agent/agent.py:1526-1530 | k failing rounds after a reset the pause is 1.7 to the k, capped at 60, and the cap is reached exactly from the eighth on |
| `NodeFailover.Agent.ConnectOnce` | agent/agent.py:1397-1500 | the result and the saved configuration after an attempt: merged whenever a session was accepted, however it ended |
| `NodeFailover.Agent.RunRound` | agent/agent.py:1503-1530 | one pass of the loop is one round: same attempts, same configuration, same pause, same exit |

## Left out

- WebSockets, HTTP and TCP are ordered reliable lists of messages or bytes that can end at any point; FastAPI, httpx, OkHttp, Android, templates and notifications are not modelled.
- JSON and base64 text: messages are values. A legacy base64 chunk is a chunk; a header without an id is routed but is outside `CallLifecycle.HubRoutesFrames`.
- Cryptography: key derivation is a parameter, codes, salts, ids and file names are inputs. That file names and request ids are fresh is taken from their random parts.
- Time is a nondecreasing number: seconds as real in the limiter, whole seconds in the database, and the backoff is real arithmetic where the original has floating point.
- SQL statements are atomic; replication delay of a remote replica is not modelled.
- RateLimiterBound.FailureBound: for requests of one address one after the other, the only case in which it holds (`RateLimiterOverlap.BoundHoldsIff`); likewise `RateLimiterBound.BlockLastsExactly` and `RateLimiterRuns.PruningIsInvisible`.
- The legacy copy of the limiter in `app_v1.py` is not modelled.
- TransferIdentity.UploadIdentity: requires the receive queue to be open before the first chunk is routed, which the original does not enforce, and a sender that is not cancelled.
- TransferIdentity.UploadCommits: the same, and everything sent has been delivered; likewise TransferIdentity.DownloadArrives.
- TransferIdentity.DownloadIdentity: for a file that does not change while it is read, and a sender whose failure report is not an end marker.
- FileTransfer.WriteFile: path resolution, the directory check and creating directories are left out; a failing disk is a receive that fails, and removing the part file is taken to succeed.
- Retention.KeepsNewestEver: captures one after the other; overlapping ones are in `CaptureRetention.NewestEverUnderInterleaving`. Both have one cap for the whole run, no manual deletions and every capture pruned to its end. Rows without a path are left out.
- CaptureStore.FilesAreThoseOfRows: without unpairing, which deletes rows and leaves their files, and with unlinks that succeed.
- Presence.RequestsReachTheHolder: every node knows its public URL, and these are stable, distinct and free of surrounding white space and trailing slashes; which paths are relayable is left out, and so is the failure of the relay request itself.
- DeviceLocks.LeaseSafety: constant TTL, as in the original's configuration between restarts; labels are left out.
- QueueSchedule.HandledOnceInOrder: one poller per device, as `CommandQueue.Service.StartCommandPoller` provides; arguments, results and rows the table's constraints rule out are left out.
- PeerClient.PeerClient.RouteText: handlers that throw and the handshake before it are left out; an error response for a stream id is dropped, as in the original.
- Nv21.Yuv420ToNv21: requires what the camera API guarantees, that the planes hold their samples and sizes fit an Int; JPEG compression is left out.
- PasswordFormat.Verify: which characters beyond ASCII are digits is a parameter, one value per character; counts above a C int, for which the hub's key derivation raises, are not accepted.
- Framing.SendCommand: what the driver does with a request is a function parameter.
- NodeFailover.Agent.RunRound: the process ends after a fatal refusal; saving the configuration to disk, publishing to peers and the direct server are left out.
- Camera, screen and audio capture, window and file listings, location normalisation, the audit log and the peer mesh are left out: they would add only members that say less than these.
