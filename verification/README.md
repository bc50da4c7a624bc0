# TinyFile, verified

TinyFile is a file-compression service. A client hands files to a service process in
bounded chunks through shared memory and gets the compressed bytes back the same way.
This project models the parts of it that are hard to get right and proves what they
promise.

- **Transfer.** `TransferProtocol` is the step system of the two processes that move one
  file: two program counters, three semaphores, one shared segment, counters and buffers
  on both sides, interleaved at every semaphore operation and every single access to the
  segment. The compressor is any function. `ShmMessages` and `TransferHandlers` are the
  messages and the two handlers as objects that update their state in place; each of
  their steps is a step of the protocol, and `Transfer` runs them under an arbitrary
  interleaving.
- **Shared memory.** `SharedSegments` has the bounds-checked segment and the fragmented
  segment that scatters one flat buffer over many of them; `SegmentPool` and `ShmManager`
  have the allocator; `SizeSelection` has the size a request is given; `ResponseCodec`
  has the message that names a grant; `HandOver` takes a grant through that message to the
  client's view of the same bytes, and `CompressionRequest` puts size, grant, response,
  view, transfer and release together into one request. `ConcurrentTransfers` interleaves
  any number of transfers over their grants in one memory.
- **Scheduling.** `CreditPolicy` says on values what the credit policy does. `CreditLists`
  adds the linked lists with the iterators that clients store, and shows that the loop
  which unlinks and relinks everybody is a rebuild in iteration order. `CreditScheduler`
  is the scheduler object. `CreditFairness`, `CreditLag`, `CreditSinking`,
  `CreditStretches`, `CreditStarvation` and `CreditWaiting` are about whole runs: order and
  ledger, bounds on credits, when credits sink, and who waits how long. `RoundRobin` has the other policy, its object and its waiting bound;
  `RequestLists` is shared by both.
- **Client window.** `ServicerProtocol` is the state machine of callers, dispatcher, server
  and workers around the in-flight window; `Servicer` is the object, one critical section
  a method.
- **Argument parsing.** `EditDistance` and `DecimalLiteral` are two algorithms of the
  argument parser: the table of edit distances and the recogniser of decimal literals.
- `Bytes`, `Arithmetic`, `Sequences` and `Wrappers` hold integer images, byte ranges,
  multiplication facts, lists without repetition and optional values.

Where a property fails of the code, the exact condition is proved. Deregistering a client
keeps the scheduler's invariant if and only if nothing of it waits. A request for a client
that is not registered throws, but is stored and counted first, and the invariant is lost.
A wait in the client throws if and only if the id was never issued or its result was
already handed over. A transfer can complete if and only if the segment is larger than a
header, or just as large when there is nothing to carry either way; in a smaller segment
the first write throws, and in one of exactly header size chunks without a byte go round
for ever. The server can return while the client has yet to read (`ServerMayLeaveEarly`);
releasing the segment at that point is safe if and only if the server's semaphore holds
the token (`SafeToReleaseIff`), which the source does not wait for. The credit policy is
free of starvation if and only if there is at most one client, or there are two and no
file is empty (`StarvationFreeIff`). Credits of equal clients that are always busy are
bounded if and only if the rivals of each have 64 points (`CreditsBoundedIff`).

The comment on `is_positional` names the dash; the code takes any prefix character, and so
does the model.

`dafny verify dfyconfig.toml` checks the whole project.

## Model

| member | source | states |
|---|---|---|
| `TransferProtocol.MaximalRunDelivers` | tiny_file/service/src/ServiceFileCompressorHandler.cpp:72-111 | every interleaving that cannot go on has ended with rawData equal to the source file, compressedData equal to its compression, semaphores at 1, 0, 0, after exactly ten steps for each message and eleven more; for any file, compressor and segment that fits |
| `TransferProtocol.SingleToken` | tiny_file/service/src/ServiceFileCompressorHandler.cpp:72-111 | in every reachable state the three semaphores and the two segment accesses sum to one: accesses exclude each other, no semaphore exceeds 1, and no bounds check throws |
| `TransferProtocol.TurnaroundStealsNothing` | tiny_file/service/src/ServiceFileCompressorHandler.cpp:86-90 | when the server waits for the turnaround the token is there and the client, having sent everything, will not ask for it |
| `TransferProtocol.ExactPrefixes` | tiny_file/client/src/ClientFileCompressorHandler.cpp:27-56 | in every reachable state both receive buffers hold exact prefixes of what was sent, however the two processes interleave |
| `TransferProtocol.DeadlockFree` | tiny_file/service/src/ServiceFileCompressorHandler.cpp:72-111 | a reachable state has no enabled step if and only if both processes have finished |
| `TransferProtocol.StepDecreasesMeasure` | tiny_file/service/src/ServiceFileCompressorHandler.cpp:72-111 | every step of either process is exactly one of the steps that the two programs have left, counted in full messages |
| `TransferProtocol.RunsAreShort` | tiny_file/client/src/ClientFileCompressorHandler.cpp:27-56 | a run that has taken i steps has exactly 10 for each message and 11, less i, left, whatever the scheduling |
| `TransferProtocol.MessagesAreFull` | tiny_file/client/src/ClientFileCompressorHandler.cpp:90-96 | in every reachable state the message about to be written, by either side, fills the segment behind the header or is the last of its file |
| `TransferProtocol.CompletedRunCounts` | tiny_file/service/src/ServiceFileCompressorHandler.cpp:143-149 | a completed run has posted exactly the file size over the segment size less 8, rounded up, messages in the upload, and the same for the compression in the download |
| `TransferProtocol.RunCanFinish` | tiny_file/client/src/ClientFileCompressorHandler.cpp:27-56 | any run, stopped anywhere, has a continuation that completes |
| `TransferProtocol.CompletesIffFits` | tiny_file/service/src/ServiceFileCompressorHandler.cpp:143-149 | some interleaving completes if and only if the segment is larger than the header, or equal to it when both the file and its compression are empty |
| `TransferProtocol.TooSmallThrows` | tiny_file/service/src/ServiceFileCompressorHandler.cpp:154-157 | in a segment smaller than the header every run is over within 12 states: the first write of the client throws and the server waits for ever, or, for an empty file, the other way round |
| `TransferProtocol.HeaderOnlyNeverStops` | tiny_file/service/src/ServiceFileCompressorHandler.cpp:143-149 | in a segment of exactly header size, with anything to carry, chunks without a byte go round for ever: no reachable state is stuck or completed, nothing throws and neither side receives a byte |
| `TransferProtocol.ServerMayLeaveEarly` | tiny_file/service/src/ServiceFileCompressorHandler.cpp:98-123 | for every job there is a run in which the server has returned while the last chunk, or the size of an empty compression, lies unread in the segment |
| `TransferProtocol.TokenSaysRead` | tiny_file/service/src/ServiceFileCompressorHandler.cpp:98-123 | once the server has returned, its semaphore holds the token if and only if the client has received everything and is past its last post; its buffer is then the compression |
| `TransferProtocol.SafeToReleaseIff` | tiny_file/service/src/ServiceFileCompressorHandler.cpp:98-123 | once the server has returned, no continuation has the client in an access to the segment if and only if the server's semaphore holds the token: one more wait before the release is what makes the release safe |
| `TransferProtocol.ServerKeepsInvariant` | tiny_file/service/src/ServiceFileCompressorHandler.cpp:72-111 | each server step keeps the joint invariant on counters, chunk in transit, buffers and semaphores |
| `TransferProtocol.ClientKeepsInvariant` | tiny_file/client/src/ClientFileCompressorHandler.cpp:27-56 | each client step keeps the same invariant |
| `TransferHandlers.ServiceFileCompressorHandler.Step` | tiny_file/service/src/ServiceFileCompressorHandler.cpp:72-111 | the object that updates its counters, raw buffer, segment and semaphores in place does exactly the step of the protocol |
| `TransferHandlers.ServiceFileCompressorHandler.CopyClientData` | tiny_file/service/src/ServiceFileCompressorHandler.cpp:131-136 | the chunk lands behind what was received before, or the call throws and nothing moves |
| `TransferHandlers.ServiceFileCompressorHandler.SendClientBody` | tiny_file/service/src/ServiceFileCompressorHandler.cpp:143-149 | the segment receives the next chunk of the compressed data behind the header and the counter advances by its size |
| `TransferHandlers.ServiceFileCompressorHandler.SendFileData` | tiny_file/service/src/ServiceFileCompressorHandler.cpp:154-157 | the segment announces the compressed size, or the call throws when it is too small |
| `TransferHandlers.ServiceFileCompressorHandler.CompressData` | tiny_file/service/src/ServiceFileCompressorHandler.cpp:162-165 | compression sees the whole received buffer |
| `TransferHandlers.ClientFileCompressorHandler.Step` | tiny_file/client/src/ClientFileCompressorHandler.cpp:27-56 | the client object does exactly the step of the protocol |
| `TransferHandlers.ClientFileCompressorHandler.SendServerBody` | tiny_file/client/src/ClientFileCompressorHandler.cpp:90-96 | the segment receives the next chunk of the source file and the counter advances by its size |
| `TransferHandlers.ClientFileCompressorHandler.CopyServerData` | tiny_file/client/src/ClientFileCompressorHandler.cpp:83-88 | the chunk lands behind what was received before, or the call throws and nothing moves |
| `TransferHandlers.ClientFileCompressorHandler.ProcessFileData` | tiny_file/client/src/ClientFileCompressorHandler.cpp:98-103 | the announced size is what the receive buffer gets |
| `TransferHandlers.Transfer` | tiny_file/service/src/ServiceFileCompressorHandler.cpp:72-111 | the two objects, run under an arbitrary interleaving, end with both files delivered and the semaphores restored; it terminates |
| `ShmMessages.WriteSize` | tiny_file/shared/src/shm_server_message/ShmServerFileMessage.cpp:5-7 | the first eight bytes of the segment become the size, or the write throws when the segment is shorter |
| `ShmMessages.ReadSize` | tiny_file/shared/src/shm_server_message/ShmServerFileMessage.cpp:9-11 | the size read is the one the first eight bytes encode |
| `ShmMessages.ShmDataMessage.Write` | tiny_file/shared/src/shm_client_message/ShmClientDataMessage.cpp:8-14 | after a successful write the segment holds header and data; a segment without room for both keeps at most the header |
| `ShmMessages.ShmDataMessage.Parse` | tiny_file/shared/src/shm_server_message/ShmServerDataMessage.cpp:16-18 | the size field becomes the encoded size |
| `ShmMessages.ShmDataMessage.CopyData` | tiny_file/shared/src/shm_server_message/ShmServerDataMessage.cpp:22-27 | succeeds exactly when both the buffer and the segment are long enough, and then copies exactly the data part |
| `ShmMessages.WrittenMessage` | tiny_file/shared/src/shm_client_message/ShmClientDataMessage.cpp:8-27 | what was written is parsed back: the size and then the very bytes |
| `SharedSegments.ContiguousShmSegment.Write` | tiny_file/shared/src/shm/ContiguousShmSegment.cpp:7-13 | in bounds it overwrites exactly that range and no byte outside the segment; out of bounds nothing changes |
| `SharedSegments.ContiguousShmSegment.Read` | tiny_file/shared/src/shm/ContiguousShmSegment.cpp:15-21 | in bounds it copies exactly that range; out of bounds the destination keeps its contents |
| `SharedSegments.FragmentedShmSegment.constructor` | tiny_file/shared/src/shm/FragmentedShmSegment.cpp:8-14 | the size is the sum of the parts |
| `SharedSegments.FragmentedShmSegment.FlatByte` | tiny_file/shared/src/shm/FragmentedShmSegment.cpp:16-44 | byte q of part i is the byte of the flat buffer that has the sizes of the parts before it and q in front of it |
| `SharedSegments.FragmentedShmSegment.Write` | tiny_file/shared/src/shm/FragmentedShmSegment.cpp:16-44 | on the concatenation of the parts it is one overwrite at the given offset, it succeeds exactly when the range fits, and it touches no byte outside the parts; every delegated write is in bounds |
| `SharedSegments.FragmentedShmSegment.Read` | tiny_file/shared/src/shm/FragmentedShmSegment.cpp:46-74 | it returns exactly that slice of the concatenation, or leaves the destination alone when the range does not fit |
| `SharedSegments.FragmentedShmSegment.WriteRound` | tiny_file/shared/src/shm/FragmentedShmSegment.cpp:19-37 | one round of the loop keeps flat buffer, progress and remaining offset in step, in all three branches |
| `SharedSegments.FragmentedShmSegment.ReadRound` | tiny_file/shared/src/shm/FragmentedShmSegment.cpp:49-67 | the same for reading |
| `SharedSegments.FragmentedShmSegment.GetSegmentIds` | tiny_file/shared/src/shm/FragmentedShmSegment.cpp:76-83 | the ids of the parts in order |
| `SharedSegments.OverwritePart` | tiny_file/shared/src/shm/FragmentedShmSegment.cpp:19-37 | overwriting inside one part is overwriting the concatenation at the shifted place, for any parts |
| `SharedSegments.ScatterStep` | tiny_file/shared/src/shm/FragmentedShmSegment.cpp:24-36 | placing the next piece of the data extends the part of the flat buffer already written |
| `SharedSegments.GatherStep` | tiny_file/shared/src/shm/FragmentedShmSegment.cpp:54-66 | the next piece read extends the part of the slice already copied |
| `SegmentPool.GrantTakesLowest` | tiny_file/shared/src/shm/ShmManager.cpp:79-87 | a grant of r bytes is exactly the r / rep lowest free segments in ascending order, with nothing of the request left over |
| `SegmentPool.GrantConserves` | tiny_file/shared/src/shm/ShmManager.cpp:71-89 | a grant keeps live grants disjoint, their complement free and availableSize equal to the free bytes |
| `SegmentPool.ReleaseConserves` | tiny_file/shared/src/shm/ShmManager.cpp:111-118 | so does a release |
| `SegmentPool.RunsConserve` | tiny_file/shared/src/shm/ShmManager.cpp:71-118 | so does every run of requests and releases |
| `SegmentPool.EveryByteAccountedFor` | tiny_file/shared/src/shm/ShmManager.cpp:14-53 | in every run from start-up the available size lies between 0 and the total, and with no live grant the pool is as it was at start-up |
| `SegmentPool.WaitingImpliesLiveGrant` | tiny_file/shared/src/shm/ShmManager.cpp:76-77 | a request that fits the pool waits only while some non-empty grant is live |
| `ShmManagers.ShmManager.constructor` | tiny_file/shared/src/shm/ShmManager.cpp:14-53 | segment i lies in mapping i / n at i % n times the segment size, for n segments in a mapping, and all are free |
| `ShmManagers.ShmManager.LaidOut` | tiny_file/shared/src/shm/ShmManager.cpp:42-53 | slot q of mapping s holds segment s * n + q, at q times the segment size, for the n segments that fill a mapping |
| `ShmManagers.ShmManager.IdsAscend` | tiny_file/shared/src/shm/ShmManager.cpp:42-53 | ids ascend with mapping and address, and the next id in a mapping is next in memory |
| `ShmManagers.ShmManager.GrantByte` | tiny_file/shared/src/shm/ShmManager.cpp:79-102 | byte q of the i-th segment of a grant or view is its byte i times the segment size plus q |
| `ShmManagers.ShmManager.PlacedApart` | tiny_file/shared/src/shm/ShmManager.cpp:46-51 | different virtual segments share no byte, in one mapping or across mappings |
| `ShmManagers.ShmManager.GetShmSegment` | tiny_file/shared/src/shm/ShmManager.cpp:71-89 | refuses exactly the sizes that are no multiple of the segment size, grants exactly when enough is available, and then the pool moves by one grant and the returned segment is valid, of that size, over those segments |
| `ShmManagers.ShmManager.TakeSegments` | tiny_file/shared/src/shm/ShmManager.cpp:79-87 | the loop stops with the lowest free segments taken and the sizes subtracted |
| `ShmManagers.ShmManager.ReleaseShmSegment` | tiny_file/shared/src/shm/ShmManager.cpp:111-118 | gives one live grant back to the pool |
| `ShmManagers.ShmManager.GiveBack` | tiny_file/shared/src/shm/ShmManager.cpp:113-116 | exactly the listed segments become free and their bytes available |
| `ShmManagers.ShmManager.GetShmSegmentView` | tiny_file/shared/src/shm/ShmManager.cpp:91-102 | succeeds exactly when the ids are distinct and free; on failure the ids before the offending one stay marked |
| `SizeSelection.SelectionIsWholeSegments` | tiny_file/service/src/scheduling/Scheduler.cpp:266-292 | both selections give a whole number of segments between one and all of them, at most the fair share and the file rounded up, reaching one of the two when nothing wraps |
| `SizeSelection.SelectionIsLeast` | tiny_file/service/src/scheduling/Scheduler.cpp:266-292 | unless a sum wraps, the size is the least whole number of segments that holds the file or reaches the fair share, which is the quotient rounded down |
| `SizeSelection.SelectionIsGrantable` | tiny_file/service/src/scheduling/Scheduler.cpp:266-292 | the selected size is never refused, waits only while another grant is live, and with 4 workers and up to 6128 segments its response fits a queue slot |
| `ResponseCodec.ResponseRoundTrip` | tiny_file/shared/src/mq_server_message/MQServerRequestMessage.cpp:4-42 | decoding the image of any request id and id list, followed by anything, gives it back in order |
| `ResponseCodec.BufferRoundTrip` | tiny_file/shared/src/mq_server_message/MQServerRequestMessage.cpp:4-16 | decoding a readable buffer and encoding again restores all of it but the type field |
| `ResponseCodec.ImageLayout` | tiny_file/shared/src/mq_server_message/MQServerRequestMessage.cpp:31-42 | byte by byte: type 1 at 0, request id at 4, count at 8, id j at 16 + 4j, each least significant byte first, negative ints as two's complement |
| `ResponseCodec.Serialize` | tiny_file/shared/src/mq_server_message/MQServerRequestMessage.cpp:31-42 | the buffer filled field by field is the image of the message, 16 + 4n bytes long |
| `ResponseCodec.Deserialize` | tiny_file/shared/src/mq_server_message/MQServerRequestMessage.cpp:4-16 | the loop reads every announced id |
| `Bytes.ImageBytes` | tiny_file/shared/src/mq_server_message/MQServerRequestMessage.cpp:35-37 | byte i of the image of a size or an int is the number over 256^i, modulo 256 |
| `Bytes.SizeRoundTrip` | tiny_file/shared/src/mq_server_message/MQServerRequestMessage.cpp:35-37 | the eight bytes of a size_t decode to it |
| `Bytes.IntRoundTrip` | tiny_file/shared/src/mq_server_message/MQServerRequestMessage.cpp:32-34 | the four bytes of an int decode to it, negative ones included |
| `HandOver.ShareMemory` | tiny_file/shared/src/shm/ShmManager.cpp:71-102 | a grant, sent as a response and mapped by the client, leaves server and client with segments over the same bytes; the client refuses exactly when one of the segments is in use there |
| `HandOver.PassMessage` | tiny_file/shared/src/shm_client_message/ShmClientDataMessage.cpp:8-27 | a data message written through one segment object and parsed and copied through the other arrives whole, exactly when the segment has room for header and payload |
| `HandOver.WriteThenRead` | tiny_file/shared/src/shm/FragmentedShmSegment.cpp:16-74 | what one side writes at an offset the other side reads there, across the two segment objects |
| `SharedSegments.SamePlacesSameBytes` | tiny_file/shared/src/shm/FragmentedShmSegment.cpp:46-74 | two segments cut in the same places read as the same flat buffer |
| `HandOver.Offer` | tiny_file/shared/src/shm/ShmManager.cpp:71-89 | a grant together with a response whose bytes name exactly its segments |
| `HandOver.Accept` | tiny_file/shared/src/mq_server_message/MQServerRequestMessage.cpp:4-16 | the client recovers request id and ids and gets a view over those segments, exactly when it uses none of them |
| `SegmentPool.ReleaseUndoesGrant` | tiny_file/shared/src/shm/ShmManager.cpp:71-118 | releasing a grant right after it was made gives back the pool as it was |
| `CompressionRequest.Deliver` | tiny_file/service/src/ServiceFileCompressorHandler.cpp:72-111 | over the server's segment and the client's view, two objects of the same bytes, the client ends with the compressed file |
| `CompressionRequest.ReleaseBoth` | tiny_file/shared/src/shm/FragmentedShmSegment.cpp:85-87 | destroying both segments gives the server its pool back and adds the size to the client's available size, which the mapping had not lowered |
| `CompressionRequest.CompressFile` | tiny_file/service/src/scheduling/Scheduler.cpp:253-258 | one file through size selection, grant, response, view, interleaved transfer and release: the client has the compressed file if and only if the pool can grant the selected size and the client uses none of those segments; the server's pool and the client's marks are then as before, and the client's available size has drifted up; otherwise the pool is as before, or keeps a grant that the client refused to map |
| `ConcurrentTransfers.MoveIsLocal` | tiny_file/service/src/ServiceFileCompressorHandler.cpp:72-111 | a step of one transfer, writing anything to its segment, leaves the protocol state of every other transfer over the same memory as it is |
| `ConcurrentTransfers.RunsStayRight` | tiny_file/service/src/scheduling/Scheduler.cpp:242-258 | in every interleaving of grants, steps of any number of transfers and releases, each transfer is in a state it could have reached alone, and the pool is conserved |
| `ConcurrentTransfers.ReleasedMeansDelivered` | tiny_file/shared/src/shm/FragmentedShmSegment.cpp:85-87 | at every release in such a run that finds the token on the server's semaphore, the server has the file, the client has its compression, and the client will not touch the segments again |
| `ConcurrentTransfers.PatientMeansDelivered` | tiny_file/shared/src/shm/FragmentedShmSegment.cpp:85-87 | the same for any state in which every transfer is right |
| `ConcurrentTransfers.HastyReleaseHandsOn` | tiny_file/shared/src/shm/FragmentedShmSegment.cpp:85-87 | a release without the token leaves a client that will yet access the segments; from an exhausted pool the next grant of that size is made of those very segments |
| `ConcurrentTransfers.WorkShrinks` | tiny_file/service/src/ServiceFileCompressorHandler.cpp:72-111 | every event but the begin of a new transfer lowers a measure over all transfers that never goes below zero |
| `ConcurrentTransfers.NobodyWaitsForOthers` | tiny_file/service/src/ServiceFileCompressorHandler.cpp:72-111 | every transfer under way can take a step, or be released with the token back, whatever the others do |
| `CreditPolicy.RegisterConsistent` | tiny_file/service/src/scheduling/Scheduler.cpp:102-106 | registering keeps queues, credits and request count in agreement, wherever the hash table puts the client |
| `CreditPolicy.EnqueueConsistent` | tiny_file/service/src/scheduling/Scheduler.cpp:135-147 | so does a request of a registered client |
| `CreditPolicy.ServeConsistent` | tiny_file/service/src/scheduling/Scheduler.cpp:55-89 | so does a turn: afterwards each client is in exactly the queue of its standing, once, and is idle if and only if nothing of it waits |
| `CreditPolicy.DeregisterConsistentIffIdle` | tiny_file/service/src/scheduling/Scheduler.cpp:115-124 | removing a client keeps the agreement if and only if nothing of it waits |
| `CreditPolicy.WaitingBySign` | tiny_file/service/src/scheduling/Scheduler.cpp:14-26 | a client waits in the under queue exactly when it has a request and its credit is above zero, in the over queue exactly when it has one and its credit is not, and once |
| `CreditPolicy.RebuiltInOrder` | tiny_file/service/src/scheduling/Scheduler.cpp:62-89 | after a turn each queue is in the iteration order of the clients, but for the one just served, which is last |
| `CreditPolicy.NextTurn` | tiny_file/service/src/scheduling/Scheduler.cpp:201-228 | so the client of the next turn comes before every other that waits: positive credit first, then iteration order, the one just served last of its sign |
| `CreditPolicy.TurnIsReady` | tiny_file/service/src/scheduling/Scheduler.cpp:201-228 | while requests are counted there is a head of a queue, it is registered and has a request; a client without positive credit is served only when no waiting client has any |
| `CreditLists.EraseIsWithout` | tiny_file/service/src/scheduling/Scheduler.cpp:33-45 | erasing through the stored position removes that client and nobody else |
| `CreditLists.PushAppends` | tiny_file/service/src/scheduling/Scheduler.cpp:14-26 | a client linked anew is at the end of the queue of its credit sign, and its position names its own node |
| `CreditLists.Round` | tiny_file/service/src/scheduling/Scheduler.cpp:62-73 | a round of the loop turns the queues from old members not yet visited plus visited ones in order into the same with one more visited |
| `CreditLists.ChargeRebuilds` | tiny_file/service/src/scheduling/Scheduler.cpp:55-89 | at the end each queue is the waiting other clients of its sign in iteration order, then the served client if it still waits |
| `CreditSchedulers.CreditScheduler.constructor` | tiny_file/service/src/scheduling/Scheduler.cpp:91-92 | an empty scheduler satisfies the invariant |
| `CreditSchedulers.CreditScheduler.RegisterClient` | tiny_file/service/src/scheduling/Scheduler.cpp:102-106 | a new client is idle with its priority as credit; one that exists is left alone |
| `CreditSchedulers.CreditScheduler.DeregisterClient` | tiny_file/service/src/scheduling/Scheduler.cpp:115-124 | the invariant survives exactly when the client had nothing waiting; an unknown client changes nothing |
| `CreditSchedulers.CreditScheduler.Enqueue` | tiny_file/service/src/scheduling/Scheduler.cpp:135-147 | stores and counts the request first; for an unknown client it then throws and leaves the stale request and count behind, which breaks the invariant |
| `CreditSchedulers.CreditScheduler.EnqueueCredit` | tiny_file/service/src/scheduling/Scheduler.cpp:14-26 | links an idle client by the sign of its credit, and leaves any other where it is |
| `CreditSchedulers.CreditScheduler.DequeueCredit` | tiny_file/service/src/scheduling/Scheduler.cpp:33-45 | unlinks the node the client points at |
| `CreditLists.RoundsRebuild` | tiny_file/service/src/scheduling/Scheduler.cpp:62-73 | the rounds of the loop, taken together, keep that half-way form of a rebuild from its start to its end |
| `CreditLists.ScheduleIsServe` | tiny_file/service/src/scheduling/Scheduler.cpp:55-89 | unlinking, all rounds and the tail on the linked lists amount to the turn of the list-free policy, and every iterator still names its own node |
| `CreditSchedulers.CreditScheduler.ChargeOthers` | tiny_file/service/src/scheduling/Scheduler.cpp:62-73 | the loop over the client map, which unlinks and relinks in place while it runs, does one round for each client but the served one, in iteration order |
| `CreditSchedulers.CreditScheduler.ScheduleClient` | tiny_file/service/src/scheduling/Scheduler.cpp:55-89 | serves the first request of a client that has one, else throws; the new state is that of the list-free policy |
| `CreditSchedulers.CreditScheduler.ScheduleCredit` | tiny_file/service/src/scheduling/Scheduler.cpp:201-228 | with requests counted, it returns the first request of the head client and keeps the invariant; neither a read of an empty queue nor an exception can occur |
| `CreditFairness.RunsStayConsistent` | tiny_file/service/src/scheduling/Scheduler.cpp:14-228 | after every run of registrations, requests, turns and idle deregistrations the invariant holds, and a counted request can be served |
| `CreditFairness.EveryRequestOnceInOrder` | tiny_file/service/src/scheduling/Scheduler.cpp:55-60 | in every run what a client sent is what was served of it followed by what waits: first in, first out, exactly once |
| `CreditFairness.Ledger` | tiny_file/service/src/scheduling/Scheduler.cpp:62-74 | in every run a credit is p + p/64 times the cost of what others were served less the cost of what it was served, counted since it registered |
| `CreditFairness.LedgerInBytes` | tiny_file/service/src/scheduling/Scheduler.cpp:62-74 | in bytes: credit beyond priority, times 16536 and the number of workers, is the priority over 64 times the bytes others were served, less the bytes served to the client |
| `CreditLag.LagIsBounded` | tiny_file/service/src/scheduling/Scheduler.cpp:62-74 | when nobody leaves, all wait at each turn and the rivals of each have 64 priority points, credits sum to at least the priorities and none is as low as minus the cost of the largest file |
| `CreditLag.OverNeverServed` | tiny_file/service/src/scheduling/Scheduler.cpp:205-228 | under the same conditions the over queue is never served |
| `CreditLag.EqualPrioritiesEqualService` | tiny_file/service/src/scheduling/Scheduler.cpp:62-74 | two clients of priority 64 are served numbers of bytes that differ by less than 64 * 16536 * workers plus the largest file |
| `CreditLag.TurnChangesSum` | tiny_file/service/src/scheduling/Scheduler.cpp:62-74 | a turn moves the sum of all credits by exactly the rivals' points above 64, or below, times the price of the file at one point |
| `CreditLag.TurnKeepsSum` | tiny_file/service/src/scheduling/Scheduler.cpp:62-74 | so a turn never lowers the sum when the rivals of the served client have 64 points |
| `CreditSinking.SumFalls` | tiny_file/service/src/scheduling/Scheduler.cpp:62-74 | for any clients, while those that are served have rivals of fewer than 64 points and no file is empty, the sum of credits falls at every turn by a fixed positive amount |
| `CreditSinking.CreditsBoundedIff` | tiny_file/service/src/scheduling/Scheduler.cpp:62-74 | for n clients of one priority p, all busy at each turn, credits have a lower bound if and only if (n - 1) * p is at least 64 |
| `CreditWaiting.WaitBetweenTwo` | tiny_file/service/src/scheduling/Scheduler.cpp:55-89 | between two clients, the bytes the one is served before its last turn ahead of the other cost less than its credit when the wait began; without empty files that many turns and one is the limit |
| `CreditStarvation.ThirdClientStarves` | tiny_file/service/src/scheduling/Scheduler.cpp:62-87 | for any three or more clients in any iteration order, any number of workers and any file size, a reachable state from which the third client, waiting and with credit, can be passed over any number of times |
| `CreditStarvation.EmptyFilesStarve` | tiny_file/service/src/scheduling/Scheduler.cpp:62-87 | for any two or more clients in any iteration order and any number of workers, a reachable state from which the second waits and can be passed over any number of times by empty files of the first |
| `CreditWaiting.StarvationFreeIff` | tiny_file/service/src/scheduling/Scheduler.cpp:55-89 | every wait in every reachable state is bounded if and only if there is at most one client, or there are two and no file is empty |
| `RoundRobins.RoundRobinScheduler.Enqueue` | tiny_file/service/src/scheduling/Scheduler.cpp:135-147 | stores and counts the request, then throws exactly for a client that is not registered; a new key may go anywhere in the iteration order |
| `RoundRobins.CursorStays` | tiny_file/service/src/scheduling/Scheduler.cpp:135-139 | a request, wherever its key is inserted, leaves the cursor at the same client, or at the end |
| `RoundRobins.RoundRobinScheduler.Scan` | tiny_file/service/src/scheduling/Scheduler.cpp:169-177 | either loop serves the first waiting client from the cursor on, or ends at the end with nothing changed |
| `RoundRobins.RoundRobinScheduler.ScheduleRoundRobin` | tiny_file/service/src/scheduling/Scheduler.cpp:165-191 | both loops together serve the nearest waiting client going round; the exception for no requests is never reached while any are counted |
| `RoundRobins.CountedIsReady` | tiny_file/service/src/scheduling/Scheduler.cpp:190-190 | a positive request count means that some client waits |
| `RoundRobins.RunsStayConsistent` | tiny_file/service/src/scheduling/Scheduler.cpp:135-191 | in every run the count is the number of waiting requests and the cursor is valid |
| `RoundRobins.EveryRequestOnceInOrder` | tiny_file/service/src/scheduling/Scheduler.cpp:169-189 | first in, first out, exactly once, per client, in every run |
| `RoundRobins.WaitingIsBounded` | tiny_file/service/src/scheduling/Scheduler.cpp:135-191 | in every run, requests with new keys included, a client that waits is passed over fewer times than there are clients, counted with the keys inserted meanwhile, and by no other client twice |
| `RoundRobins.NextIsNearest` | tiny_file/service/src/scheduling/Scheduler.cpp:169-189 | no waiting client lies between the cursor and the one served, going round |
| `ServicerProtocol.ThrowsIff` | tiny_file/client/src/Servicer.cpp:156-189 | in every state of the invariant a lookup fails if and only if it is a wait for an id never issued or already handed over; so with one waiter per id none does |
| `ServicerProtocol.InvariantKept` | tiny_file/client/src/Servicer.cpp:109-253 | every critical section keeps the window counted and bounded by the workers, the queue a contiguous interval, the map exactly queued, in flight and done, and every result right |
| `ServicerProtocol.RunsKeepInvariant` | tiny_file/client/src/Servicer.cpp:109-253 | so it holds after every interleaving of callers, dispatcher, server and workers |
| `ServicerProtocol.FlightsChange` | tiny_file/client/src/Servicer.cpp:203-253 | between its pop and its completion an id only moves from one place to the next |
| `ServicerProtocol.IdsAreSerial` | tiny_file/client/src/Servicer.cpp:109-154 | the k-th file given gets id k, under any interleaving |
| `ServicerProtocol.SentInOrder` | tiny_file/client/src/Servicer.cpp:232-243 | the n-th request popped is that of the n-th file given, under any interleaving |
| `ServicerProtocol.AnswersInOrder` | tiny_file/client/src/Servicer.cpp:191-201 | the ids workers take up, read off the running handlers, followed by those received and those still in the message queue, are the ids the server has answered, in its order |
| `ServicerProtocol.ClaimsAreRight` | tiny_file/client/src/Servicer.cpp:156-189 | a wait for id k hands over the compression of the k-th file given |
| `ServicerProtocol.StepsAreBounded` | tiny_file/client/src/Servicer.cpp:203-269 | in every run the steps taken plus the steps left are six for each call |
| `ServicerProtocol.SomebodyCanMove` | tiny_file/client/src/Servicer.cpp:191-269 | while anything is unfinished the dispatcher, the server or a worker can take a step that does not throw |
| `ServicerProtocol.QuietMeansDone` | tiny_file/client/src/Servicer.cpp:203-216 | when nothing is left to do no request is in flight and every id issued has its result or was handed over |
| `ServicerProtocol.SentOffInvariant` | tiny_file/client/src/Servicer.cpp:232-252 | any number of rounds of the send loop within the window keeps the invariant |
| `Servicers.Servicer.CallServiceAsync` | tiny_file/client/src/Servicer.cpp:148-154 | hands out the next id and records the file under it |
| `Servicers.Servicer.PopRequest` | tiny_file/client/src/Servicer.cpp:232-243 | takes the oldest queued id, counts it, and cannot fail to find it |
| `Servicers.Servicer.SendRequest` | tiny_file/client/src/Servicer.cpp:244-252 | hands the popped id to the server, and keeps the invariant whatever happened since the pop |
| `Servicers.Servicer.SendRequests` | tiny_file/client/src/Servicer.cpp:229-253 | without interference it sends the oldest ids until the window is full or the queue empty, and no more |
| `Servicers.Servicer.ReceiveResponse` | tiny_file/client/src/Servicer.cpp:255-269 | moves the oldest reply behind the responses: one round of the receive loop as an action of its own |
| `Servicers.Servicer.ReceiveResponses` | tiny_file/client/src/Servicer.cpp:255-269 | moves all replies, in order, behind the responses already there |
| `Servicers.Servicer.ScheduleRequest` | tiny_file/client/src/Servicer.cpp:191-201 | gives a free worker the oldest response together with the file of its id; an empty queue gives none |
| `Servicers.Servicer.CompleteRequest` | tiny_file/client/src/Servicer.cpp:203-216 | stores the result under an id that is found, and frees a place in the window |
| `Servicers.Servicer.WaitServiceSync` | tiny_file/client/src/Servicer.cpp:156-189 | once the wait is over it returns the compression of the file given with the id and erases the entry, or throws exactly for an id never issued or already handed over |
| `EditDistance.GetLevenshteinDistance` | tiny_file/shared/include/ArgParse.hpp:503-523 | the table filled by rows holds, in each cell, the distance of the two prefixes |
| `EditDistance.DistanceIsLeast` | tiny_file/shared/include/ArgParse.hpp:503-523 | the distance is the least length of any script of insertions, deletions and replacements at any position; the diagonal shortcut loses nothing |
| `EditDistance.EditMovesByOne` | tiny_file/shared/include/ArgParse.hpp:516-519 | one edit anywhere in the first string moves the distance to any string by one at most |
| `EditDistance.NoShorterScript` | tiny_file/shared/include/ArgParse.hpp:503-523 | no script is shorter than the distance |
| `EditDistance.ShortestScript` | tiny_file/shared/include/ArgParse.hpp:503-523 | a script of that length exists |
| `EditDistance.ZeroIffEqual` | tiny_file/shared/include/ArgParse.hpp:503-523 | the distance is zero if and only if the strings are equal |
| `EditDistance.Symmetric` | tiny_file/shared/include/ArgParse.hpp:503-523 | the distance does not depend on the order of the strings |
| `EditDistance.Triangle` | tiny_file/shared/include/ArgParse.hpp:503-523 | a detour is never shorter |
| `EditDistance.GetMostSimilarString` | tiny_file/shared/include/ArgParse.hpp:526-541 | the first key, in the order of the map, of least distance; the empty string for an empty map |
| `DecimalLiteral.IsDecimalLiteral` | tiny_file/shared/include/ArgParse.hpp:1282-1419 | accepts exactly the strings derivable from the grammar in the comment, and every jump consumes input or goes down |
| `DecimalLiteral.Enter` | tiny_file/shared/include/ArgParse.hpp:1336-1366 | after the first switch what is left must be accepted at the label exactly when the whole string is a literal |
| `DecimalLiteral.Jump` | tiny_file/shared/include/ArgParse.hpp:1367-1419 | each labelled block preserves acceptance and makes progress |
| `DecimalLiteral.IntegerIsGreedy` | tiny_file/shared/include/ArgParse.hpp:1330-1334 | consuming all digits of an integer part at once loses no derivation |
| `DecimalLiteral.PostDecimalPointIsGreedy` | tiny_file/shared/include/ArgParse.hpp:1388-1393 | nor does consuming all digits after the point |
| `DecimalLiteral.IsPositional` | tiny_file/shared/include/ArgParse.hpp:1175-1195 | the rule in the comment, with any prefix character in the place of the dash |

## Left out

- Operating-system calls, object names, error paths of semaphores and message queues, threads, condition variables and the one-second poll: a wait is a guard, a queue is a list.
- Snappy: the compressor is an arbitrary function of the bytes, with no assumed size relation.
- Rounding of credits: they are real numbers.
- A client that reads on after its grant was released: `ConcurrentTransfers` follows a transfer up to the release. `HastyReleaseHandsOn` shows what a release without the token leaves behind; the bytes such a client would read are not modelled.
- Clients that register or leave during a wait under the credit policy: the results about waiting and about sinking credits are for a fixed set of clients.
- SharedSegments.ContiguousShmSegment.Write: the sum `offset + dataSize` of the bounds check is exact, where the source wraps at 2^64; the callers' sizes stay far below. Wrap-around is modelled in the size selection and in the chunk size.
- SharedSegments.ContiguousShmSegment.Read: the same sum is exact.
- SharedSegments.FragmentedShmSegment.Write: the same sum is exact.
- SharedSegments.FragmentedShmSegment.Read: the same sum is exact.
- Integer ids and counters wider than `int`: request ids, client ids and the request count do not overflow.
- The two data message classes are the same code and are modelled once, as `ShmMessages.ShmDataMessage`.
- Byte conservation on the client: `getShmSegment(ids)` does not lower the available size, so the conservation results are about the server; `CompressFile` states the client's drift.
- Ids outside the pool in `getShmSegment(ids)`: they are assumed in range, as they come from the server.
- ResponseCodec.Deserialize: a buffer shorter than the id count it announces is excluded by its precondition, because the source reads past the end of such a buffer.
- ShmManagers.ShmManager.constructor: segment sizes that do not divide the mapping are excluded by its precondition; the source then places the last segment of a mapping beyond its end.
- Rehashing of the hash maps: the order of iteration is a parameter at each insertion and otherwise stays. The round-robin cursor starts at the end and survives insertions.
- Deregistration under round-robin, where the cursor may point at the erased entry; and the credit queues under round-robin, where no client becomes idle again.
- CreditSchedulers.CreditScheduler.ScheduleCredit: the wait for a request is its precondition, and the handler with its grant is made by `SizeSelection` and `ShmManagers`.
- RoundRobins.RoundRobinScheduler.ScheduleRoundRobin: the wait for a request is its precondition, and the handler with its grant is made by `SizeSelection` and `ShmManagers`.
- CompressionRequest.CompressFile: a request that would wait for segments to be released ends with None, since nobody else acts during this method.
- Servicers.Servicer.ReceiveResponses: the view that the source maps for each response, and its refusal, are `GetShmSegmentView` and not repeated here.
- Servicers.Servicer.SendRequests: other threads may act between its rounds; that case is the interleaving of `PopRequest` and `SendRequest`.
- EditDistance.GetMostSimilarString: the keys are given as a list in the order of the map, shorter than the largest `size_t`.
- Registration and queue-management messages, `totalCredits`, `AbstractShmSegment::serialize`, logging, benchmarks and the rest of the argument parser: they would add only easy members.
