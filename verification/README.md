# Open MPI: communicators, byte transfer and datatypes

A Dafny model of the parts of the bundled Open MPI snapshot in which several pieces of code, or
several processes, have to agree. Each file models one C file or one mechanism of it.

| file | what it models |
|---|---|
| `CommCid.dfy` | Agreement on a context id by rounds of claim, MAX, check, MIN and commit; the blocking loop and the request-driven callbacks, all schedules of any number of processes |
| `CidInterleaving.dfy` | The sorted registration list and any interleaving of several allocations |
| `TreeAllreduce.dfy` | The hand-written tree allreduce with rendezvous messages |
| `TcpFrame.dfy`, `TcpReceive.dfy`, `TcpSend.dfy`, `TcpLink.dfy` | Message framing over a byte stream: partial writes, the send queue, partial reads, the read-ahead cache, and both ends together |
| `TcpConnect.dfy` | Simultaneous connects between two processes |
| `InterfaceSearch.dfy` | The exhaustive search for an interface assignment and what is made of it |
| `TypeMap.dfy`, `Constructors.dfy`, `Subarray.dfy`, `Darray.dfy`, `DarrayType.dfy` | Type maps, the constructors that merge blocks, and the multi-dimensional ones |
| `PackDescription.dfy` | Recording, packing and rebuilding descriptions of datatypes |
| `SeqTracker.dfy` | The list of ranges with a moving cursor |
| `Attributes.dfy` | Keyvals with reference counts and attributes with callbacks that may fail |
| `CommRequest.dfy`, `CommProgress.dfy` | Schedules of callbacks and subrequests and the progress function |
| `CommSplit.dfy`, `AllgatherEmulation.dfy`, `SplitProtocol.dfy` | Splitting a communicator, the allgather it needs between two groups, and both together |

Code that changes objects in place is a class or a method over arrays, proved against functions
on values; protocols are transition systems over those functions, and the theorems are about all
their runs. Collectives are atomic steps that need every participant; in `TreeAllreduce.dfy` and
`AllgatherEmulation.dfy`, which implement collectives, nothing is buffered: a send completes only
when its message is received. Reads and writes on sockets move any number of bytes. Callbacks are parameters: what they
return and what they do to the engine meanwhile.

`dafny verify dfyconfig.toml` checks everything.

## Where the code does not do what it is for

Each of these is proved with its exact condition or shown by an instance.

- The context-id loop agrees exactly when some id below the maximum is free everywhere; when there
  is none all take the maximum for an id or some are left waiting (`HowSchedulesEnd`, `ExhaustionStrandsAPeer`).
- A PUT whose segments are all empty is delivered exactly when a byte behind it is read
  (`HandedOverIff`, `EmptyPutWithheld`).
- The callback of a SEND without payload is shown whatever segment its fragment was left with
  (`ShownFaithfully`, `EmptySendShown`, `ReadBothAtOnce`).
- Choosing from the best assignment misses a usable interface pair exactly when that assignment has
  none (`Insert`, `EnoughPeers`, `FreePeerMissed`).
- The sequence tracker loses a range at the ends of the id space, exactly in two cases
  (`SeqTracker.Tracker.Insert`, `WrapLosesRange`).
- `hindexed_block` merges blocks by comparing bytes with elements (`CreateHindexedBlock`).
- A byte stride of -1 is taken for "the type's own extent" (`CreateHvector`, `BackwardBytes`).
- A CYCLIC dimension outside a BLOCK one can use a wrong distance (`CreateDarray`, `FitDecides`, `MixedGridWrong`).
- Merging the blocks of a struct can change the bounds (`MergeIff`, `MergeLosesBound`, `MergeUnderMark`).
- A description with RESIZED is not rebuilt; an INDEXED_BLOCK of fewer than two blocks and a DARRAY whose number of
  processes is not that of dimensions leave their arrays (`CreateKeepsArgs`, `FateIs`); an INDEXED_BLOCK of more than two
  blocks and a HINDEXED_BLOCK are rebuilt with integers recorded that nobody wrote (`RecordsRight`).
- Freeing a keyval twice breaks its count, exactly when it was not created again in between (`Attributes.Engine.Run`, `TwiceIff`, `SecondFreeBreaks`).
- A request reports success when its last callback succeeds, whatever earlier ones returned
  (`CompletedOnce`).

## Model

| member | source | states |
|---|---|---|
| CommCid.AllocationAgrees | openmpi/ompi-trunk/ompi/communicator/comm_cid.c:238-318 | For any number of processes with any tables, blocking or not, every schedule that cannot be extended ends with every process holding the least id that was free in all tables, and every table is the original one plus that one slot: no reservation is left behind |
| CommCid.AllocationTerminates | openmpi/ompi-trunk/ompi/communicator/comm_cid.c:238-318 | Every schedule is finite, with a bound known before it begins |
| CommCid.WinNeedsCommonId | openmpi/ompi-trunk/ompi/communicator/comm_cid.c:252-318 | Conversely, no process ever wins an id below the maximum unless that id is the least one free everywhere |
| CommCid.HowSchedulesEnd | openmpi/ompi-trunk/ompi/communicator/comm_cid.c:252-318 | Whatever the tables, blocking or not: a schedule that cannot be extended ends with all holding the least common id, or there is none and either all take the maximum for an id or some gave up and the others gave up too or wait for ever for the vote |
| CommCid.ExhaustionStrandsAPeer | openmpi/ompi-trunk/ompi/communicator/comm_cid.c:270-277 | The last of these does happen: an instance of two processes, blocking, in which one leaves with an error and its peer waits for ever |
| CommCid.RunInv | openmpi/ompi-trunk/ompi/communicator/comm_cid.c:238-318 | Over every run: what each process holds in its table at each point of the round, that the processes are in the same round, and that the least common id is never passed over |
| CommCid.StepInv | openmpi/ompi-trunk/ompi/communicator/comm_cid.c:238-318 | Every step of every process and each reduction keeps that invariant |
| CommCid.StepOnCourse | openmpi/ompi-trunk/ompi/communicator/comm_cid.c:396-510 | No step, of the blocking loop or of the callbacks, advances the start of the search past the least common id |
| CommCid.VerdictDecidesLeast | openmpi/ompi-trunk/ompi/communicator/comm_cid.c:279-313 | The vote on a candidate is unanimous exactly when the candidate is the least common id, and no candidate is above it |
| CommCid.QuiescentMeansAgreed | openmpi/ompi-trunk/ompi/communicator/comm_cid.c:238-318 | If nobody can move, everybody has won the least common id: there is no deadlock |
| CommCid.RejectionSpendsCredit | openmpi/ompi-trunk/ompi/communicator/comm_cid.c:487-510 | A rejected round makes progress although only processes that hold the candidate advance their start: the one that proposed the maximum always does |
| CommCid.StepDropsMeasure | openmpi/ompi-trunk/ompi/communicator/comm_cid.c:396-510 | Every step lowers the measure that bounds all runs |
| CommCid.Scan | openmpi/ompi-trunk/ompi/communicator/comm_cid.c:254-261 | The local search returns the first free slot from the start on, or the maximum |
| CommCid.Process.Claim | openmpi/ompi-trunk/ompi/communicator/comm_cid.c:252-261 | In place: the scan claims the first free slot and proposes it |
| CommCid.Process.Check | openmpi/ompi-trunk/ompi/communicator/comm_cid.c:279-294 | In place: a process whose claim is not the candidate releases it and tries to claim the candidate |
| CommCid.Process.Settle | openmpi/ompi-trunk/ompi/communicator/comm_cid.c:302-318 | In place: commit on a unanimous vote, otherwise release the candidate and, if it was held, start after it |
| CommCid.Process.TestAndSet | openmpi/ompi-trunk/ompi/communicator/comm_cid.c:255-256 | A slot is claimed exactly when it was empty, and nothing else changes |
| CidRegistry.Registry.Register | openmpi/ompi-trunk/ompi/communicator/comm_cid.c:537-587 | In place: the id is inserted where the list stays sorted, unless a multi-threaded duplicate is refused |
| CidRegistry.Registry.Unregister | openmpi/ompi-trunk/ompi/communicator/comm_cid.c:589-606 | In place: one registration of the id is removed and the list stays sorted |
| CidRegistry.Registry.LowestCid | openmpi/ompi-trunk/ompi/communicator/comm_cid.c:608-620 | The head of the sorted list is the least registered id |
| CidRegistry.InsertedSorted | openmpi/ompi-trunk/ompi/communicator/comm_cid.c:543-581 | Insertion keeps the list sorted, strictly so for a new id |
| CidRegistry.InsertedContents | openmpi/ompi-trunk/ompi/communicator/comm_cid.c:543-581 | Insertion adds exactly one occurrence |
| CidRegistry.RemovedSorted | openmpi/ompi-trunk/ompi/communicator/comm_cid.c:595-601 | Removal keeps the list strictly sorted and takes away exactly that id |
| CidInterleaving.Reachable | openmpi/ompi-trunk/ompi/communicator/comm_cid.c:240-318 | In every state reached by any interleaving of any number of allocations: a slot is held by at most one of them, every claimed slot was free at the start, and every registration list is sorted and holds exactly the active allocations of its process |
| CidInterleaving.ActionKeepsInv | openmpi/ompi-trunk/ompi/communicator/comm_cid.c:240-318 | Every action of every allocation keeps that invariant |
| CidInterleaving.NoSharedId | openmpi/ompi-trunk/ompi/communicator/comm_cid.c:240-318 | Two allocations that share a process never commit the same id there, and a committed id was free at the start |
| CidInterleaving.MembersAgree | openmpi/ompi-trunk/ompi/communicator/comm_cid.c:296-318 | All members that commit an allocation commit the same id, whatever else is being allocated |
| CidInterleaving.OnlyOwnSlots | openmpi/ompi-trunk/ompi/communicator/comm_cid.c:279-318 | An action changes no slot that its own allocation does not hold before or after: nobody clears a slot of another |
| CidInterleaving.GateNeverDeadlocks | openmpi/ompi-trunk/ompi/communicator/comm_cid.c:244-250 | While allocations are unfinished and no process has run out of ids, the unfinished one with the least parent id can take a step: the registration gate cannot deadlock |
| CidInterleaving.LeastIsAtHead | openmpi/ompi-trunk/ompi/communicator/comm_cid.c:608-620 | That allocation is at the head of the list of every member that is still active |
| CidInterleaving.InterleavingsEnd | openmpi/ompi-trunk/ompi/communicator/comm_cid.c:240-318 | No interleaving of any number of allocations goes on for ever: its length is bounded by the numbers of allocations, processes and ids |
| CidInterleaving.InterleavingsFinish | openmpi/ompi-trunk/ompi/communicator/comm_cid.c:240-318 | An interleaving that cannot be extended, if allocations that share a process have different parents and nobody ran out of ids, has finished every allocation; that all members enter need not be assumed |
| CidInterleaving.ActionEnds | openmpi/ompi-trunk/ompi/communicator/comm_cid.c:240-318 | Every action lowers the measure behind that bound; a rejected candidate was proposed by a member that advances its start, whatever other allocations do to the tables |
| TreeAllreduce.AllreduceCorrect | openmpi/ompi-trunk/ompi/communicator/comm_cid.c:1468-1516 | For every group size and every associative and commutative operation, every execution with rendezvous messages is finite, and one that cannot go on has the reduction of all inputs, each counted once, at every rank |
| TreeAllreduce.NeverStuck | openmpi/ompi-trunk/ompi/communicator/comm_cid.c:1468-1516 | If no rank can move, all are done: no deadlock |
| TreeAllreduce.RootHoldsAll | openmpi/ompi-trunk/ompi/communicator/comm_cid.c:1479-1491 | What reaches the root, subtree by subtree, is the reduction of the inputs in rank order |
| TreeAllreduce.FrontierHoldsTail | openmpi/ompi-trunk/ompi/communicator/comm_cid.c:1469-1471 | The subtrees of the ranks k to 2k cover the ranks from k on, each once |
| TreeAllreduce.ExecutionInv | openmpi/ompi-trunk/ompi/communicator/comm_cid.c:1468-1516 | Over every execution each rank holds the value its position in the program calls for |
| TcpFrame.HeaderRoundTrip | openmpi/ompi-trunk/contrib/build-mca-comps-outside-of-tree/btl_tcp2_hdr.h:34-44 | Decoding an encoded header gives the header back |
| TcpFrame.WireLayout | openmpi/ompi-trunk/contrib/build-mca-comps-outside-of-tree/btl_tcp2_hdr.h:34-44 | Where each field lies: the tag, 1 for a SEND or 2 for a PUT, the count in two bytes and the size in four, then for a PUT its segments, each the address before the length, and the data |
| TcpFrame.SegmentsRoundTrip | openmpi/ompi-trunk/contrib/build-mca-comps-outside-of-tree/btl_tcp2.c:416-417 | Decoding encoded segment descriptors gives them back |
| TcpFrame.CutFlatten | openmpi/ompi-trunk/contrib/build-mca-comps-outside-of-tree/btl_tcp2_frag.c:270-274 | Payloads sent back to back are recovered by their lengths |
| TcpFrame.PrefixReveals | openmpi/ompi-trunk/contrib/build-mca-comps-outside-of-tree/btl_tcp2_frag.c:243-281 | A beginning of a message that holds its header, or its segments, tells them |
| TcpFrame.AnnouncedLength | openmpi/ompi-trunk/contrib/build-mca-comps-outside-of-tree/btl_tcp2_frag.c:243-281 | What a beginning of a message asks to read next never exceeds the message, and is exhausted only by the whole message |
| TcpReceive.Session | openmpi/ompi-trunk/contrib/build-mca-comps-outside-of-tree/btl_tcp2_endpoint.c:686-736 | For any cache size and any way the reads cut up a stream of well-formed SEND and PUT messages, without or with payload, the handler has delivered exactly the messages wholly read, but for a PUT without data at the end of what is read, in order; and each callback is shown its payload or, for a SEND without one, the segment its fragment was left with, which the messages, the places where read events began and what new fragments happen to hold determine |
| TcpReceive.Endpoint.ReceiveHandler | openmpi/ompi-trunk/contrib/build-mca-comps-outside-of-tree/btl_tcp2_endpoint.c:686-736 | In place: each readable event keeps that state, the cache is empty whenever the handler waits, and at least what the first read can return is read |
| TcpReceive.Endpoint.FragRecv | openmpi/ompi-trunk/contrib/build-mca-comps-outside-of-tree/btl_tcp2_frag.c:149-285 | In place: runs until the fragment holds exactly one message, or waits with an empty cache |
| TcpReceive.Endpoint.Pass | openmpi/ompi-trunk/contrib/build-mca-comps-outside-of-tree/btl_tcp2_frag.c:155-240 | In place: one transfer, from the cache or the socket, keeps fragment, cache and bytes taken from the socket in step |
| TcpReceive.Endpoint.CopyFromCache | openmpi/ompi-trunk/contrib/build-mca-comps-outside-of-tree/btl_tcp2_frag.c:164-182 | In place: cached bytes move to the vectors, copied or by reference, and fragment and cache together still hold the same bytes; an empty cache is back at its start |
| TcpReceive.Endpoint.ReadFromSocket | openmpi/ompi-trunk/contrib/build-mca-comps-outside-of-tree/btl_tcp2_frag.c:184-197 | In place: one read fills the vectors first and the cache with what is left over |
| TcpReceive.Endpoint.Advance | openmpi/ompi-trunk/contrib/build-mca-comps-outside-of-tree/btl_tcp2_frag.c:223-240 | In place: the vector pointers move past the bytes received |
| TcpReceive.Endpoint.NextVectors | openmpi/ompi-trunk/contrib/build-mca-comps-outside-of-tree/btl_tcp2_frag.c:242-283 | In place: with the vectors full the fragment is complete exactly when it holds the whole message and, for a PUT without data, something behind it is cached; otherwise the next vectors are what the message calls for |
| TcpReceive.Endpoint.Deliver | openmpi/ompi-trunk/contrib/build-mca-comps-outside-of-tree/btl_tcp2_endpoint.c:713-719 | In place: what is handed over is the next message of the stream, with the segment that the fragment holds |
| TcpReceive.Endpoint.Flush | openmpi/ompi-trunk/contrib/build-mca-comps-outside-of-tree/btl_tcp2_endpoint.c:708-732 | In place: fragments are handed over until the cache is empty |
| TcpReceive.BetweenDecides | openmpi/ompi-trunk/contrib/build-mca-comps-outside-of-tree/btl_tcp2_endpoint.c:706-732 | Between events the delivered list is decided by the bytes read: exactly the messages that lie wholly within them, but for a PUT without data that ends where they end |
| TcpReceive.HandedOverIff | openmpi/ompi-trunk/contrib/build-mca-comps-outside-of-tree/btl_tcp2_frag.c:242-283 | The exact condition: a message is handed over if and only if its last byte is read and, for a PUT without data, one byte more |
| TcpReceive.EmptyPutWithheld | openmpi/ompi-trunk/contrib/build-mca-comps-outside-of-tree/btl_tcp2_frag.c:263-283 | An instance: a single PUT of one empty segment is read whole and never handed over |
| TcpReceive.ChunkingIrrelevant | openmpi/ompi-trunk/contrib/build-mca-comps-outside-of-tree/btl_tcp2_frag.c:149-285 | Two receivers that read the same bytes in different chunks have delivered the same messages |
| TcpReceive.EverythingHandedOver | openmpi/ompi-trunk/contrib/build-mca-comps-outside-of-tree/btl_tcp2_frag.c:149-285 | When all is read, all is delivered, except a last PUT without data, which is not |
| TcpReceive.ShownFaithfully | openmpi/ompi-trunk/contrib/build-mca-comps-outside-of-tree/btl_tcp2_frag.c:246-262 | What a callback is shown is right if and only if the message is a PUT, its payload is not empty, or the segment left in its fragment has length 0, where that length is a function of the messages, of where events began and of what new fragments hold |
| TcpReceive.EmptySendShown | openmpi/ompi-trunk/contrib/build-mca-comps-outside-of-tree/btl_tcp2_frag.h:108-122 | For a SEND without payload, spelled out: in a new fragment it is shown right if and only if that fragment holds length 0; in the fragment of the message before, if and only if that was a PUT whose first segment is empty or a SEND without payload that was itself shown right |
| TcpReceive.EmptySendShownWrong | openmpi/ompi-trunk/contrib/build-mca-comps-outside-of-tree/btl_tcp2_frag.h:108-122 | A SEND without payload received into the fragment that last held a payload is shown a segment as long as that payload |
| TcpReceive.ReadBothAtOnce | openmpi/ompi-trunk/contrib/build-mca-comps-outside-of-tree/btl_tcp2_endpoint.c:713-728 | In place: that does happen: of a SEND with a payload and one without, read at once, the second is shown a segment as long as the first payload |
| TcpSend.Fragment.Advance | openmpi/ompi-trunk/contrib/build-mca-comps-outside-of-tree/btl_tcp2_frag.c:131-146 | In place: the vectors move past what was written, and are used up exactly when no byte is left |
| TcpSend.Fragment.Send | openmpi/ompi-trunk/contrib/build-mca-comps-outside-of-tree/btl_tcp2_frag.c:101-147 | In place: bytes written plus bytes left are unchanged, as many are written as the socket takes, and the answer is true exactly when it takes all that is left; otherwise the write was refused or partial |
| TcpSend.Endpoint.Send | openmpi/ompi-trunk/contrib/build-mca-comps-outside-of-tree/btl_tcp2_endpoint.c:238-282 | In place: a fragment is queued, written at once or refused, in every state; completion and callback are reported exactly when it may be written at once and the socket takes all of it, and nothing is written when it may not |
| TcpSend.Endpoint.SendHandler | openmpi/ompi-trunk/contrib/build-mca-comps-outside-of-tree/btl_tcp2_endpoint.c:760-803 | In place: any sequence of partial writes, with callbacks that submit more, keeps the order; a fragment stays current only when the last write was refused or partial, so with a socket that takes everything all fragments are finished; the send event is armed exactly while a fragment is current |
| TcpSend.Endpoint.CompleteCurrent | openmpi/ompi-trunk/contrib/build-mca-comps-outside-of-tree/btl_tcp2_endpoint.c:777-789 | In place: a written fragment is reported once and the next pending one becomes current |
| TcpSend.Endpoint.BecomeConnected | openmpi/ompi-trunk/contrib/build-mca-comps-outside-of-tree/btl_tcp2_endpoint.c:413-432 | In place: connecting makes the first queued fragment current and changes no order |
| TcpSend.Endpoint.StreamInOrder | openmpi/ompi-trunk/contrib/build-mca-comps-outside-of-tree/btl_tcp2_endpoint.c:238-282 | At any time the bytes on the socket are a prefix of the submitted fragments in order and cover all finished ones; connected without a current fragment, everything submitted is written |
| TcpSend.Endpoint.FinishedExactly | openmpi/ompi-trunk/contrib/build-mca-comps-outside-of-tree/btl_tcp2_endpoint.c:760-803 | A fragment is reported as finished exactly when its last byte is on the socket, for fragments that have bytes |
| TcpSend.Endpoint.Unfinished | openmpi/ompi-trunk/contrib/build-mca-comps-outside-of-tree/btl_tcp2_endpoint.c:770-789 | Of the first fragment not reported something is not written: none is kept after its last byte |
| TcpSend.SendVectors | openmpi/ompi-trunk/contrib/build-mca-comps-outside-of-tree/btl_tcp2.c:359-388 | The vectors of a SEND hold exactly its encoding, a message that the receiver takes |
| TcpSend.PutVectors | openmpi/ompi-trunk/contrib/build-mca-comps-outside-of-tree/btl_tcp2.c:399-429 | The vectors of a PUT hold exactly its encoding: header, destination segments, data; the receiver takes it exactly when there are one or two destinations, as long as the sources |
| TcpSend.GatherSources | openmpi/ompi-trunk/contrib/build-mca-comps-outside-of-tree/btl_tcp2.c:377-382 | The payload vectors are the source segments, and the size field is their total modulo 2^32 |
| TcpLink.WireIsReceivable | openmpi/ompi-trunk/contrib/build-mca-comps-outside-of-tree/btl_tcp2_endpoint.c:760-803 | Whatever the sender has written is a beginning of well-formed messages back to back, as the receiver demands |
| TcpLink.EndToEnd | openmpi/ompi-trunk/contrib/build-mca-comps-outside-of-tree/btl_tcp2_endpoint.c:686-803 | In place: the receiver, run on what the sender has written, delivers a beginning of what was submitted; once the sender is idle and everything written is read, it is all of it except a last PUT without data |
| TcpLink.SendFragment | openmpi/ompi-trunk/contrib/build-mca-comps-outside-of-tree/btl_tcp2.c:359-388 | A fragment made by send carries its message |
| TcpLink.PutFragment | openmpi/ompi-trunk/contrib/build-mca-comps-outside-of-tree/btl_tcp2.c:399-429 | So does one made by put |
| TcpConnect.SameSocket | openmpi/ompi-trunk/contrib/build-mca-comps-outside-of-tree/btl_tcp2_endpoint.c:338-381 | For two processes with distinct names, in every interleaving of connects, accepts, refusals, hang-ups and acks, both ends connected means both use the same socket, and a socket opened by the smaller-named side survives |
| TcpConnect.RunInv | openmpi/ompi-trunk/contrib/build-mca-comps-outside-of-tree/btl_tcp2_endpoint.c:338-381 | The invariant behind it holds over every run |
| TcpConnect.StepKeepsInv | openmpi/ompi-trunk/contrib/build-mca-comps-outside-of-tree/btl_tcp2_endpoint.c:338-381 | Every step keeps it |
| TcpConnect.ConnectionKept | openmpi/ompi-trunk/contrib/build-mca-comps-outside-of-tree/btl_tcp2_endpoint.c:338-411 | Nothing that can happen closes or replaces an established connection, and the hang-up of a connected peer is never seen |
| TcpConnect.NoHangup | openmpi/ompi-trunk/contrib/build-mca-comps-outside-of-tree/btl_tcp2_endpoint.c:389-411 | The peer of a connected endpoint holds the same socket |
| TcpConnect.OnlyLargerRefused | openmpi/ompi-trunk/contrib/build-mca-comps-outside-of-tree/btl_tcp2_endpoint.c:357-359 | Only the smaller-named side refuses a connection, and only while it holds one it opened |
| TcpConnect.NeverStuck | openmpi/ompi-trunk/contrib/build-mca-comps-outside-of-tree/btl_tcp2_endpoint.c:531-752 | While not both are connected and some socket is open, some step is enabled |
| TcpConnect.StepDropsMeasure | openmpi/ompi-trunk/contrib/build-mca-comps-outside-of-tree/btl_tcp2_endpoint.c:531-752 | Every internal step lowers a measure |
| TcpConnect.EveryScheduleConnects | openmpi/ompi-trunk/contrib/build-mca-comps-outside-of-tree/btl_tcp2_endpoint.c:531-752 | Once either side has begun, every schedule is finite and ends with both sides connected over one socket |
| TcpConnect.Endpoint.Accept | openmpi/ompi-trunk/contrib/build-mca-comps-outside-of-tree/btl_tcp2_endpoint.c:338-381 | In place: a socket is taken exactly when none is held, or when not connected and the peer has the smaller name; the socket it replaces is closed |
| TcpConnect.Endpoint.Close | openmpi/ompi-trunk/contrib/build-mca-comps-outside-of-tree/btl_tcp2_endpoint.c:389-411 | In place: closing drops the socket and resets the state |
| TcpConnect.Endpoint.RecvConnectAck | openmpi/ompi-trunk/contrib/build-mca-comps-outside-of-tree/btl_tcp2_endpoint.c:473-494 | In place: an answer connects, a hang-up closes |
| TcpConnect.Endpoint.StartConnect | openmpi/ompi-trunk/contrib/build-mca-comps-outside-of-tree/btl_tcp2_endpoint.c:531-611 | In place: the endpoint holds the socket it opened and waits for the connection or, if connected at once, for the answer |
| InterfaceSearch.Search.FindBest | openmpi/ompi-trunk/contrib/build-mca-comps-outside-of-tree/btl_tcp2_proc.c:591-595 | The search from `visit(0, -1, ...)` evaluates every permutation exactly once, leaves the work array zero, and ends with one that connects the most pairs and, of those, has the largest sum of qualities, counted in full over all rows |
| InterfaceSearch.Search.Visit | openmpi/ompi-trunk/contrib/build-mca-comps-outside-of-tree/btl_tcp2_proc.c:207-221 | In place: a call restores the work array and evaluates exactly the completions of the partial assignment, in order |
| InterfaceSearch.Search.EvaluateAssignment | openmpi/ompi-trunk/contrib/build-mca-comps-outside-of-tree/btl_tcp2_proc.c:175-205 | In place: the current assignment is recorded with the number of its pairs and the sum of their qualities over all rows if it beats the best one, which stays otherwise |
| InterfaceSearch.VisitsExactly | openmpi/ompi-trunk/contrib/build-mca-comps-outside-of-tree/btl_tcp2_proc.c:207-221 | The assignments visited below a partial one are its completions to permutations, without repetition |
| InterfaceSearch.BranchesExactly | openmpi/ompi-trunk/contrib/build-mca-comps-outside-of-tree/btl_tcp2_proc.c:214-217 | So are those of the positions tried from one on |
| InterfaceSearch.FoldIsBest | openmpi/ompi-trunk/contrib/build-mca-comps-outside-of-tree/btl_tcp2_proc.c:195-204 | Keeping the better one along a list leaves one that nothing in the list beats |
| InterfaceSearch.WholeSearch | openmpi/ompi-trunk/contrib/build-mca-comps-outside-of-tree/btl_tcp2_proc.c:207-221 | From the empty assignment these are all permutations |
| InterfaceSearch.Insert | openmpi/ompi-trunk/contrib/build-mca-comps-outside-of-tree/btl_tcp2_proc.c:590-637 | The interface pair chosen is free and connected. In the small case it is the first usable pair of the assignment that the weights decide, which none beats, and one is chosen if and only if that assignment has one; in the large case it is the best free pair, and one is chosen if and only if there is one. In both, one is chosen whenever fewer peers are in use than some assignment connects |
| InterfaceSearch.EnoughPeers | openmpi/ompi-trunk/contrib/build-mca-comps-outside-of-tree/btl_tcp2_proc.c:597-610 | The assignment found has a usable pair whenever some assignment connects more pairs than there are peers in use |
| InterfaceSearch.AssignedUnbeaten | openmpi/ompi-trunk/contrib/build-mca-comps-outside-of-tree/btl_tcp2_proc.c:195-221 | The assignment that the weights decide is a permutation that none beats: no other connects more pairs, or as many with a larger sum of qualities |
| InterfaceSearch.AssignedFirst | openmpi/ompi-trunk/contrib/build-mca-comps-outside-of-tree/btl_tcp2_proc.c:195-221 | Of several best assignments it is the one visited first: by the place of 1, then of 2, and so on |
| InterfaceSearch.VisitsInOrder | openmpi/ompi-trunk/contrib/build-mca-comps-outside-of-tree/btl_tcp2_proc.c:207-221 | That is the order in which the recursion visits the assignments |
| InterfaceSearch.WeightRaised | openmpi/ompi-trunk/contrib/build-mca-comps-outside-of-tree/btl_tcp2_proc.c:183-188 | Every row counts in full: raising the quality of one pair by d raises the total by d if the pair is assigned and by 0 if not, from 0 for qualities of 0 |
| InterfaceSearch.WeightCounts | openmpi/ompi-trunk/contrib/build-mca-comps-outside-of-tree/btl_tcp2_proc.c:183-188 | So the total is the size of a set with as many members for every pair as its quality |
| InterfaceSearch.ChooseAssigned | openmpi/ompi-trunk/contrib/build-mca-comps-outside-of-tree/btl_tcp2_proc.c:597-610 | The first local interface whose assigned peer is usable is taken and that peer marked in use; nothing is taken only if none is usable |
| InterfaceSearch.ChooseGreedily | openmpi/ompi-trunk/contrib/build-mca-comps-outside-of-tree/btl_tcp2_proc.c:612-635 | The pair taken is usable, of the highest quality among usable ones, and the first such pair |
| InterfaceSearch.FreePeerMissed | openmpi/ompi-trunk/contrib/build-mca-comps-outside-of-tree/btl_tcp2_proc.c:590-610 | An instance: one local interface and two peers, the better one in use, for which a usable pair exists and the peer is reported unreachable |
| SeqTracker.Replay | openmpi/ompi-trunk/ompi/class/ompi_seq_tracker.c:58-180 | Over every sequence of inserts and lookups of ids below 2^32 - 1, every lookup answers whether the id was inserted before, and the list is in its unique form |
| SeqTracker.Tracker.Insert | openmpi/ompi-trunk/ompi/class/ompi_seq_tracker.c:91-180 | In place: from any cursor, exactly the id is added and ranges stay sorted, disjoint and apart; otherwise, exactly when the unsigned arithmetic wraps at the cursor, the range at the cursor is overwritten |
| SeqTracker.Tracker.CheckDuplicate | openmpi/ompi-trunk/ompi/class/ompi_seq_tracker.c:58-83 | In place: answers membership from any cursor and moves the cursor to the range found |
| SeqTracker.Tracker.CopyFrom | openmpi/ompi-trunk/ompi/class/ompi_seq_tracker.c:183-198 | In place: copying into an empty tracker gives the same ranges and the same cursor |
| SeqTracker.WrapLosesRange | openmpi/ompi-trunk/ompi/class/ompi_seq_tracker.c:117-131 | In the wrapping case a whole range of ids is lost |
| SeqTracker.NeverLargest | openmpi/ompi-trunk/ompi/class/ompi_seq_tracker.c:117-131 | That case cannot arise for ids below 2^32 - 1 |
| SeqTracker.ListIsUnique | openmpi/ompi-trunk/ompi/class/ompi_seq_tracker.c:86-180 | A list of sorted ranges that do not touch is determined by the set it represents |
| SeqTracker.ListIsShortest | openmpi/ompi-trunk/ompi/class/ompi_seq_tracker.c:86-180 | No list of ranges for the same set is shorter |
| SeqTracker.SpliceAdds | openmpi/ompi-trunk/ompi/class/ompi_seq_tracker.c:117-143 | Joining an id to one range or to two neighbours adds exactly that id and keeps the form |
| TypeMap.AddElems | openmpi/ompi-trunk/opal/datatype/opal_datatype_add.c:103-240 | An addition appends `count` copies of the child, shifted by the displacement and multiples of the extent |
| TypeMap.AddTwice | openmpi/ompi-trunk/opal/datatype/opal_datatype_add.c:103-240 | Adding copies and then more right behind them is adding all at once, bounds included, for an extent that is not negative and a user-set lower bound that is not above the copies |
| TypeMap.MergeIff | openmpi/ompi-trunk/opal/datatype/opal_datatype_add.c:186-240 | For any extent: merging one run of copies with more behind them leaves the type unchanged if and only if the user has set the upper bound or what the first copies are rounded to does not lie above the end of all |
| TypeMap.PlaceNest | openmpi/ompi-trunk/opal/datatype/opal_datatype_add.c:88-100 | Copies of copies are copies at the sums of the displacements, the inner ones running fastest |
| TypeMap.RunConcat | openmpi/ompi-trunk/ompi/datatype/ompi_datatype_create_indexed.c:50-62 | Adjacent runs of copies join to one run |
| TypeMap.PlaceDiffers | openmpi/ompi-trunk/opal/datatype/opal_datatype_add.c:88-100 | Different displacements place a non-empty type differently |
| Constructors.CreateContiguous | openmpi/ompi-trunk/ompi/datatype/ompi_datatype_create_contiguous.c:27-41 | The elements are `count` copies, one extent apart |
| Constructors.CreateVector | openmpi/ompi-trunk/ompi/datatype/ompi_datatype_create_vector.c:35-64 | The elements are those of blocks added one by one, in order, exactly when the byte stride is not the special value -1 where it matters; the bounds are those of the lowest and the highest block, up to rounding |
| Constructors.CreateHvector | openmpi/ompi-trunk/ompi/datatype/ompi_datatype_create_vector.c:67-96 | The same for a stride in bytes |
| Constructors.BackwardBytes | openmpi/ompi-trunk/ompi/datatype/ompi_datatype_create_vector.c:84-91 | The special value does matter: two bytes at stride -1 |
| Constructors.CreateIndexed | openmpi/ompi-trunk/ompi/datatype/ompi_datatype_create_indexed.c:31-66 | Merging adjacent blocks keeps the type map: the elements are those of all blocks in order, and for an extent that is not negative the type is, with its bounds, that of adding every block by itself |
| Constructors.CreateHindexed | openmpi/ompi-trunk/ompi/datatype/ompi_datatype_create_indexed.c:69-104 | The same for displacements in bytes |
| Constructors.CreateIndexedBlock | openmpi/ompi-trunk/ompi/datatype/ompi_datatype_create_indexed.c:107-143 | The same for blocks of one length |
| Constructors.CreateHindexedBlock | openmpi/ompi-trunk/ompi/datatype/ompi_datatype_create_indexed.c:145-181 | Right exactly when the extent is 1, nothing is placed, or no two displacements look adjacent to the code, which compares bytes with a count of elements; the bounds are then those of adding every block by itself |
| Constructors.UnionBounds | openmpi/ompi-trunk/ompi/datatype/ompi_datatype_create_indexed.c:31-181 | The bounds that adding the blocks one by one gives are those of their union: the lower one is that of the lowest block, the upper one is at or above the end of every block, and is that of the highest if the user has set it |
| Constructors.BlocksDiffer | openmpi/ompi-trunk/ompi/datatype/ompi_datatype_create_indexed.c:164-177 | Blocks at different displacements give different type maps: a wrongly merged block is never harmless |
| Constructors.CreateStruct | openmpi/ompi-trunk/ompi/datatype/ompi_datatype_create_struct.c:30-91 | The type is that of adding, one after the other, the blocks with adjacent blocks of one type merged; its elements are those of all blocks in order, and it is the type of adding every block separately when no two neighbours have one type, or when no extent is negative and a lower bound that a block sets is not above the end of any block whose type sets none |
| Constructors.MergeLosesBound | openmpi/ompi-trunk/ompi/datatype/ompi_datatype_create_struct.c:77-91 | In place: an instance where the bounds differ: two adjacent blocks of extent -2 |
| Constructors.MergeUnderMark | openmpi/ompi-trunk/ompi/datatype/ompi_datatype_create_struct.c:77-91 | In place: an instance with positive extent: a lower mark above two adjacent blocks |
| Constructors.StridedContiguous | openmpi/ompi-trunk/ompi/datatype/ompi_datatype_create_vector.c:49-50 | Blocks exactly as far apart as they are long form one run |
| Subarray.CreateSubarray | openmpi/ompi-trunk/ompi/datatype/ompi_datatype_create_subarray.c:30-101 | For any number of dimensions and both orders, the elements are the old type at the linear offset of every multi-index of the box, fastest dimension innermost, with bounds 0 and product of sizes times extent |
| Subarray.BoxOnArguments | openmpi/ompi-trunk/ompi/datatype/ompi_datatype_create_subarray.c:62-84 | On the arguments: these positions are those of the elements whose index lies in the box, row by row for C order and column by column for Fortran order, in increasing order |
| Subarray.BoxType | openmpi/ompi-trunk/ompi/datatype/ompi_datatype_create_subarray.c:57-84 | The nested vectors give the box relative to its first element |
| Subarray.RelIsBox | openmpi/ompi-trunk/ompi/datatype/ompi_datatype_create_subarray.c:76-84 | Relative displacements plus the first one are the positions of the box |
| Subarray.IndicesExactly | openmpi/ompi-trunk/ompi/datatype/ompi_datatype_create_subarray.c:57-84 | The multi-indices enumerated are exactly those of the box, each once |
| Subarray.LinearInjective | openmpi/ompi-trunk/ompi/datatype/ompi_datatype_create_subarray.c:76-84 | Different multi-indices inside the array have different linear offsets |
| Subarray.BoxWithoutOverlap | openmpi/ompi-trunk/ompi/datatype/ompi_datatype_create_subarray.c:30-101 | The positions are those of the box, without repetition, inside the array |
| Subarray.Frame | openmpi/ompi-trunk/ompi/datatype/ompi_datatype_create_subarray.c:86-101 | The struct of lower mark, type and upper mark shifts the type and sets the bounds |
| Darray.Partition | openmpi/ompi-trunk/ompi/datatype/ompi_datatype_create_darray.c:157-283 | For every order, distribution and grid, every position of the global array is in the list of exactly one rank, once |
| Darray.OwnedExactly | openmpi/ompi-trunk/ompi/datatype/ompi_datatype_create_darray.c:40-152 | In one dimension a coordinate owns exactly the indices whose owner it is, each once, and every index has an owner in the grid |
| Darray.BlockOwned | openmpi/ompi-trunk/ompi/datatype/ompi_datatype_create_darray.c:38-70 | The block arithmetic gives exactly the indices of the block, whose length by default is the least that covers the dimension |
| Darray.LeastCovers | openmpi/ompi-trunk/ompi/datatype/ompi_datatype_create_darray.c:40-44 | That many blocks of a length cover the dimension if and only if the length is not below the default one |
| Darray.OwnedBlocks | openmpi/ompi-trunk/ompi/datatype/ompi_datatype_create_darray.c:38-152 | Stated by the block length that MPI asks for: what each coordinate owns, and that for BLOCK no list is longer than a block has to be |
| Darray.CyclicOwned | openmpi/ompi-trunk/ompi/datatype/ompi_datatype_create_darray.c:86-152 | So does the cyclic arithmetic: whole blocks and a shorter last one |
| Darray.OwnedIncreasing | openmpi/ompi-trunk/ompi/datatype/ompi_datatype_create_darray.c:30-155 | They are listed in increasing order |
| Darray.RankRoundTrip | openmpi/ompi-trunk/ompi/datatype/ompi_datatype_create_darray.c:185-195 | The coordinates computed from a rank are in the grid and lead back to the rank |
| Darray.CoordsRoundTrip | openmpi/ompi-trunk/ompi/datatype/ompi_datatype_create_darray.c:185-195 | The rank of coordinates leads back to them: the two are in one-to-one correspondence |
| Darray.GridCoords | openmpi/ompi-trunk/ompi/datatype/ompi_datatype_create_darray.c:185-195 | In place: the loop computes those coordinates; ranks are numbered row by row |
| Darray.RankIsRowMajor | openmpi/ompi-trunk/ompi/datatype/ompi_datatype_create_darray.c:185-195 | The rank of coordinates is their row-major position in the grid |
| Darray.GridMember | openmpi/ompi-trunk/ompi/datatype/ompi_datatype_create_darray.c:249-262 | A position is in a grid of rows exactly when each of its digits is in its row |
| Darray.GridDistinct | openmpi/ompi-trunk/ompi/datatype/ompi_datatype_create_darray.c:249-262 | Grids of distinct digits have distinct positions |
| Darray.OwnsByDigits | openmpi/ompi-trunk/ompi/datatype/ompi_datatype_create_darray.c:185-262 | A rank owns a position exactly when its coordinates are the owners of the digits, in either order |
| Darray.PositionsInside | openmpi/ompi-trunk/ompi/datatype/ompi_datatype_create_darray.c:264-277 | Positions lie inside the global array |
| DarrayType.RelGridIsGrid | openmpi/ompi-trunk/ompi/datatype/ompi_datatype_create_darray.c:257-265 | Relative displacements of nested types plus the first one are the grid of owned indices |
| DarrayType.BlockDim | openmpi/ompi-trunk/ompi/datatype/ompi_datatype_create_darray.c:29-73 | In place: a BLOCK dimension places copies at the owned indices, reports the first one, and leaves the extent of adding that many copies; the default block length is the least that covers the dimension |
| DarrayType.CyclicDim | openmpi/ompi-trunk/ompi/datatype/ompi_datatype_create_darray.c:76-155 | In place: a CYCLIC dimension places copies at the owned indices exactly when the extent of the type inside fits, or no block has a second element; it sets the extent to the span of the dimension |
| DarrayType.WholeAndRest | openmpi/ompi-trunk/ompi/datatype/ompi_datatype_create_darray.c:117-134 | In place: whole blocks and the shorter last block are placed at the displacements that the extent of the type inside gives |
| DarrayType.LaidRight | openmpi/ompi-trunk/ompi/datatype/ompi_datatype_create_darray.c:92-134 | The displacements a dimension uses are the right ones exactly when it is BLOCK, the extent of the type inside is what the inner dimensions span, blocks have one index, or the process owns at most one |
| DarrayType.ExtendsIff | openmpi/ompi-trunk/ompi/datatype/ompi_datatype_create_darray.c:92-134 | So the copies placed are the right ones exactly then, or when there is nothing to place |
| DarrayType.MixedGridWrong | openmpi/ompi-trunk/ompi/datatype/ompi_datatype_create_darray.c:56-66 | An instance: for a grid of 4 by 4 bytes, BLOCK inside CYCLIC(2), each over two processes, the rank 0 gets a type whose elements are not those it owns |
| DarrayType.ExtentMet | openmpi/ompi-trunk/ompi/datatype/ompi_datatype_create_darray.c:56-66 | The extent that a dimension meets is what the inner dimensions span if and only if all BLOCK dimensions inside it, up to the next CYCLIC one, belong wholly to the process |
| DarrayType.BlockExtent | openmpi/ompi-trunk/opal/datatype/opal_datatype_add.c:186-235 | A BLOCK dimension leaves the bounds of one copy and the strides in between, unless they are rounded |
| DarrayType.BuildDims | openmpi/ompi-trunk/ompi/datatype/ompi_datatype_create_darray.c:205-247 | In place: the loop over the dimensions nests them, fastest first, in both orders |
| DarrayType.FirstElement | openmpi/ompi-trunk/ompi/datatype/ompi_datatype_create_darray.c:257-262 | In place: the position of the first element |
| DarrayType.TypePositions | openmpi/ompi-trunk/ompi/datatype/ompi_datatype_create_darray.c:257-265 | What a rank lists is exactly the positions it owns |
| DarrayType.CreateDarray | openmpi/ompi-trunk/ompi/datatype/ompi_datatype_create_darray.c:157-283 | The elements are the old type at exactly the positions the rank owns if and only if every dimension meets a type with the right extent or there is nothing to place; for an old type of positive extent that needs no rounding, if and only if the arguments and the rank are of the kind that `FitDecides` describes; the bounds are those of the global array |
| DarrayType.FitDecides | openmpi/ompi-trunk/ompi/datatype/ompi_datatype_create_darray.c:157-283 | For an old type of positive extent that needs no rounding the condition is one on the arguments: some dimension is empty, or every CYCLIC dimension of which the process owns two indices, in blocks of more than one, has only BLOCK dimensions that belong wholly to the process between it and the next CYCLIC one inside |
| DarrayType.FittingGridsAreRight | openmpi/ompi-trunk/ompi/datatype/ompi_datatype_create_darray.c:157-283 | For any old type, also where bounds are rounded: every rank gets the right type in every grid in which each cyclic dimension with blocks of more than one index is the fastest or follows a cyclic one, all-BLOCK and all-CYCLIC grids among them |
| PackDescription.UnpackPack | openmpi/ompi-trunk/ompi/datatype/ompi_datatype_args.c:538-658 | For every tree, unpacking what was packed, followed by anything, consumes exactly the words packed and makes the same calls again, with DUP removed and the INTEGER combiners normalised, unless a call is not made again; the first such call, types before the calls on them, decides between NULL and an access outside an array |
| PackDescription.UnpackPackKids | openmpi/ompi-trunk/ompi/datatype/ompi_datatype_args.c:606-629 | The same for the types of a call: the first one not made ends it |
| PackDescription.NodeLayout | openmpi/ompi-trunk/ompi/datatype/ompi_datatype_args.c:426-490 | The parts of a packed call are read back from where they were written |
| PackDescription.CreateKeepsArgs | openmpi/ompi-trunk/ompi/datatype/ompi_datatype_args.c:660-779 | Every call but RESIZED, which gives NULL, is made again with its own integers, displacements and types, except an INDEXED_BLOCK of fewer than two blocks and a DARRAY whose number of processes is not that of dimensions, which write or read outside an array; what is recorded is its integers and, for INDEXED_BLOCK of more than two blocks and HINDEXED_BLOCK, some that nobody wrote |
| PackDescription.FateIs | openmpi/ompi-trunk/ompi/datatype/ompi_datatype_args.c:538-779 | A datatype comes back exactly when every call in the tree can be made again; NULL comes only from a RESIZED, an access outside an array only from a misplaced INDEXED_BLOCK or DARRAY |
| PackDescription.RecordsRight | openmpi/ompi-trunk/ompi/datatype/ompi_datatype_args.c:712-774 | What comes back has its own integers recorded everywhere if and only if no INDEXED_BLOCK in the tree has more than two blocks and no HINDEXED_BLOCK any |
| PackDescription.ThreeBlocks | openmpi/ompi-trunk/ompi/datatype/ompi_datatype_args.c:712-719 | An instance: three blocks come back as the same call with one integer too many recorded |
| PackDescription.OneBlock | openmpi/ompi-trunk/ompi/datatype/ompi_datatype_args.c:712-719 | An instance: one block is recorded past the end of the array |
| PackDescription.DarrayMisread | openmpi/ompi-trunk/ompi/datatype/ompi_datatype_args.c:739-750 | A DARRAY whose number of processes is not that of dimensions always reads or writes outside an array |
| PackDescription.AintsRoundTrip | openmpi/ompi-trunk/ompi/datatype/ompi_datatype_args.c:462-465 | Displacements survive being written as words |
| PackDescription.PackSize | openmpi/ompi-trunk/ompi/datatype/ompi_datatype_args.c:426-490 | A packed description takes exactly the computed size |
| PackDescription.PackInto | openmpi/ompi-trunk/ompi/datatype/ompi_datatype_args.c:426-490 | In place: the description is written from the given position on and nothing else in the buffer changes |
| PackDescription.PackCall | openmpi/ompi-trunk/ompi/datatype/ompi_datatype_args.c:447-488 | In place: header, displacements, type entries, integers and the types' own descriptions, in that layout |
| PackDescription.PackTypes | openmpi/ompi-trunk/ompi/datatype/ompi_datatype_args.c:475-487 | In place: entries of predefined types are their ids, others get the next index and their description |
| PackDescription.Registry.SetArgsOn | openmpi/ompi-trunk/ompi/datatype/ompi_datatype_args.c:112-256 | In place: recording a call stores its arguments, leaves all others as they were and sets a size that covers its description |
| PackDescription.Registry.GetPackDescription | openmpi/ompi-trunk/ompi/datatype/ompi_datatype_args.c:493-518 | In place: the description is packed into a buffer of the recorded size, which is never exceeded, and both are kept for later calls |
| PackDescription.Registry.DescriptionLength | openmpi/ompi-trunk/ompi/datatype/ompi_datatype_args.c:520-536 | In place: the length reported is that of the description, before or after it was packed |
| PackDescription.Registry.Rebuild | openmpi/ompi-trunk/ompi/datatype/ompi_datatype_args.c:538-658 | In place: what a registry packs is made again as `UnpackPack` says, after any calls |
| PackDescription.TotalCovers | openmpi/ompi-trunk/ompi/datatype/ompi_datatype_args.c:112-256 | The size computed when arguments are set covers the description, even where it counts shared types twice |
| Attributes.Engine.CreateKeyval | openmpi/ompi-trunk/ompi/attribute/attribute.c:524-569 | In place: the new key is the first unused one, with count 1; it fails exactly when all are used |
| Attributes.Engine.FreeKeyval | openmpi/ompi-trunk/ompi/attribute/attribute.c:621-650 | In place: exactly one count is released and the key is marked as freed, or gone with its last count; every count stays right exactly when the user has not freed this keyval before; the key disappears exactly when no object carries it |
| Attributes.Engine.SecondFreeBreaks | openmpi/ompi-trunk/ompi/attribute/attribute.c:638-644 | A second free of a keyval in use takes away the count of an object |
| Attributes.Engine.SetValue | openmpi/ompi-trunk/ompi/attribute/attribute.c:1095-1172 | In place: the attribute is set or replaced, with a new sequence number, unless the keyval is unusable or the delete callback of the old value fails; a new attribute is one more count, a replaced one none |
| Attributes.Engine.DeleteAttr | openmpi/ompi-trunk/ompi/attribute/attribute.c:938-1008 | In place: the attribute is removed and exactly its count released, exactly when it exists and its callback succeeds; a key goes only if the user has freed it |
| Attributes.Engine.DeleteAll | openmpi/ompi-trunk/ompi/attribute/attribute.c:1028-1090 | In place: callbacks are called latest set first; what stays is exactly what was set no later than some attribute whose callback fails, so the object is empty exactly when none fails; a keyval goes only if the user has freed it |
| Attributes.Engine.CopyAll | openmpi/ompi-trunk/ompi/attribute/attribute.c:823-930 | In place: exactly the attributes whose callback asks for it are copied, with the value it gives; it stops at the first callback that fails and says which |
| Attributes.Engine.GetValue | openmpi/ompi-trunk/ompi/attribute/attribute.c:1184-1216 | A value is found exactly when the object carries a live key |
| Attributes.Engine.Run | openmpi/ompi-trunk/ompi/attribute/attribute.c:524-1216 | In place: over any sequence of calls, with any answers of the callbacks, all counts are right until a successful free of a key that an earlier successful free named since its last creation; from the start on, counts are right at the end if and only if between any two successful frees of one key it was created again |
| Attributes.TwiceIff | openmpi/ompi-trunk/ompi/attribute/attribute.c:621-650 | No call is a second free if and only if between any two successful frees of one key that key was created again: a condition on the calls made and what they returned |
| Attributes.FreedByIs | openmpi/ompi-trunk/ompi/attribute/attribute.c:621-650 | By that account a key is freed exactly when some call freed it and no later one created it |
| Attributes.KeptIff | openmpi/ompi-trunk/ompi/attribute/attribute.c:1068-1080 | After deleting backwards up to the first failure, a key is left exactly when some attribute set at the same time or later has a failing callback |
| Attributes.SortedKeys | openmpi/ompi-trunk/ompi/attribute/attribute.c:1051-1066 | The keys of an object in the order they were set |
| Attributes.SetKeeps | openmpi/ompi-trunk/ompi/attribute/attribute.c:1095-1172 | A new attribute is one more count on its keyval, a replaced one is not |
| Attributes.DeleteKeeps | openmpi/ompi-trunk/ompi/attribute/attribute.c:992-1004 | Removing an attribute releases exactly the count it held; the keyval goes when that was the last |
| Attributes.CreateKeeps | openmpi/ompi-trunk/ompi/attribute/attribute.c:552-564 | A new keyval is carried by nobody |
| Attributes.ReleaseKeeps | openmpi/ompi-trunk/ompi/attribute/attribute.c:450-462 | A released keyval is destroyed exactly when nothing is due on it any more |
| CommRequest.CallbacksInOrder | openmpi/ompi-trunk/ompi/communicator/comm_request.c:91-152 | The callbacks called for a request are those of the items done with, each once, in the order they were appended, also by callbacks; for a complete request, all of them |
| CommRequest.CalledAfterItsSubrequests | openmpi/ompi-trunk/ompi/communicator/comm_request.c:111-128 | A callback is called only after the items before it are done with and its own subrequests are complete and freed |
| CommRequest.FreedOnce | openmpi/ompi-trunk/ompi/communicator/comm_request.c:111-120 | No subrequest is freed more often than it was given, and for a complete request exactly as often |
| CommRequest.CompletedOnce | openmpi/ompi-trunk/ompi/communicator/comm_request.c:134-139 | A request is completed once, as the last thing done for it; its error tells only of its last callback |
| CommRequest.PassKeeps | openmpi/ompi-trunk/ompi/communicator/comm_request.c:122-128 | An item is done with only when its subrequests are all freed, and the next one starts with all of its own |
| CommProgress.Engine.Run | openmpi/ompi-trunk/ompi/communicator/comm_request.c:91-168 | In any interleaving of appends, starts, completions and progress calls, with callbacks that do any of these and re-enter the progress function: no history is undone, every request keeps its invariant, the hook is registered, once, exactly while requests are active, and every step is the action asked for or a pass as described next |
| CommProgress.CompletesAfterItsItems | openmpi/ompi-trunk/ompi/communicator/comm_request.c:91-152 | In any such run, a request whose subrequests are complete and to which nothing more is appended is complete after exactly as many progress calls as it has items scheduled, whatever happens to others |
| CommProgress.Engine.Progress | openmpi/ompi-trunk/ompi/communicator/comm_request.c:91-152 | In place: a pass visits every active request once, does with at most one item of each, and with exactly one if its subrequests were complete; the callbacks called take the given results and actions in turn; a request is complete afterwards exactly when nothing is scheduled; re-entered, it does nothing |
| CommProgress.PassOutcome | openmpi/ompi-trunk/ompi/communicator/comm_request.c:122-138 | For every visit of a pass: what the callback called returned is what is appended to the results of its request, and the request, if completed in the pass, is so without error if and only if that is 0 or no callback was called |
| CommProgress.VisitedOnce | openmpi/ompi-trunk/ompi/communicator/comm_request.c:103-140 | Every request that is active when a pass begins has exactly one visit in it |
| CommProgress.ActionsDone | openmpi/ompi-trunk/ompi/communicator/comm_request.c:123-128 | A callback called in a pass runs with its item taken off and its result recorded, and everything it asks for is done, in its turn |
| CommProgress.EveryActionTakes | openmpi/ompi-trunk/ompi/communicator/comm_request.c:63-89 | What each of a list of actions is for holds after the whole list: the item is scheduled, the request active, the subrequest complete |
| CommProgress.Engine.PassAll | openmpi/ompi-trunk/ompi/communicator/comm_request.c:103-140 | In place: the traversal that looks up the next request first visits every request that was active, also when requests finish or are started meanwhile, and the callbacks take their results and actions in turn |
| CommProgress.Engine.Visit | openmpi/ompi-trunk/ompi/communicator/comm_request.c:106-139 | In place: one request is advanced, with what its callback returned appended to its results and the actions of the callback done, and, if nothing is left, completed, without error exactly if that is 0, and taken off the list |
| CommProgress.Engine.FreeFinished | openmpi/ompi-trunk/ompi/communicator/comm_request.c:111-120 | In place: complete subrequests are freed from the last one on, until one is not complete |
| CommProgress.Engine.ScheduleAppend | openmpi/ompi-trunk/ompi/communicator/comm_request.c:63-89 | In place: an item of at most two subrequests is appended; more are refused |
| CommProgress.Engine.Start | openmpi/ompi-trunk/ompi/communicator/comm_request.c:154-168 | In place: the request joins the active list and the hook is registered if it was not |
| CommProgress.PassStep | openmpi/ompi-trunk/ompi/communicator/comm_request.c:103-140 | One turn of the traversal: the requests already visited are not met again and the others still wait |
| CommSplit.ProcessesAgree | openmpi/ompi-trunk/ompi/communicator/comm.c:438-502 | All processes of one color compute the same list, those of different colors lists without a common rank, and every process is in its own |
| CommSplit.OneGroup | openmpi/ompi-trunk/ompi/communicator/comm.c:488-502 | The members and the order by (key, old rank) determine the list, whatever qsort does with it; so the two sides of an inter-communicator agree on each other's lists |
| CommSplit.NewRank | openmpi/ompi-trunk/ompi/communicator/comm.c:488-502 | A process's new rank is the number of processes of its color with a smaller key, or the same key and a smaller old rank, as a set |
| CommSplit.SortedIsGroup | openmpi/ompi-trunk/ompi/communicator/comm.c:479-502 | Any sorted permutation of the entries gives that list |
| CommSplit.MembersDecide | openmpi/ompi-trunk/ompi/communicator/comm.c:1829-1859 | Under the comparison, a strictly ordered list is given by its members |
| CommSplit.ComparesByKey | openmpi/ompi-trunk/ompi/communicator/comm.c:1829-1859 | The comparison of the sort is that by key and then by rank |
| CommSplit.GroupList | openmpi/ompi-trunk/ompi/communicator/comm.c:473-502 | In place: counting, filling, sorting and listing give exactly the ranks of the color, by ascending key and, for equal keys, by ascending old rank |
| CommSplit.Split | openmpi/ompi-trunk/ompi/communicator/comm.c:460-562 | The local and the remote list of the new communicator, each by ascending key and then by old rank, the error when nobody has the color, and whether the process belongs to it |
| AllgatherEmulation.EveryRunGathers | openmpi/ompi-trunk/ompi/communicator/comm.c:1333-1420 | For any two groups and values and any order of steps with unbuffered messages: every run is finite, one that is not over can go on, and a process that is done has its own group's values in rank order |
| AllgatherEmulation.NeverStuck | openmpi/ompi-trunk/ompi/communicator/comm.c:1333-1420 | No deadlock: while some process is not done, some step is enabled |
| AllgatherEmulation.MoveKeepsInv | openmpi/ompi-trunk/ompi/communicator/comm.c:1333-1420 | Every step keeps what has been received and sent in order |
| AllgatherEmulation.ContributionComesFirst | openmpi/ompi-trunk/ompi/communicator/comm.c:1373-1410 | The two messages between the two ranks 0, which carry the same tag, cannot be taken for each other |
| AllgatherEmulation.CastValue | openmpi/ompi-trunk/ompi/communicator/comm.c:1395-1405 | What rank 0 sends back is what the receivers' own group contributed |
| SplitProtocol.SplitBoth | openmpi/ompi-trunk/ompi/communicator/comm.c:414-632 | In place: both groups of an inter-communicator gather in any order of steps and every process splits on what it gathered, with any qsort: no process fails, processes of one color have one pair of lists, which the other group has the other way round, lists of different colors are disjoint, every process is in its own, and it is a member exactly when its color is defined and present on both sides |
| SplitProtocol.RightAgree | openmpi/ompi-trunk/ompi/communicator/comm.c:438-562 | That agreement follows from every process having the groups of its color on both sides |

## Left out

- CidInterleaving.NoSharedId: for ids below the maximum; what the exhaustion branch commits is the maximum, for which nobody looked for a free slot.
- CidInterleaving.GateNeverDeadlocks: while no process has run out of ids; a process that has run out leaves its peers waiting.
- CidInterleaving.InterleavingsFinish: with no bound on the free ids that rules out running out; for allocations whose parents differ where they share a process; creations on one parent have to be ordered by the user.
- TcpReceive.Session: for SEND, and PUT with one or two segments; a GET, which the code takes as complete after its header, is not modelled.
- TcpReceive.Endpoint.FragRecv: does not model the byte-order conversion of the header, interrupted system calls, socket errors or the end of the stream, and takes the fragment buffer to be large enough.
- TcpSend.Endpoint.Send: over one connection; closing keeps the current fragment, and what a later connection does with it is not modelled.
- TcpFrame.WireLayout: for processors that store the lowest byte first and need no conversion.
- TcpConnect.SameSocket: without socket errors; the retry after a failed connection is not modelled.
- InterfaceSearch.Insert: takes the weights as given; how they are derived from addresses and the choice of address within an interface are not modelled.
- DarrayType.CreateDarray: the condition is one on the arguments for a positive extent that needs no rounding; for others it speaks of the extents of the types met on the way. Extent -1, the value that stands for a type's own extent, is left out.
- Subarray.CreateSubarray: for extents other than -1, the value that stands for the type's own extent.
- Subarray.BoxType: likewise.
- PackDescription.UnpackPack: without the Fortran combiners, whose types count as predefined, and without alignment padding, which the packer inserts and the unpacker does not skip.
- PackDescription.Registry.Rebuild: does not model the byte swapping between unlike processors.
- Constructors.CreateVector: bounds for a byte stride other than -1, blocks that are not empty, and an extent that is not negative.
- Constructors.CreateIndexed: bounds for an extent that is not negative.
- Constructors.CreateStruct: where several merges happen, the conditions for the bounds of adding every block separately are sufficient; for one merge `TypeMap.MergeIff` is exact. The first loop, which only sizes the description, is not modelled.
- Attributes.Engine.CopyAll: callbacks do not use the attributes they are called for; the order of the hash table is arbitrary.
- CommProgress.Engine.Progress: does not model cancelling or returning a request to the free list while it is active.
- SplitProtocol.SplitBoth: takes what the allgather across the two groups delivers as given.
- AllgatherEmulation.EveryRunGathers: for two groups that are not empty; the code refuses an empty remote group.
- Overflow of C integers, except where the source relies on it (sequence ids, the size field of a message).
- Allocation failures and the error codes of calls that cannot fail here.
- Activation of communicators, topologies, process locality, error handlers and info.
- The merging of adjacent elements inside a type description and its optimised form: only the type map and the bounds are modelled.
- Predefined types, external representations, `match_size` and element counting.
- Sockets, interface discovery and the exchange of addresses.
