# Verification of the Judo server core

A Dafny model of the C++ socket server: its priority monitor around a linked queue, the server's
request drain and event sweep over a table of connections, the one-byte mode negotiation, the packet
framing, the table's parallel arrays, and the transactional logger. `dafny verify dfyconfig.toml`
checks everything.

## What is modelled

| File | Models |
|---|---|
| `Monitor.dfy` | `ConcurBlockingQueue` as a step relation: any number of threads, a program counter each, the three mutexes, the set parked on `m_con`, spurious wakeups, one step per lock, unlock, size test, queue access and notification |
| `Linearizability.dfy`, `LostWakeup.dfy`, `LowGate.dfy`, `Overtaking.dfy` | what holds over every run of that relation |
| `Queue.dfy`, `ConcurBlockingQueue.dfy` | the heap-linked queue, and the critical sections over it, each proved to do to the list what the monitor's step does to its sequence |
| `Capacity.dfy`, `Table.dfy`, `DualDynamicArray.dfy` | the parallel arrays: capacity and copying cost, contents as a map, and the class that refines both |
| `LogFormat.dfy`, `LoggyMcLogFace.dfy` | the template language with its meaning, the file with its write position, and the class |
| `Framing.dfy`, `Wire.dfy`, `Senders.dfy` | packets as a relation, the sending and receiving loops on byte buffers, and any number of threads on one connection |
| `Negotiation.dfy`, `ServerApi.dfy` | the mode byte protocol of two ends, with its handshake, over a channel that may lose bytes, and the public calls as transitions of flags and registered connections |
| `EventLoop.dfy`, `Turns.dfy`, `Teardown.dfy`, `JudoServer.dfy` | the sweep, whole turns of `run` in sequence, and the destructor's walk on values, and the server class with accept, connect, drain, poll, sweep, one turn of `run` composed of them, and teardown |

## How the code is read

Where the C++ text is undefined or slips, the model takes the evident intent:

- `index` in `judoRead_` (JudoServer.cpp:360) has no initial value; it starts at 0.
- The shift mask `0xCF` (JudoServer.cpp:327, 362, 363) keeps the certificate bits, while JudoServer.cpp:292
  uses `0x3F`. The packet size is 2^(mode & 0x3F) with an exponent from 6 to 15;
  `LiteralMaskIff` proves that the literal mask gives the same exponent exactly for modes without certificates.
- `buffer[0] == new_node->mode` (JudoServer.cpp:185) compares a `char` with a `uint8_t`. With a signed `char`
  no reply equals a mode of 128 or more. The model keeps this. README.md of the repository says a server can
  require client certificates; `ClientCertServersAcceptNobody` proves that such a server registers nobody,
  and `AgreementIff` that then neither end registers: the server closes the connection and the client, whose
  mode demands a handshake, fails in it (JudoServer.cpp:296-303).
- `run` keeps `poll_array` and `node_array` (JudoServer.cpp:447-448) across calls that may reallocate them; the
  model reads the table again.
- `run` hands uninitialised pointers to `dump` and passes pointers on to `load` (JudoServer.cpp:432-436); the
  model uses fresh locals. On an empty queue they stay null, as a nonblocking dump does not write them.
- The HIGH branch of `load` (ConcurBlockingQueue.cpp:146) does not type-check; it is read like the LOW one.
- `m_valid_functions` starts at 0 although LoggyMcLogFace.hpp:30 does not say so. The mask is the set of its bit numbers.

Inputs from outside are parameters: how an accept or connect goes (`AcceptEnv`, `ConnectEnv`), which reads
succeed (`ReadOk`), what `poll` returns (the number of entries with events, or -1), the time stamp of a log line.
A TLS handshake needs both ends in it; it succeeds or fails as a whole step of each end, the server's last, as in the
TLS 1.3 that JudoServer.cpp:142 asks for. One `read` returns one whole packet or fails. Hosts are little-endian.

## Model

| member | source | states |
|---|---|---|
| `Monitor.LockInvStep` | ConcurBlockingQueue.cpp:18-163 | every step of every operation keeps the lock discipline: each mutex is held by exactly the thread whose position says so, low before next before data, also when `m_data` is taken again after a wait |
| `Monitor.ReachableLockInv` | ConcurBlockingQueue.cpp:18-163 | the lock discipline holds in every state that any number of threads can reach, with spurious wakeups |
| `Monitor.MutualExclusion` | ConcurBlockingQueue.cpp:20-37 | at most one thread holds each mutex, and at most one LOW thread is past the low gate, even while it is parked |
| `Monitor.StuckIff` | ConcurBlockingQueue.cpp:65-79 | no thread can step if and only if `m_data` and `m_next` are free and every unfinished thread is parked or waits for a low gate whose owner is parked: there is no other deadlock |
| `Monitor.CanMoveIff` | ConcurBlockingQueue.cpp:18-163 | a thread can step without outside help exactly when its next statement can run or it is about to notify, whoever is parked |
| `Linearizability.LinInvStep` | ConcurBlockingQueue.cpp:18-163 | every step keeps the history in agreement with the queue contents and with each thread's progress |
| `Linearizability.ReturnedIsLinearized` | ConcurBlockingQueue.cpp:18-163 | every operation that returned committed exactly once between its call and its return, and its result is the one the sequential queue gives in commit order |
| `Linearizability.BlockingCommitsOnItems` | ConcurBlockingQueue.cpp:51-61 | a blocking dequeue or dump never commits on an empty queue, and takes the front item or all of them |
| `Linearizability.CommittedResults` | ConcurBlockingQueue.cpp:18-163 | what every committed operation returns, from the history alone: with q the items inserted and not yet removed, a dequeue, blocking or not, gives null if and only if q is empty and else the oldest item, a dump gives all of q, and only a load of nothing is refused |
| `Linearizability.FifoConservation` | Queue.cpp:39-96 | in every reachable state the items inserted in commit order are the items removed in commit order followed by the contents: nothing lost, duplicated or reordered |
| `Linearizability.ReplayConserves` | Queue.cpp:39-96 | the same conservation for every legal sequential history |
| `LostWakeup.CoveredStep` | ConcurBlockingQueue.cpp:24-37 | for programs outside the losing combinations, every step keeps: nobody parked, or the items are accounted for by woken consumers and the lock holder, or a dump or a sufficient notification is on its way |
| `LostWakeup.NoLostWakeup` | ConcurBlockingQueue.cpp:18-163 | for those programs every stuck state with unfinished work has an empty queue, under stealing, spurious wakeups and parking again |
| `LostWakeup.LostByLowEnqueue` | ConcurBlockingQueue.cpp:28-38 | a LOW enqueue does not notify: a run that leaves a HIGH blocking consumer parked beside an item |
| `LostWakeup.LostByLoad` | ConcurBlockingQueue.cpp:141-161 | a load of several nodes notifies once: a run that leaves the second consumer parked beside the rest of the chain |
| `LostWakeup.NoLostWakeupIff` | ConcurBlockingQueue.cpp:18-163 | the exact condition on the operations a program calls: no reachable stuck state with unfinished work holds items if and only if the program avoids three combinations |
| `LowGate.BarredIff` | ConcurBlockingQueue.cpp:28-31 | the other way to wait forever, with an empty queue: some reachable stuck state holds an unfinished insertion if and only if the program uses LOW both for a blocking consumer, which keeps the low gate while it is parked, and for an insertion |
| `LowGate.StuckNeedsBlocking` | ConcurBlockingQueue.cpp:51-58 | only programs with a blocking consumer can get stuck with work left |
| `LowGate.ShutForever` | ConcurBlockingQueue.cpp:65-79 | without HIGH insertions this state never ends: in every continuation, with any calls and spurious wakeups, the queue stays empty and every thread at the gate stays there |
| `LowGate.LowOnlyProgramsDeadlock` | ConcurBlockingQueue.cpp:149-154 | every program with a LOW blocking consumer and LOW but no HIGH insertions has a run after which some insertion never gets in |
| `Overtaking.FairIsRun` | ConcurBlockingQueue.cpp:20-22 | runs in which `m_next_to_access` is granted in request order are runs of the monitor |
| `Overtaking.FairInvStep` | ConcurBlockingQueue.cpp:29-37 | every fair step keeps, for every waiting HIGH thread: LOW commits since its request plus the one LOW thread still ahead are at most one |
| `Overtaking.AtMostOneLowOvertakes` | ConcurBlockingQueue.cpp:20-37 | with request-order grants, at most one LOW operation commits between a HIGH thread's request for `m_next` and its first hold of `m_data` |
| `Overtaking.UnfairOvertaking` | ConcurBlockingQueue.cpp:65-83 | without request-order grants there is no bound: for every n a run in which n LOW operations pass a waiting HIGH thread |
| `LinkedQueue.ChainIsDistinct` | Queue.cpp:39-53 | the nodes from head to tail are pairwise distinct: the list has no cycle |
| `LinkedQueue.ChainIsUnique` | Queue.cpp:39-96 | head and length determine the chain and its tail |
| `LinkedQueue.Queue.constructor` | Queue.cpp:11-16 | a new queue is empty |
| `LinkedQueue.Queue.Enqueue` | Queue.cpp:39-53 | appends one fresh node, keeps all others, and the value sequence grows by the datum at its end |
| `LinkedQueue.Queue.Load` | Queue.cpp:56-67 | refuses a count of 0 or less without change; otherwise the disjoint chain becomes the end of the list, node for node |
| `LinkedQueue.Queue.Dequeue` | Queue.cpp:71-85 | removes the first node and returns its value; the rest is the old list |
| `LinkedQueue.Queue.Dump` | Queue.cpp:88-96 | hands over exactly the old chain with its length as an int32 and leaves the queue empty |
| `LinkedQueue.MoveAll` | JudoServer.cpp:434-436 | dump then load transfers ownership: destination nodes are its old nodes followed by the source's, and the source is empty |
| `ConcurrentQueue.ConcurBlockingQueue.Enqueue` | ConcurBlockingQueue.cpp:24-34 | returns 0 and puts the item at the end of the list; this is the monitor's access step |
| `ConcurrentQueue.ConcurBlockingQueue.Dequeue` | ConcurBlockingQueue.cpp:51-61 | gives null if and only if the list is empty, and otherwise takes its front, blocking or not; this is the monitor's step |
| `ConcurrentQueue.ConcurBlockingQueue.Dump` | ConcurBlockingQueue.cpp:96-108 | hands over the whole chain with all its items and leaves the list empty; this is the monitor's step |
| `ConcurrentQueue.ConcurBlockingQueue.Load` | ConcurBlockingQueue.cpp:136-162 | returns -1 without change for a count of 0 or less, and otherwise 0 with the chain's items at the end; this is the monitor's step |
| `Capacity.CapInvAlways` | DualDynamicArray.cpp:22-82 | after any adds and removes the capacity is 16 * 2^k, holds the size, and is at most 32 or less than twice the size |
| `Capacity.CapIsFunctionOfSize` | DualDynamicArray.cpp:22-55 | above 16 elements two histories with the same size have the same capacity |
| `Capacity.CapNeverReturnsTo16` | DualDynamicArray.cpp:40-42 | a capacity that has reached 32 never falls below it again |
| `Capacity.GrowingIsLinear` | DualDynamicArray.cpp:22-37 | n adds to a fresh array copy fewer than 2n elements per array in total |
| `Capacity.FullArrayThrashes` | DualDynamicArray.cpp:40-54 | at a full array of C >= 32 elements, m add/remove pairs copy exactly 2 * C * m elements per array and come back to the same extent, because shrinking leaves no slack |
| `Capacity.FullArraysAreReached` | DualDynamicArray.cpp:58-63 | such full arrays are reached: 32 * 2^k adds fill one |
| `Table.SwapRemoveIsMultisetRemoval` | DualDynamicArray.cpp:76-79 | swap-removal takes away exactly one occurrence of the removed pair |
| `Table.AddIsMapUpdate` | DualDynamicArray.cpp:58-63 | adding an absent key is a map update |
| `Table.FindIsMapLookup` | DualDynamicArray.cpp:66-71 | the search result agrees with map lookup, present or absent |
| `Table.SwapRemoveIsMapRemoval` | DualDynamicArray.cpp:77-79 | swap-removal deletes that key and keeps every other key with its own partner |
| `Table.RemoveIsMapRemoval` | DualDynamicArray.cpp:74-82 | remove deletes the key, or nothing when it is absent |
| `Table.TableRefinesMap` | DualDynamicArray.cpp:22-82 | for every sequence of operations that adds only absent keys, the parallel arrays hold exactly the finite map |
| `DualArray.DualDynamicArray.constructor` | DualDynamicArray.cpp:8-13 | a new table is empty with capacity 16 |
| `DualArray.DualDynamicArray.GrowArrays` | DualDynamicArray.cpp:22-37 | doubles a full table in fresh arrays; the contents do not change |
| `DualArray.DualDynamicArray.ShrinkArrays` | DualDynamicArray.cpp:40-55 | halves a half-empty table above 16 elements; the contents do not change |
| `DualArray.DualDynamicArray.Add` | DualDynamicArray.cpp:58-63 | both arrays receive their half of the pair at the same new index; extent and copy count follow the specification |
| `DualArray.DualDynamicArray.Find` | DualDynamicArray.cpp:66-71 | the loop returns the first index that compares equal, or -1 |
| `DualArray.DualDynamicArray.Remove` | DualDynamicArray.cpp:74-82 | both arrays swap-remove the same index; an absent key changes nothing |
| `LogFormat.TokensUnparse` | LoggyMcLogFace.cpp:56-82 | splitting a template into characters and directives loses nothing |
| `LogFormat.InterpretMeans` | LoggyMcLogFace.cpp:56-87 | from any position the interpreter's result is the verdict on the remaining tokens with their rendering, on an error that of the tokens before the faulty one |
| `LogFormat.RenderPieces` | LoggyMcLogFace.cpp:56-82 | the rendering is, token by token, each character for itself and for the j-th directive what its own letter's interpreter makes of the j-th value |
| `LogFormat.LettersFillTable` | LoggyMcLogFace.cpp:39-41 | the valid letters are exactly the 26 places of the table |
| `LogFormat.VerdictIsLeftmost` | LoggyMcLogFace.cpp:60-75 | the verdict is 0 exactly when all directives are registered and match the value count; otherwise the leftmost unserved directive decides it |
| `LogFormat.LogMeaning` | LoggyMcLogFace.cpp:45-92 | success if and only if all directives are registered letters and their number is the value count, with the rendered template as text; otherwise the leftmost fault's own code |
| `LogFormat.LogOutcome` | LoggyMcLogFace.cpp:45-89 | what a call returns and leaves: 0 if and only if all directives are registered and match the value count, otherwise the code of the leftmost unserved directive or of values left over; the text before the position grows by stamp, rendered template and newline exactly when it is 0 |
| `LogFormat.PutPut` | LoggyMcLogFace.cpp:55-80 | writing in pieces is writing the whole, also over bytes left beyond the position |
| `LogFormat.PutOverwrites` | LoggyMcLogFace.cpp:61-74 | a write replaces what stands at its place and keeps the bytes beyond it, since seeking back does not truncate |
| `LogFormat.FailedCallsLeaveNoTrace` | LoggyMcLogFace.cpp:38-88 | over any run of calls, each with the interpreters registered by then, the bytes before the write position are the old ones followed by exactly the successful lines |
| `Logger.LoggyMcLogFace.constructor` | LoggyMcLogFace.cpp:13-32 | ready exactly when the file opened; no letter registered |
| `Logger.LoggyMcLogFace.AddInterpreter` | LoggyMcLogFace.cpp:38-43 | registers a lower-case letter and nothing else; other characters change nothing; the ready flag stays |
| `Logger.LoggyMcLogFace.Log` | LoggyMcLogFace.cpp:45-92 | the loop refines the template interpreter, never reads past the NUL or the values, and rolls the position back on each error |
| `Framing.Int32RoundTrip` | JudoServer.cpp:334-337 | an int32 written to a packet is read back unchanged |
| `Framing.Int32IsLittleEndian` | JudoServer.cpp:334-337 | the four bytes of an int32 stand least significant first |
| `Framing.TextSurvives` | JudoServer.cpp:338-345 | a NUL-free message is recovered as a C string from its padded form |
| `Framing.ReadFrom` | JudoServer.cpp:364-387 | a receiver in the middle of a message finishes with exactly it, or reports the lost connection when packets are missing |
| `Framing.RoundTrip` | JudoServer.cpp:327-387 | complete encodings followed by a proper part of another decode to exactly the complete messages, zero-padded |
| `Framing.RoundTripComplete` | JudoServer.cpp:327-387 | for every list of messages and packet size above 40, decoding the concatenated packets gives each message with its zeros |
| `Framing.CutStream` | JudoServer.cpp:364-387 | a stream cut at any packet boundary decodes to a prefix of the message list |
| `Framing.PacketArithmetic` | JudoServer.cpp:329-344 | packets * payload exceeds the length, receive writes stay within b * B, the terminator is just past the payload, and b * B fits int32 under the stated bound |
| `Wire.FillPayload` | JudoServer.cpp:338-345 | the payload bytes are the next message bytes and then zeros, without zeros for a negative size; the header stays |
| `Wire.PacketCount` | JudoServer.cpp:329 | the truncating division gives a packet count that fits int32 for every int32 size and packets of 64 bytes or more; 1 for a small negative size, none below |
| `Wire.FillPacket` | JudoServer.cpp:334-345 | the reused buffer holds packet i of n of the bytes taken, and the index stands where the next packet begins |
| `Wire.JudoSend` | JudoServer.cpp:324-356 | for every int32 size: a size of 0 or more puts exactly one encoding of the message behind what is on the wire; a negative one above minus a payload sends one whole payload of the caller's buffer; a lower one sends nothing |
| `Wire.JudoRead` | JudoServer.cpp:358-390 | for every stream of whole packets: the call is defined if and only if the announced buffer has room, and then returns what the stream's specification says inside that buffer, or -1 with the stream used up |
| `Wire.FitsIff` | JudoServer.cpp:377-385 | exactly which streams keep the writes in bounds: the first packet's count times the packet size is a nonnegative int32, and every packet that is read still has room for its payload |
| `Wire.OutOfOrderOverruns` | JudoServer.cpp:377-385 | the failing input: a first packet numbered 2 of 1 lets the second packet run past the buffer whenever packets are larger than 80 bytes, and not for smaller ones |
| `Wire.NegativeSizeSendsUnterminated` | JudoServer.cpp:329-345 | what the peer reads after a small negative size: one payload of the buffer with no terminating zero added |
| `Wire.SentStreamsFit` | JudoServer.cpp:377-385 | every stream that senders produce, cut off or not, stays inside the announced buffer |
| `Senders.WireInvStep` | JudoServer.cpp:325-353 | every packet-by-packet step of any thread keeps the wire a concatenation of complete encodings and a part of the lock holder's |
| `Senders.SendersDoNotInterleave` | JudoServer.cpp:325-353 | in every reachable state the wire is the encodings in lock order plus a part of the lock holder's message |
| `Senders.ReceiverGetsCompleted` | JudoServer.cpp:359-387 | the decoder recovers exactly the completed messages in lock order |
| `Negotiation.ServerAcceptsIff` | JudoServer.cpp:185 | the signed comparison accepts a reply if and only if it is the mode and the mode is below 128 |
| `Negotiation.ClientReaction` | JudoServer.cpp:254-284 | the client commits if and only if both certificate flags agree; each mismatch has its own code, and its 0xFF reply is accepted by no server |
| `Negotiation.OfferFlags` | JudoServer.cpp:154-165 | the offered byte carries the two requirement flags and the size exponent, recoverable from it |
| `Negotiation.ServerImpliesClient` | JudoServer.cpp:182-201 | in every run, with losses, timeouts and failed handshakes, a registered server means a client that registered the identical byte |
| `Negotiation.AgreementIff` | JudoServer.cpp:151-310 | when nothing is lost, a finished negotiation has registered both ends or neither, with the identical mode; both if and only if nothing mismatches and the mode is below 128; at 128 and above the server fails its comparison and the client its handshake |
| `Negotiation.MatchingEndsFail` | JudoServer.cpp:182-303 | the failing run: for every server that requires client certificates and the client that offers exactly its mode, five fault-free steps end with both ends failed, the client with the handshake code |
| `Negotiation.RefusalsAreExplained` | JudoServer.cpp:233-303 | in every finished fault-free run the client's error code is exactly the one of its missing files, of the first certificate flag that differs from the server's requirement, or of the handshake when the flags agree and client certificates are required; otherwise it is registered |
| `Negotiation.ReliableRunsEnd` | JudoServer.cpp:151-310 | a negotiation without faults takes at most six steps |
| `Negotiation.LiteralMaskIff` | JudoServer.cpp:327 | the mask as written gives the intended exponent if and only if the mode has no certificate flag |
| `Negotiation.EndToEnd` | JudoServer.cpp:154-390 | after a registration both ends derive the same packet size, 2 to the server's exponent and above 40, and framing round-trips over it |
| `Negotiation.SizesAreLarge` | JudoServer.cpp:16-17 | packet sizes run from 64 to 32768, and the default exponent 10 gives 1024 |
| `ServerApi.AcceptIsTlsSafe` | JudoServer.cpp:155-201 | a connection accepted with a certificate mode had its TLS fields filled |
| `ServerApi.ConnectIsTlsSafe` | JudoServer.cpp:236-310 | so has a connection made as a client, because a flag mismatch is refused |
| `ServerApi.TlsSafety` | JudoServer.cpp:72-103 | over every run of calls a certificate requirement implies TLS enabled, and every registered certificate connection has its TLS fields |
| `ServerApi.RequirementsFreeze` | JudoServer.cpp:85-103 | once the server runs, no call changes the requirements or the byte it offers |
| `ServerApi.ClientCertServersAcceptNobody` | JudoServer.cpp:164-185 | a server that requires client certificates registers no connection, whatever is replied |
| `ServerApi.CallsFollowProtocol` | JudoServer.cpp:151-322 | accept and connect, fed with each other's bytes, register or return the codes exactly as the finished protocol run says |
| `ServerApi.AcceptOutcome` | JudoServer.cpp:151-213 | for every state and environment: accept registers if and only if the TLS fields are filled when TLS is on, the write succeeds, the reply is the server's mode below 128, and a certificate mode's handshake succeeds; the code is 0 exactly then and otherwise that of the first failing step; the node has the offered mode and its TLS mark |
| `ServerApi.ConnectOutcome` | JudoServer.cpp:232-322 | for all arguments: connect registers if and only if no file is missing, the fields are filled for a certificate mode, the connection stands, the offer has both flags as wanted, and a certificate handshake succeeds; the code is 0 exactly then and otherwise that of the first failing step; the registered mode is the offer |
| `ServerApi.CallsRegister` | JudoServer.cpp:200-201 | accept and connect add what they return at the end of the registered connections and change nothing else |
| `ServerApi.ServerRequireOutcome` | JudoServer.cpp:85-93 | the call returns 0 if and only if TLS is enabled and the server does not run; it then sets its own bit, which puts 0x40 into the offered byte; otherwise -1 and no change |
| `ServerApi.ClientRequireOutcome` | JudoServer.cpp:95-103 | the same with its own bit and 0x80 |
| `ServerApi.SetUpOutcome` | JudoServer.cpp:72-83 | the call returns the filling's code and switches TLS on if and only if that is 0 |
| `ServerApi.TlsEnabledIff` | JudoServer.cpp:76-81 | TLS is enabled afterwards if and only if it was before or the filling succeeded; the requirements and the offered byte stay |
| `ServerApi.RunActivates` | JudoServer.cpp:428 | run marks the server active and nothing else; both requirement calls are refused from then on |
| `EventLoop.CompareAgrees` | ssl_node.cpp:21-23 | the comparison function tells descriptors apart |
| `EventLoop.ServerTableIsMap` | JudoServer.cpp:9 | the server's table, with that comparison, is a map from descriptors to connections for all calls that add only new descriptors |
| `EventLoop.StepDrop` | JudoServer.cpp:464-471 | dropping the entry under the index, with the last entry taking its slot, keeps the sweep invariant at the same index |
| `EventLoop.StepAccept` | JudoServer.cpp:458-462 | an accept that appends an entry keeps it, wherever the listening socket stands |
| `EventLoop.SweepEnds` | JudoServer.cpp:478-483 | when nothing ready is ahead, every ready entry was handled exactly once and the table is the old one minus dropped plus accepted |
| `EventLoop.EmptiedIff` | JudoServer.cpp:468-480 | a walk empties the table exactly when no entry survives: no listening socket, and every read fails |
| `EventLoop.AtAcceptIsOpen` | JudoServer.cpp:454-471 | the descriptors in the table when accept runs are those of the table less some whose read failed before |
| `EventLoop.BudgetSpent` | JudoServer.cpp:453-473 | the ready counter, which accepts do not decrease, reaches 0 only when nothing ready is left ahead |
| `EventLoop.PollCountIs` | JudoServer.cpp:450 | what poll reports is the number of entries with any event |
| `EventLoop.CountRemove` | DualDynamicArray.cpp:77-79 | a swap-removal lowers the number of ready entries ahead by exactly the removed one |
| `JudoServerClass.JudoServer.constructor` | JudoServer.cpp:8-28 | a fresh server: no mode flags, exponent 10, no connections, a valid and empty request queue |
| `JudoServerClass.JudoServer.Listening` | JudoServer.cpp:47-51 | the same with the listening socket as only entry, unless the address is empty |
| `JudoServerClass.JudoServer.JudoMakeServerSock` | JudoServer.cpp:53-70 | refuses an empty address without change; otherwise the listening socket is the next table entry |
| `JudoServerClass.JudoServer.JudoSetUpServerSockSSL` | JudoServer.cpp:72-83 | sets the TLS flag if and only if filling the fields succeeds |
| `JudoServerClass.JudoServer.JudoServerRequireCerts` | JudoServer.cpp:85-93 | sets the server requirement only with TLS and before the server runs, else -1 and no change |
| `JudoServerClass.JudoServer.JudoClientRequireCerts` | JudoServer.cpp:95-103 | the same for the client requirement |
| `JudoServerClass.JudoServer.JudoAccept` | JudoServer.cpp:151-213 | return code, registration and table entry on every path: TLS failure, write failure, wrong or missing reply, handshake failure, success |
| `JudoServerClass.JudoServer.JudoConnect` | JudoServer.cpp:232-322 | the same for a client connection, with every refusal code |
| `JudoServerClass.JudoServer.JudoDisconnect` | JudoServer.cpp:414-421 | removes exactly the entry with that descriptor |
| `JudoServerClass.JudoServer.WorkOff` | JudoServer.cpp:438-445 | the inner loop ends, handles every request once in order, and appends exactly the ADD_CONNECT entries |
| `JudoServerClass.JudoServer.TakeRequests` | JudoServer.cpp:432-436 | the local queue takes over the pending nodes themselves and the shared queue is empty |
| `JudoServerClass.JudoServer.Drain` | JudoServer.cpp:432-446 | one drain processes all requests pending at the dump in order; the table is the old one followed by the added entries |
| `JudoServerClass.JudoServer.Visit` | JudoServer.cpp:454-478 | one visit keeps the sweep invariant, including the index step back after a drop, tells when the end of the table is reached, and makes progress also when an accept lengthens the table |
| `JudoServerClass.JudoServer.Sweep` | JudoServer.cpp:452-483 | for every table with distinct descriptors, the listening socket anywhere or absent: the walk ends, and it stays in bounds if and only if some entry survives or nothing was reported; then each ready descriptor was served exactly once, the table is the old one minus failed reads plus the accepted connection with no input left marked but on the listening socket, and the server accepted exactly if that was ready |
| `JudoServerClass.JudoServer.Poll` | JudoServer.cpp:447-450 | gives every entry its events and returns how many have any, or -1; nodes and descriptors stay |
| `JudoServerClass.JudoServer.RunTurn` | JudoServer.cpp:432-483 | one whole turn of `run`, drain then poll then sweep, is a turn of the specification: all pending requests are processed in order; unless every connection is lost in the turn, every descriptor with input, also one just drained, is served exactly once, the connections are those before plus the requested ones, less the clients whose read failed, plus what `judoAccept_` registers, which is called if and only if the listening socket has input; a listening socket stays |
| `JudoServerClass.FirstTurn` | JudoServer.cpp:425-483 | from construction with an address and one queued connection through the first turn: whatever poll and read do, the turn is defined, the listening socket stays, and the connection stays exactly unless its read fails |
| `EventLoop.TurnEnds` | JudoServer.cpp:447-483 | a sweep after poll, stated on descriptors and their events alone |
| `Turns.TurnConserves` | JudoServer.cpp:432-483 | in a turn the connections before, requested and accepted are, counted with multiplicity, those after and those lost to a failed read |
| `Turns.RunConserves` | JudoServer.cpp:431-484 | over any number of turns the final connections are the initial ones plus all requested and accepted less all lost, also when descriptors are used again |
| `Turns.ListenerForever` | JudoServer.cpp:431-484 | a server that listens keeps its listening socket through every run, and no turn leaves the table |
| `Turns.RegisteredAreAccepted` | JudoServer.cpp:431-484 | over any run of turns the server registers exactly the accepted nodes in order, and its TLS safety is kept |
| `Turns.RequestsInOrder` | JudoServer.cpp:432-446 | with any number of threads putting requests in through the monitor, the turns handle them once each in the order of insertion, and the rest is still queued |
| `JudoServerClass.JudoServer.BeginRun` | JudoServer.cpp:428 | marks the server active, after which the requirement calls fail |
| `JudoServerClass.JudoServer.TearDown` | JudoServer.cpp:34-40 | for every table: the walk leaves it empty and releases one node per entry, in the order of the specification |
| `Teardown.ReleasedReverse` | JudoServer.cpp:35-40 | with distinct descriptors every node is released once, last to first |
| `Teardown.ReleasedOnceIff` | JudoServer.cpp:35-40 | no node is released twice if and only if the descriptors are distinct, because the source removes the first entry with the descriptor and not the one it stands on |
| `JudoServerClass.FindSelf` | DualDynamicArray.cpp:66-71 | with distinct descriptors, searching for an entry's own descriptor finds it where it stands |

## Left out

- JudoSend: takes a packet size of at least 64, the smallest the server uses, and a caller's buffer that holds the bytes the loop reads.
- JudoRead: says nothing beyond `defined` about streams for which the source allocates a negative or overflowing size or writes past its buffer. The read of one whole packet stands for `read` on a stream socket.
- Drain: requires fewer than 2^31 pending requests, since the queue's size is returned as an int32; it covers the requests found at the dump and not the lock, which the monitor model covers.
- Sweep: requires distinct descriptors, and that the accepted one is not in the table when accept runs; it may be one that the walk has closed. Where the source indexes -1 or an empty table, the result is only reported as not defined. A read is the success or failure of `judoRead_`, whose loop is proved separately in `Wire.JudoRead`.
- RunTurn: requires that requested descriptors are new and distinct, and takes the events of a failed `poll` as given. The results over several turns are about sequences of turns that each satisfy its contract; the loop itself, which ends after nine events, is not a method here.
- TearDown: releases a node again where the source does; what freeing it twice does to memory is not modelled.
- Log: models the write position without the int32 limit of `tellp`, and the time stamp as given text; it requires as many values as the caller announces.
- AtMostOneLowOvertakes: assumes that `m_next_to_access` is granted in request order, which `std::mutex` does not promise; `UnfairOvertaking` shows the assumption is needed.
- SslNode: connections and poll entries are values, so sharing one `ssl_node` between the table and a request is not captured, and the `events` field, always POLLIN, is not stored.
- Weak memory, the unlocked `getSize` of `ConcurBlockingQueue`, and waiting threads destroyed with the monitor.
- OpenSSL, certificate files, BIO pumping and the TLS form of a packet; the 32 trailing bytes of a packet are left open.
- Sockets, bind, listen and time limits, except as outcomes of accept, connect, read, write and poll.
- The 3073-byte greeting after accept, the "JeJeJe" message after connect, console output, and the calls of the logger inside the server.
- The counter `a != 9` that ends `run` after nine events, and the DISCONNECT and DO_HANDSHAKE requests, which `run` takes and ignores.
- `new` and `delete`, the destructor of `Queue` (it reads `next` before setting it, Queue.cpp:24), and use of a node after its disconnect.
- `ThreadPool`, `PriorityQueue`, the printing helpers of `ssl_node.cpp`, log file naming, and `main`.
