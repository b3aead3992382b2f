# Verified models of the mync and netlib networking code

This project models the protocols and data structures of the repository that can be
separated from the sockets, and proves what they are relied on for. The kernel, the
clock and the results of `accept`, `recv`, `send`, `write` and the io_uring completions
are unconstrained inputs: scripts of results, or steps that may happen in any order.

`dafny verify dfyconfig.toml` checks everything.

| file | models |
|---|---|
| `Handoff.dfy` | the hand-off of accepted sockets to worker threads (`mync/epollserver.*`) as a step system: each lock operation, atomic access and system call is one step, and every interleaving of the acceptor and any number of workers is a run; the kernel may reuse a descriptor as soon as it is closed |
| `HandoffSafety.dfy`, `HandoffBalance.dfy`, `HandoffScan.dfy` | ownership, exact counts, wakeups; how even the load balancer keeps the load; which worker it picks |
| `HandoffHandlers.dfy`, `EpollServer.dfy` | the same handlers run without interruption: as functions shown to be runs of the step system, and as methods of a class `Epoll` shown to compute those functions |
| `Framing.dfy`, `MessageParser.dfy` | the wire format and parser of `netlib/serialization.h` as functions, then the parser object and the send loops over a scripted socket |
| `UringRelay.dfy` | the completion-driven relay of `mync/io_uring.h`: a step function with its invariant, then the object whose handlers compute it |
| `FlatMap.dfy` | the open-addressing table |
| `Snowflake.dfy` | both snowflake id generators |
| `DoubleBuffer.dfy`, `FdRegistry.dfy`, `ThreadPool.dfy`, `Pacing.dfy` | the double-buffered map, the two-way socket registry, the coroutine thread pool, the 1 Gbit/s sending loop |
| `Arith.dfy`, `Common.dfy` | division, powers of two and bit operations; `Option` |

Where a class has a specification function, its methods' postconditions equate the whole
new state with that function of the old state, and the theorems are about the function.

## What was found

Some promises of the code do not hold as they stand. For each there is a lemma with a
concrete run, and where one exists the exact condition under which the promise does hold.

- `sendDataPkt` writes the header twice. When every send completes, the packet is never received as
  itself alone (`DoubledHeaderNeverRoundTrips`). It can arrive when a send fails, and `DeliversExactly` says
  when, for every send script: if the first header send moves no byte, exactly when the second header and the
  payload go out whole; otherwise exactly when the bytes sent begin with the packet's own and go on with none
  of a known type. `FirstHeaderLost` and `SecondHeaderLost` are two cases of it in terms of the sends alone,
  `FailureDelivers` and `HeaderByteDelivers` two scripts.
- `sendPacketPayload` ignores the result of sending the header; a reported success means
  the whole packet left exactly when that send had succeeded (`ReportedPacketIsWhole`, `HeaderCanBeLost`).
- `sendAuthResponce` ignores its last argument (`SendAuthResponse`).
- `readMessage` makes one parsing attempt per `recv`, so complete messages can be left in
  the buffer when the connection closes. `KeepsUp` says exactly when none are; `TwoFramesOneChunk` is the smallest case.
- `remove_client` decrements the counter for any descriptor; the count stays exact exactly
  when the descriptor is a registered client (`ForgetKeepsCount`).
- `SnowflakeIDGenerator` waits until the clock differs, not until it is later. Its ids increase
  exactly when no wait ends in the past (`IncreasingWhenForward`), so on any clock that does not step
  back (`SiblingIncreases`); `SiblingRepeats` repeats an id.
- The thread pool's destructor sets its flag without the mutex. Its notification can be followed by a
  hang exactly when a worker is between its test and its sleep at that moment (`HangsExactly`,
  `ShutdownCanHang`); otherwise the join always proceeds (`NotifyReachesAll`).
- The registry's 64-bit counter wraps. A registration keeps the containers consistent exactly when no
  other descriptor holds the id it gets (`Register`); an id is issued for the first time exactly when fewer than 2 to the 64
  were issued before (`NewExactly`). `WrapLosesConsistency` is a run that breaks the containers.
- A reader of the double buffer is safe until the second following update begins copying
  (`ReaderIsolated`); from any state where that copy is going on, its buffer may become anything (`SecondCopyReachesReader`).

## Assumptions

- The server has at least one worker (the acceptor never accepts otherwise), and hang-ups are
  reported only for the listener and for registered clients.
- `fullstop` runs after `exec` has returned, when no other thread uses the object.
- `ONE_THREAD_MODE` is off, as in the source; `add_fd` failing during the drain changes nothing in the model, as its result is not looked at there.
- An io_uring submission takes every queued entry, and a descriptor is not accepted under a number that is still open.
- Integers in frames are little-endian; `send` never takes more than it is offered; after the
  last scripted `recv` result the connection is closed.
- The lower bound on the sending rate assumes that a sleep of one millisecond takes less than two; the upper bound assumes nothing about sleeps.
- Clock readings for the id generators lie in the 41-bit window after their epoch. Outside it `MakeId`
  still wraps at 64 bits as the source does (`MinusWraps`, `ShlWraps`), but nothing is claimed of the ids.
- Line 71 of `testcontainer/n.h` has lost its `||` operators and is read as a disjunction.

## Model

| member | source | states |
|---|---|---|
| `HandoffSafety.ExactlyOneOwner` | mync/epollserver.cpp:115-135 | in every interleaving with descriptor reuse, an open accepted descriptor is held in exactly one place (acceptor's hand, a queue, a drainer's hand, a worker's clients, or being closed) and a number that is not open is held nowhere |
| `HandoffSafety.EmplaceInserts` | mync/epollserver.cpp:123-128 | every `clients.emplace` in the drain really inserts, and records the peer of the connection now open under that number |
| `HandoffSafety.ClosingIsSole` | mync/epollserver.cpp:383-393 | erase before close: while one thread is closing a descriptor, no map, queue or hand of any thread mentions it |
| `HandoffSafety.StepInv` | mync/epollserver.cpp:383-414 | every step of every thread keeps the locks exclusive, the counts exact, ownership single and the recorded peers current |
| `HandoffSafety.NoLostWakeup` | mync/epollserver.cpp:116-135 | a non-empty pending queue always has a positive eventfd, a pusher yet to write it, or a worker that has read it and not finished; in a quiet state with counter 0 the queue is empty |
| `HandoffSafety.ExactCount` | mync/epollserver.cpp:406-412 | `size_clients` equals clients plus pending plus the one in the drainer's hand at every instant, up to the one increment or decrement in progress |
| `HandoffBalance.ChosenStaysLeast` | mync/epollserver.h:161-169 | with the scan interleaved with disconnects, the chosen worker's counter at push time is still at most every value the scan read |
| `HandoffBalance.SpreadBound` | mync/epollserver.h:161-168 | over any run, two workers' counters differ by at most one plus the number of disconnects so far |
| `HandoffBalance.GreedyIsRoundRobin` | mync/epollserver.h:161-168 | without disconnects, least-loaded with first-minimum ties is a round robin: worker i of k has exactly (n + k - 1 - i) / k of n pushes, however drains interleave |
| `HandoffScan.QuietScanIsFirstLeast` | mync/epollserver.h:161-168 | from any state, whatever the other threads do short of a disconnect's decrement, the worker chosen is the first least of the counters at the accept |
| `HandoffScan.ScanPicksWinner` | mync/epollserver.h:161-168 | in every run, disturbed or not, the scan compares each further worker once, and only a smaller newcomer takes over from the best so far |
| `HandoffScan.AcceptRuns` | mync/epollserver.cpp:310-353 | from any state with an idle acceptor, a worker, free locks and a number not open, the acceptor alone takes the connection to the queue of the first least loaded worker, counts and signals it, and changes no other worker |
| `HandoffHandlers.WakeupRuns` | mync/epollserver.cpp:116-135 | the drain handler as a function is the run of its own steps, which a signalled worker can always take to the end |
| `HandoffHandlers.WakeupKeepsAll` | mync/epollserver.cpp:123-128 | from a reachable state, the drain loses no client and no queued connection, and the sizes add up |
| `HandoffHandlers.EmplaceAllLookup` | mync/epollserver.cpp:123-128 | for any queue, after the drain an entry that was there is unchanged, otherwise the first connection queued under the number is entered, and nothing else |
| `HandoffHandlers.ForgetRuns` | mync/epollserver.cpp:383-393 | `remove_client` as a function is the run erase, decrement, close |
| `HandoffHandlers.PushRuns` | mync/epollserver.cpp:406-415 | `push_external_socket` as a function is the run lock, enqueue, count, unlock, signal |
| `HandoffHandlers.ForgetKeepsCount` | mync/epollserver.cpp:383-393 | after `remove_client` the counter is exact if and only if the descriptor was a registered client |
| `EpollServer.Epoll.OnWakeup` | mync/epollserver.cpp:116-135 | the loop computes the drain function: the event counter is 0, the queue empty, and the map holds what was there and what was queued |
| `EpollServer.Epoll.PushExternalSocket` | mync/epollserver.cpp:406-415 | the connection goes to the end of the queue, the count and the event counter rise by one |
| `EpollServer.Epoll.RemoveClient` | mync/epollserver.cpp:383-393 | computes the forget function and closes that descriptor |
| `EpollServer.Epoll.Fullstop` | mync/epollserver.cpp:28-83 | closes the listening socket, each client once, each queued socket in order, then the loop's own descriptors; both containers end empty and the count 0 |
| `EpollServer.Epoll.FullstopAgain` | mync/epollserver.cpp:20-22 | a second stop, as the destructor makes, closes nothing |
| `EpollServer.FullstopClosesWhatItOwns` | mync/epollserver.cpp:41-66 | in every reachable state the clients and queue that a stop closes contain each descriptor exactly as often as the worker owns it, at most once, all open, and none owned by another thread |
| `EpollServer.CopyKeys` | mync/epollserver.cpp:42-51 | the copied list holds each key of the client map exactly once |
| `EpollServer.BalanceSocket` | mync/epollserver.h:154-170 | the socket goes to the first worker with the least counter, and no other worker changes |
| `Framing.ParseOfEncode` | netlib/serialization.h:149-170 | from the bytes of a frame followed by anything, the parser recovers that frame and its size |
| `Framing.EncodeOfParse` | netlib/serialization.h:210-269 | what the parser consumes is within the buffer and is exactly the encoding of the message it returns |
| `Framing.RequestLayout` | netlib/serialization.h:18-21 | byte 1 and a 16-byte uuid, and nothing else, is the request |
| `Framing.ResponseLayout` | netlib/serialization.h:22-26 | byte 2, a 16-byte uuid and a 64-bit number is the response |
| `Framing.DataLayout` | netlib/serialization.h:27-32 | byte 3, a 64-bit number, a 32-bit size and that many bytes is a data packet |
| `Framing.FieldOfFour` | netlib/serialization.h:30 | a 32-bit field has its least significant byte first |
| `Framing.FieldOfEight` | netlib/serialization.h:25-29 | a 64-bit field has its least significant byte first |
| `Framing.TryParseStable` | netlib/serialization.h:149-170 | a decision once taken is not changed by later bytes |
| `Framing.ChunksDoNotMatter` | netlib/serialization.h:149-170 | draining after each chunk gives the same items and cursor as parsing the whole stream once, for every stream and every split |
| `Framing.RoundTrip` | netlib/serialization.h:17-33 | any frames, with any runs of bytes of unknown type between them, come back exactly and use up every byte, however the stream is cut |
| `Framing.EncodingIsInjective` | netlib/serialization.h:17-33 | two valid item sequences have the same bytes if and only if they are equal |
| `Framing.BrokenStreamGivesPrefix` | netlib/serialization.h:149-170 | whatever initial part of the bytes arrives, the parser returns an initial part of the messages |
| `Framing.DoubledHeaderNeverRoundTrips` | netlib/serialization.h:195-206 | the bytes `sendDataPkt` writes when every send completes are never received as that packet alone with nothing left over, for any packet |
| `MessageParser.SendAll` | netlib/serialization.h:82-98 | for any partial sends, the wire gains as much of the data, in order, as the sends take before the first that fails, and success is reported if and only if that is all of it |
| `MessageParser.SentIsOffered` | netlib/serialization.h:87-94 | the bytes sent are as many as there are, or as the sends take before the first that fails, whichever is less |
| `MessageParser.SendsAll` | netlib/serialization.h:87-97 | everything is sent if and only if some number of initial sends all succeed and take as much |
| `MessageParser.SendsNeeded` | netlib/serialization.h:87-94 | as few sends are made as take everything, or those up to and including the one that fails |
| `MessageParser.SendPacketPayload` | netlib/serialization.h:100-115 | puts on the wire what the header send and the payload send let through, and reports the payload only |
| `MessageParser.ReportedPacketIsWhole` | netlib/serialization.h:100-115 | given a reported success, the whole packet left if and only if the ignored header send had succeeded |
| `MessageParser.HeaderCanBeLost` | netlib/serialization.h:101-105 | one failed send followed by a good one: success reported, header missing |
| `MessageParser.SendAuthResponse` | netlib/serialization.h:172-182 | the peer parses exactly the response, with sequence number 0 whatever was asked, or nothing if the send broke off |
| `MessageParser.SendAuthRequest` | netlib/serialization.h:184-193 | the peer parses exactly the request, or nothing if the send broke off |
| `MessageParser.SendDataPkt` | netlib/serialization.h:195-206 | the bytes put on the wire for any partial sends |
| `MessageParser.DeliversExactly` | netlib/serialization.h:195-206 | for every send script, the packet arrives alone if and only if: the first header send having moved nothing, the second header and the payload go out whole; or, it having moved something, the bytes sent begin with the packet's own and go on with none of a known type |
| `MessageParser.FirstHeaderLost` | netlib/serialization.h:204-205 | if the first header send moves no byte, the packet arrives alone if and only if the second header and the payload go out whole |
| `MessageParser.SecondHeaderLost` | netlib/serialization.h:204-205 | if the first header and the payload go out whole, the packet arrives alone if and only if the second header send moves no byte |
| `MessageParser.FailureDelivers` | netlib/serialization.h:204-205 | a script in which the first send fails delivers the packet |
| `MessageParser.HeaderByteDelivers` | netlib/serialization.h:204-205 | a script in which the second header breaks off after one byte and no payload is sent delivers a packet whose payload is that byte |
| `Framing.ArrivesExactly` | netlib/serialization.h:149-170 | bytes that begin with a known type are received as a message alone if and only if they begin with its encoding and go on with no byte of a known type |
| `MessageParser.FrameOrNothing` | netlib/serialization.h:210-269 | a frame is parsed from all its bytes and from no proper initial part |
| `MessageParser.Parser.ReadAvailable` | netlib/serialization.h:272-303 | bytes are appended; a timeout only sets the flag; end and error are reported |
| `MessageParser.Parser.ParseAuthRequest` | netlib/serialization.h:210-223 | message and cursor are those of the parsing function |
| `MessageParser.Parser.ParseAuthResponse` | netlib/serialization.h:225-238 | message and cursor are those of the parsing function |
| `MessageParser.Parser.ParseDataPacket` | netlib/serialization.h:240-269 | message and cursor are those of the parsing function |
| `MessageParser.Parser.TryParseMessage` | netlib/serialization.h:149-170 | message and cursor are those of the parsing function, for every buffer |
| `MessageParser.Parser.ReadMessage` | netlib/serialization.h:126-146 | for any chunks and timeouts, the message returned is the next frame of the batch parse of all bytes received and none is passed over; none is returned only at the end, on an error, or on a timeout it was not told to wait for |
| `MessageParser.KeepsUp` | netlib/serialization.h:126-146 | every message received has been returned if and only if no recent stretch of reads brought more items, counted up to the last message, than it had reads |
| `MessageParser.TwoFramesOneChunk` | netlib/serialization.h:142-144 | two frames in one chunk that a `recv` can bring: the second stays in the buffer |
| `MessageParser.ReadAll` | netlib/serialization.h:126-146 | reading until nothing is returned yields, for any recv script, an initial part of the messages the script holds, in order and without duplicates, and all those received by then if and only if the reader kept up |
| `MessageParser.EndToEnd` | netlib/serialization.h:126-146 | whatever part of the sender's bytes arrives in whatever chunks, the messages read are an initial part of those sent; when everything has arrived they are all of them if and only if the reader kept up |
| `UringRelay.SetupValid` | mync/io_uring.h:184-199 | setup establishes the invariant |
| `UringRelay.HandleKeeps` | mync/io_uring.h:303-475 | every handler, whatever the result, keeps the exact census and the heap's consistency and leaves nothing queued |
| `UringRelay.ListenCensus` | mync/io_uring.h:491-525 | listening, until standard input closes: in flight are exactly one stdin read, one accept, one timer read if the timer exists and one read per client; every other allocation has been freed |
| `UringRelay.NothingUnexpected` | mync/io_uring.h:201-301 | over any run no completion is for an unknown client, at most three entries are ever queued, and the ring never refuses one |
| `UringRelay.HandleFreesOne` | mync/io_uring.h:303-467 | a handler frees the request it was given and no other, and that one had not been freed before |
| `UringRelay.ClosedOnce` | mync/io_uring.h:469-475 | every connection accepted is still a client or has been closed exactly once |
| `UringRelay.BytesOfConnection` | mync/io_uring.h:433-452 | a client's byte count is what arrived since its descriptor was last accepted |
| `UringRelay.ClientsOfRun` | mync/io_uring.h:365-475 | over any run a descriptor is a client if and only if it was accepted, or was a client, and no read of it has since returned 0 or an error |
| `UringRelay.FlagsOfRun` | mync/io_uring.h:303-475 | over any run, exactly the descriptors whose read returned 0 or an error are closed, in order; `stdin_closed` has risen if and only if a read of standard input did; `socket_closed` if and only if a socket read did or, outside listen mode, a send failed |
| `UringRelay.PushFits` | mync/io_uring.h:204-209 | a submission takes one more entry, or the first of a ring just submitted because it was full |
| `UringRelay.Relay.constructor` | mync/io_uring.h:478-481 | the object starts in the state of the setup function |
| `UringRelay.Relay.HandleStdinRead` | mync/io_uring.h:303-342 | computes the step function |
| `UringRelay.Relay.HandleSocketRead` | mync/io_uring.h:344-363 | computes the step function |
| `UringRelay.Relay.HandleAccept` | mync/io_uring.h:365-393 | computes the step function |
| `UringRelay.Relay.HandleTimerRead` | mync/io_uring.h:395-431 | computes the step function |
| `UringRelay.Relay.HandleClientRead` | mync/io_uring.h:433-467 | computes the step function |
| `UringRelay.Relay.Exec` | mync/io_uring.h:491-525 | the event loop performs a run of the step system and keeps the invariant; it never waits with nothing in flight |
| `FlatMap.Table.Insert` | mync/simple_flat_map.h:21-36 | the table's map gets the key's value; a key already there is updated even when the table is full; a new key for a full table changes nothing; the probe ends |
| `FlatMap.Table.Find` | mync/simple_flat_map.h:38-49 | the search succeeds if and only if the key is in the map, and then returns the slot with the map's value |
| `FlatMap.Table.Assign` | mync/simple_flat_map.h:43-45 | writing through the pointer a search returned updates the map at that key only |
| `FlatMap.Absent` | mync/simple_flat_map.h:41-48 | a probe that met an empty slot, or went all the way round, proves the key absent; in the latter case the table is full |
| `FlatMap.WriteInserts` | mync/simple_flat_map.h:22-35 | a new key goes into the first free slot from key modulo capacity on, cyclically; a key already there keeps its slot |
| `FlatMap.WriteOk` | mync/simple_flat_map.h:24-35 | writing where the probe stopped keeps keys distinct and probe paths without gaps, and changes the map at that key only |
| `FlatMap.FullWhenCountIsCapacity` | testcontainer/main.cpp:33-46 | a table is full if and only if it holds as many keys as it has slots |
| `FlatMap.Fill` | testcontainer/main.cpp:189-195 | with capacity twice the number of keys every insert lands |
| `FlatMap.FromListLookup` | testcontainer/main.cpp:420-425 | the filled table holds exactly the keys listed, each with the value listed last |
| `FlatMap.WidenInjective` | mync/simple_flat_map.h:21-24 | the `int` keys of `insert`, widened to 64 bits, stay distinct |
| `Snowflake.MakeIdIsPlain` | mync/snowflakeidgen.h:103-108 | in the window the shifts lose nothing and the or of the fields is their sum |
| `Snowflake.Decode` | mync/snowflakeidgen.h:36-38 | an id decodes to its timestamp, worker and sequence number |
| `Snowflake.IncreasingWhenForward` | mync/snowflakeidgen.h:75-111 | for either generator and any clock, with refused calls, the ids increase strictly if and only if no wait ends before the time it waited on |
| `Snowflake.WaitEndsAt` | mync/snowflakeidgen.h:65-72 | the wait returns reading i if and only if it is the first that ends it (later than the last timestamp; for the sibling, other than it), using up no further one; and does not return if and only if there is none |
| `Snowflake.RefusedExactly` | mync/snowflakeidgen.h:81-84 | a call is refused if and only if its reading is before the last timestamp, and then changes nothing |
| `Snowflake.RefusalSkipped` | mync/snowflakeidgen.h:81-84 | the ids of a run go on as if a refused call had not been made |
| `Snowflake.CallMeans` | mync/snowflakeidgen.h:87-101 | a later reading issues number 0, the same one the next number, and after the last number the first reading that ends the wait issues number 0 |
| `Snowflake.AcrossMilliseconds` | mync/snowflakeidgen.h:87-101 | over a run: all the numbers of a millisecond, then, whatever readings pass in between, number 0 at the first that ends the wait |
| `Snowflake.MainLayout` | mync/snowflakeidgen.h:11-38 | an id is milliseconds since the epoch times 8388608 plus worker times 8192 plus sequence |
| `Snowflake.SiblingLayout` | testcontainer/main.cpp:337-338 | an id is milliseconds times 4194304 plus worker times 4096 plus sequence |
| `Snowflake.MinusWraps` | mync/snowflakeidgen.h:103 | the epoch is subtracted modulo 2 to the 64 |
| `Snowflake.MainIncreases` | mync/snowflakeidgen.h:65-111 | `SnowflakeGenerator`: for any clock trace, including steps back, the ids issued increase strictly |
| `Snowflake.SteadyWaitsForward` | testcontainer/main.cpp:323-330 | on a clock that does not go back, no wait of either generator ends in the past |
| `Snowflake.SiblingIncreases` | testcontainer/main.cpp:313-339 | `SnowflakeIDGenerator`: on a clock that does not go back, the ids issued increase strictly |
| `Snowflake.WorkersNeverCollide` | mync/snowflakeidgen.h:106-108 | generators with different worker numbers never issue the same id |
| `Snowflake.PerMillisecond` | mync/snowflakeidgen.h:86-94 | of any 8193 ids in a row the last has a later timestamp than the first |
| `Snowflake.WholeMillisecond` | mync/snowflakeidgen.h:86-98 | readings in a new millisecond issue one id each with consecutive sequence numbers from 0, up to the last that fits |
| `Snowflake.SiblingRepeats` | testcontainer/main.cpp:323-330 | a clock that steps back inside the spin loop makes `SnowflakeIDGenerator` repeat an id |
| `Snowflake.Generator.Wait` | mync/snowflakeidgen.h:65-72 | computes the waiting function |
| `Snowflake.Generator.NextId` | mync/snowflakeidgen.h:75-111 | computes the call function |
| `DoubleBuffer.ActiveIsPublished` | testcontainer/main.cpp:378-389 | at every point of an update the active buffer is the last map published |
| `DoubleBuffer.ReaderIsolated` | testcontainer/main.cpp:366-375 | a reader that loaded the index keeps seeing the map then active until the second following update begins its copy |
| `DoubleBuffer.SecondCopyReachesReader` | testcontainer/main.cpp:382-385 | in every reachable state in which that second update is copying, the next piece of the copy may turn the reader's buffer into anything |
| `DoubleBuffer.ExposureRun` | testcontainer/main.cpp:378-389 | a run reaches such a state |
| `DoubleBuffer.DoubleBufferMap.Update` | testcontainer/main.cpp:378-389 | publishes the map and leaves the buffer active before untouched |
| `DoubleBuffer.DoubleBufferMap.Find` | testcontainer/main.cpp:366-375 | finds exactly what the last published map holds |
| `FdRegistry.Registry.Register` | testcontainer/n.h:40-65 | from any state the descriptor gets the counter's value as its id, replacing any it had, and no other descriptor's id changes; consistent containers stay so if and only if no other descriptor holds that id |
| `FdRegistry.Registry.Unregister` | testcontainer/n.h:70-84 | removes the descriptor and nothing else, and keeps consistent containers so |
| `FdRegistry.Registry.FindsAgree` | testcontainer/n.h:89-105 | the two searches find the same records |
| `FdRegistry.Registry.IdsDistinct` | testcontainer/n.h:40-65 | no two descriptors share an id |
| `FdRegistry.AddedExactly` | testcontainer/n.h:62-64 | a record put into an empty slot and into the map keeps them inverse if and only if no record had its id |
| `FdRegistry.Perform` | testcontainer/n.h:40-84 | any run of registrations and removals, including reuse of a descriptor without removal, lists what the replay of the run says; the first operation that takes an id held by another descriptor is exactly the one that breaks consistency |
| `FdRegistry.ReplayLookup` | testcontainer/n.h:40-84 | a descriptor is registered if and only if the last operation on it registered it, under the number of that registration |
| `FdRegistry.NewExactly` | testcontainer/n.h:57 | an id is issued for the first time if and only if fewer than 2 to the 64 were issued before it |
| `FdRegistry.CleanWhenShort` | testcontainer/n.h:57-64 | a run of at most 2 to the 64 registrations never meets an id in use |
| `FdRegistry.WrapLosesConsistency` | testcontainer/n.h:57-64 | a run of 2 to the 64 plus 1 registrations whose last one takes an id still held elsewhere |
| `ThreadPool.OneFatePerTicket` | test_threadpool/main.cpp:38-55 | over any interleaving each scheduled ticket is queued, taken by a worker or destroyed, exactly one of these and once |
| `ThreadPool.FirstInFirstOut` | test_threadpool/main.cpp:58-73 | tickets are taken in the order scheduled, and `front()` is never called on an empty queue before shutdown |
| `ThreadPool.NoStrandedTicket` | test_threadpool/main.cpp:48-66 | before shutdown a non-empty queue has an awake worker or an outstanding notification |
| `ThreadPool.ReadyTakesOldest` | test_threadpool/main.cpp:64-70 | over any run, a worker whose wait has returned ends if and only if the flag is set and the queue empty, and otherwise takes the oldest ticket |
| `ThreadPool.WorkerRuns` | test_threadpool/main.cpp:60-72 | with the mutex free an idle worker can take and resume the oldest ticket by itself |
| `ThreadPool.WorkerSleeps` | test_threadpool/main.cpp:60-65 | with nothing queued it can go to sleep, letting go of the mutex |
| `ThreadPool.ScheduleWakes` | test_threadpool/main.cpp:48-55 | with the mutex free a ticket can be queued, at the end, and its notification wakes a sleeper |
| `ThreadPool.AtMostOneLateTicket` | test_threadpool/main.cpp:60-71 | after the flag is set each worker takes at most one more ticket |
| `ThreadPool.NotifyReachesAll` | test_threadpool/main.cpp:27-36 | if no worker is between test and sleep when the destructor notifies, none ever sleeps again, the workers together make at most five further steps for each of them, and until the join returns it or a worker it waits for can go on |
| `ThreadPool.NotifyMissesSleepy` | test_threadpool/main.cpp:27-36 | a worker that is between them goes to sleep afterwards and blocks the join; only a notify_one, possible at once exactly if one is outstanding, or a spurious wakeup can wake it |
| `ThreadPool.HangsExactly` | test_threadpool/main.cpp:24-36 | the notification can be followed by a hang, that is a state that only a new ticket or a spurious wakeup can leave, if and only if some worker is between test and sleep |
| `ThreadPool.ShutdownCanHang` | test_threadpool/main.cpp:24-36 | such a hang is reachable |
| `ThreadPool.Pool.Push` | test_threadpool/main.cpp:48-55 | performs the schedule step |
| `ThreadPool.Pool.TakeFront` | test_threadpool/main.cpp:64-70 | performs the take step and returns the ticket the worker resumes, or none when it ends |
| `ThreadPool.Pool.DestroyRest` | test_threadpool/main.cpp:39-44 | the loop destroys the whole queue in order and is a run of destroy steps |
| `Pacing.TargetRate` | mync/epollserver.cpp:466-498 | for any clock that does not go back and any partial writes, the bytes written by any time are at most the target rate times the time elapsed, plus one buffer |
| `Pacing.RateBound` | mync/epollserver.cpp:470-489 | the same from any point of a run, and no interval carries more than 12,440,535 bytes |
| `Pacing.TotalIsCarried` | mync/epollserver.cpp:463-498 | for any clock and results of the writes, the bytes written are what a reference computation from the source's constants gives, partial writes included |
| `Pacing.RunSplits` | mync/epollserver.cpp:486-497 | as long as failed writes got EAGAIN, the loop goes on from where it stands |
| `Pacing.ErrorEnds` | mync/epollserver.cpp:490-495 | the first other error ends it: it writes nothing, and nothing that comes later does |
| `Pacing.FullSpeed` | mync/epollserver.cpp:466-498 | if the socket has room, the sleep of a held turn takes from one to two milliseconds and other turns less than the time a buffer is worth, the bytes written are at least 97 percent of the target rate times the time elapsed, less 2.5 ms' worth |
| `Pacing.InTimeForever` | mync/epollserver.cpp:466-498 | from any state there are runs with that timing of every length and duration |
| `Pacing.Pace` | mync/epollserver.cpp:463-498 | the loop computes the run function |

## Left out

- Sockets, epoll, timerfd and io_uring system calls, signals, thread affinity, argument parsing and printing: only their results appear.
- `Epoll::exec` as a dispatch loop, `handle_stdin`, `handle_client_data`, `handle_socket_data`, `handle_timer`, and statistics: they move bytes or format numbers and change none of the state modelled here.
- The accept branch for a single thread, and `accept4` failing with an error other than EAGAIN, which throws out of the loop.
- `fullstop` racing with a live acceptor or another thread, and the global stop flag.
- Handoff and ThreadPool: the concurrent runs are step systems on values; the classes beside them capture one thread's handler at a time, and not memory shared between objects.
- DoubleBuffer: memory ordering weaker than an interleaving of the steps, and a second writer (the mutex excludes it).
- `Pool.TakeFront`: the mutex, the condition variable and the resumed coroutine are steps of the system, not statements of the method.
- `ThreadPool`: termination of the destructor under a fair scheduler; what is proved is the bound on the workers' steps and that one is always possible, when the notification is not missed.
- `sendDataPkt` with a negative size, and capacity management of the receive buffer.
- `ParsedMessage` fields that carry no information beyond the frame (`size_header`, bytes of the union left over from earlier messages).
- `Fill`: the benchmarks' timing, and their values, which are parameters here.
- `Relay`: the destructor and the requests still in flight when the loop ends, the contents of buffers, and the statistics other than the byte count.
- `simple_flat_map` with capacity 0, for which the source divides by zero.
- `Generator`: calls from several threads, which its mutex puts in some order; the model takes them in that order.
- netlib's client and server classes, `netlib/epoll.cpp`, `netlib/queue.h` and `testcontainer/s.h`: unfinished, or not what they are meant to be.
- `VectorSocketStore` and `SortedVectorSocketStore`, benchmarks, random data, UUID bits, file writing, bitrate and duration formatting: library calls or easy members.
