# A verified model of ServerNginx

ServerNginx is an epoll server with its own packet framing, connection pool, heartbeat, timers, thread pool and a
small HTTP request parser. This project models its stateful parts in Dafny and proves what they do over every
input, every run and every interleaving. `dafny verify dfyconfig.toml` checks all of it.

Each part comes twice: as a specification (functions on values, and state machines whose runs the lemmas quantify
over) and as a class whose methods update fields and buffers in place, as the C++ does, and are proved to make
exactly the specified step.

| file | what it models |
|---|---|
| `Crc32.dfy` | table-driven CRC-32 against the bit-at-a-time register of section 8 of RFC 1952; burst detection |
| `Receiver.dfy`, `ReceiverProofs.dfy`, `OpenRuns.dfy` | the four-state packet receiver, its level- and edge-triggered forms, a pure framer, and what ends a connection |
| `WrittenRule.dfy`, `WrittenStream.dfy` | the same receiver with the assignment the source really has in the body continuation |
| `Connection.dfy` | the receiver in place: cursor, header buffer, allocated block |
| `Flood.dfy` | the flood test |
| `SendPath.dfy` | `sendMsg` and `sendRemainMsg` over partial writes and errors |
| `Heartbeat.dfy` | the lazily re-filed ping queue and its sweep |
| `ThreadPool.dfy` | workers, submitters and a manager that acts on a stale snapshot |
| `ConnectionPool.dfy`, `PoolClass.dfy` | the growing free list, sequence numbers, and the gate that rejects stale messages |
| `TimerQueue.dfy` | the deadline-ordered timers inside the worker loop |
| `HttpSpec.dfy`, `HttpNumbers.dfy`, `HttpRequest.dfy` | lines, request line, numbers and headers as functions on strings |
| `HttpCrash.dfy` | exactly which requests crash the parser |
| `HttpRoundTrip.dfy` | printing a request with headers and parsing it back |
| `HttpMemory.dfy`, `HttpParser.dfy` | the same parser working in place on one buffer |

## Where the code and its evident intent differ

The code is modelled as it is written, the failing input is shown, and the exact condition is proved.

- A short read in the middle of a body does `irecvlen = ret` (net/ngx_c_socket_request.cpp:248 and 342) where the
  sibling branches subtract. `Rule` selects between the two. With `Subtracting`, delivery does not depend on the
  splitting. With `AsWritten`, the cursor stays right exactly as long as no such read differs from half of what was
  asked for (`RunExactIff`), and a list of packets comes out unchanged exactly when the reads do not straddle packets,
  the piece sizes of every body satisfy `Survives` and nobody is kicked (`StreamSurvivesIff`); `OneByteReadsMisframe`
  is a packet that does not.
- The same assignment lets recv write past the end of the packet's block. `RunClearIff` says after which reads it
  may, `TwoReadsOverrunIff` which bodies are in danger, and `ThreeReadsOverrun` is a run in which it does.
- The manager thread overwrites `exitNum` on the strength of a snapshot taken before it gave the lock back. The
  upper bound holds regardless. The lower bound holds on exactly the schedules described by `LowerBoundIff`, among
  them all whose shrink decisions rest on snapshots with `exitNum` 0 (`FreshSnapshotSafe`), and on all runs exactly
  when minNum equals maxNum (`LowerBoundSoundIff`); `LowerBoundFails` gives a failing run for every other pool.
- Pool growth allocates up to 16 nodes but always links 16. `GrowthSoundIff`: this is sound on all runs exactly when
  half of `worker_connections` is a multiple of 16, as it is in nginx.conf:21.
- Growth leaves its last node's sequence number uninitialised, so that its parity does not tell whether the slot is
  in use (`OddTellsUseIff`), and does not count the new slots in `m_free_connection_n` (the lag stated by
  `RunKeepsInv`).
- `ngx_free_connection` does not ask whether the connection is in use; if it is not, the free list becomes a cycle
  (`FreeConnection`).
- `sendMsg` does not unlock when the peer has broken the connection; `LockLeakedIff` says when, `LockLeaks` shows it.
- `HttpServer::WriteData` ignores the cursor it is given and offers the whole message every time, so only messages
  sent in one write arrive intact (`RewriterIntactIff`); `SentTwice` puts 20 bytes of a 10-byte message on the wire.
- A header line without its colon, a cookie without `=`, an `If-Match` without two quotes, or a number that does not
  parse makes the parser dereference null or throw; and `parse_content` adds m_content_length to m_check_idx as ints,
  which for a large length overflows and writes far outside the buffer. `RequestCrashIff` says exactly which requests
  do either, and `HostWithoutColonCrashes` and `LargestLengthCrashes` are two of them.
- `parse_content` runs only when another line is complete, and counts the body from the end of that line, so a body of
  exactly the announced length is rejected (`AnnouncedBodyRejected`; `HelloRejected` is such a request).
  `RequestRoundTrip` says exactly which requests are parsed.
- The heartbeat sweep holds `m_PingMutex` when a kick takes it again (net/ngx_c_socket_ping.cpp:32 and 87). `Sweep` models
  the kick that is intended; `SweepAsWritten` gets stuck, at exactly the first connection that is late when inspected,
  and `LateReachable` is a state with one.

## Model

| member | source | states |
|---|---|---|
| `Crc32.Reflect` | misc/ngx_c_crc32.cpp:23-36 | the lowest `ch` bits come back in reverse order, all other bits 0 |
| `Crc32.Crc.constructor` | misc/ngx_c_crc32.cpp:13-69 | the table built is the table of the reference polynomial: entry b is the register after byte b is shifted out |
| `Crc32.Crc.FillTable` | misc/ngx_c_crc32.cpp:38-69 | for any polynomial, 256 entries built with left shifts are those of the mirrored polynomial with right shifts |
| `Crc32.Crc.FillEntry` | misc/ngx_c_crc32.cpp:45-67 | one entry is computed in place, the others are untouched |
| `Crc32.Crc.GetCrc` | misc/ngx_c_crc32.cpp:72-88 | for every buffer the result is the bit-at-a-time checksum of section 8 of RFC 1952 |
| `Crc32.MirrorStep` | misc/ngx_c_crc32.cpp:62-66 | mirroring carries one left-shift step to the right-shift step of the mirrored polynomial |
| `Crc32.MirrorSteps` | misc/ngx_c_crc32.cpp:50-66 | and so for any number of steps |
| `Crc32.MirroredPolynomial` | misc/ngx_c_crc32.cpp:42 | 0x04c11db7 mirrored is the polynomial of the RFC, whose top bit is set |
| `Crc32.StepsInjective` | misc/ngx_c_crc32.cpp:84-85 | stepping the register loses no information |
| `Crc32.ByteStep` | misc/ngx_c_crc32.cpp:84-85 | one table look-up equals folding a byte in and making eight bit steps |
| `Crc32.RegisterFeeds` | misc/ngx_c_crc32.cpp:84-85 | byte-wise processing equals feeding the message bit by bit |
| `Crc32.BurstDetected` | misc/ngx_c_crc32.cpp:72-88 | two different messages of one length that differ only inside some 32 consecutive bits, at any bit offset, have different checksums |
| `Crc32.BurstBoundTight` | misc/ngx_c_crc32.cpp:72-88 | 32 is the exact bound: some burst of 33 bits goes unnoticed |
| `Crc32.Residue` | misc/ngx_c_crc32.cpp:72-88 | a message followed by its own checksum has the checksum of four zero bytes, whatever the message |
| `Crc32.ComplementedBothEnds` | misc/ngx_c_crc32.cpp:74-88 | the register starts with every bit set and the checksum is its complement |
| `Crc32.LeadingZeroCounts` | misc/ngx_c_crc32.cpp:72-88 | a zero byte in front of a message changes its checksum |
| `Flood.CountIsLongestSuffix` | net/ngx_c_socket.cpp:469-478 | after any arrival the counter is the length of the longest suffix of short gaps |
| `Flood.QuietIffNoRun` | net/ngx_c_socket.cpp:469-487 | nobody was kicked so far iff no run of `kickCount` short gaps was completed, and then the counter is below the threshold |
| `Flood.FirstKickExact` | net/ngx_c_socket.cpp:480-487 | the first kick is at exactly the first arrival completing `kickCount` short gaps: the equality test cannot step over the threshold |
| `Flood.KicksIff` | net/ngx_c_socket.cpp:480-487 | an arrival kicks iff it is the last of exactly `kickCount` consecutive short gaps |
| `Flood.FirstKickForward` | net/ngx_c_socket.cpp:457-493 | on a clock that does not go back, the first kick is at the first arrival ending `kickCount` differences of times below the interval |
| `Receiver.Drain` | net/ngx_c_socket_request.cpp:168-257 | a draining call on an open connection makes at least one read and no more than there are |
| `ReceiverProofs.FramesConcat` | net/ngx_c_socket_request.cpp:98-139 | framing a stream in two parts, the second preceded by what the first left unfinished, is framing it at once |
| `ReceiverProofs.RestPartial` | net/ngx_c_socket_request.cpp:98-139 | what the framer leaves unfinished holds no complete packet and no rejected header |
| `ReceiverProofs.StepFrames` | net/ngx_c_socket_request.cpp:260-345 | one read keeps the cursor exact and moves delivered packets and unfinished bytes as the framer does |
| `ReceiverProofs.DeliveryIsFraming` | net/ngx_c_socket_request.cpp:260-345 | over any run, an open connection has delivered exactly the packets of the stream and holds its tail; an ended one delivered those of the reads before read k, which found it open and closed it |
| `ReceiverProofs.AcceptedTracks` | net/ngx_c_socket_accept.cpp:129-133 | the same, from accept on |
| `ReceiverProofs.SplitIndependent` | net/ngx_c_socket_request.cpp:260-345 | two splittings of one stream give the same packets and the same receive state |
| `ReceiverProofs.FramesRoundTrip` | net/ngx_c_socket_request.cpp:98-139 | framing legal packets sent back to back returns them |
| `ReceiverProofs.RoundTrip` | net/ngx_c_socket_request.cpp:86-156 | any list of legal packets, read in any pieces, is delivered unchanged |
| `ReceiverProofs.ExactIsSafe` | net/ngx_c_socket_request.cpp:98-139 | under the subtracting rule no read of any run runs past its buffer; for the written rule see `RunClearIff` |
| `ReceiverProofs.DrainIsRun` | net/ngx_c_socket_request.cpp:168-257 | one draining call is that many level-triggered calls |
| `ReceiverProofs.EdgeRefinesLevel` | net/ngx_c_socket_request.cpp:168-257 | on the same reads both forms reach the same state, deliver the same packets, and are stopped by the same kick |
| `ReceiverProofs.DrainStops` | net/ngx_c_socket_request.cpp:168-257 | a draining call goes on exactly until a packet is complete, the connection ends or a read yields nothing |
| `OpenRuns.RunOpenIff` | net/ngx_c_socket_request.cpp:86-156 | for every run from accept on, the connection is open iff the socket was not closed and the times at which its packets, as the framer sees them, came to the flood test completed no flood |
| `OpenRuns.StepOpens` | net/ngx_c_socket_request.cpp:112-139 | a read closes the connection iff it brings a packet to the flood test and that says so |
| `OpenRuns.FewReadsDelivered` | net/ngx_c_socket_request.cpp:86-156 | with fewer reads than a flood takes, all packets of the stream are delivered, with no hypothesis about the final state |
| `OpenRuns.HeaderVerdict` | net/ngx_c_socket_request.cpp:98-139 | lengths below 8 and above 29000 are dropped, 8 is a packet, any other announces that many bytes |
| `OpenRuns.IllegalHeaderDropped` | net/ngx_c_socket_request.cpp:98-109 | a concrete illegal header, and the packet behind it delivered |
| `ReceiverProofs.DrainInBlockIs` | net/ngx_c_socket_request.cpp:168-257 | a draining call makes the reads of the draining specification if all of them fit their buffer, and else the level-triggered calls up to the first that does not |
| `WrittenRule.StepExactIff` | net/ngx_c_socket_request.cpp:330-344 | as written, one read keeps the cursor exact iff it is not a short body read other than half of what was asked |
| `WrittenRule.RunExactIff` | net/ngx_c_socket_request.cpp:330-344 | over whole runs likewise, and then the run is that of the subtracting receiver |
| `WrittenRule.OverrunIff` | net/ngx_c_socket_request.cpp:330-344 | as written, the next read may leave the block iff the read just made was a short body read that, made once more, would not fit |
| `WrittenRule.ExactOverrunIff` | net/ngx_c_socket_request.cpp:342 | with an exact cursor: iff it was short and more than half of what was asked |
| `WrittenRule.RunClearIff` | net/ngx_c_socket_request.cpp:330-344 | over whole runs: no state of the run lets recv leave the block iff no read was of that kind, and then no read of the run left it |
| `WrittenRule.TwoReadsOverrunIff` | net/ngx_c_socket_request.cpp:330-344 | two reads can leave the block iff at least three bytes of the body are still to come |
| `WrittenRule.ThreeReadsOverrun` | net/ngx_c_socket_request.cpp:342 | a run from accept on whose last read is legal and is stored past the block |
| `WrittenRule.ContinuationIff` | net/ngx_c_socket_request.cpp:330-344 | in mid-body, the packet comes out at the last read iff the sizes shrink and the last repeats its predecessor |
| `WrittenRule.PacketSurvivesIff` | net/ngx_c_socket_request.cpp:311-344 | a body split into given pieces is delivered as that packet iff there are at most two pieces, or they shrink from the second on and end in two equal ones |
| `WrittenRule.OneByteReadsMisframe` | net/ngx_c_socket_request.cpp:342 | a 14-byte packet read byte by byte is handed over after 11 bytes |
| `WrittenStream.AlignedSurvivesIff` | net/ngx_c_socket_request.cpp:260-345 | legal packets, each split into reads of its own, are delivered exactly iff every body's piece sizes survive and the arrival times complete no flood |
| `WrittenStream.DeliveredAligns` | net/ngx_c_socket_request.cpp:260-345 | reads that lead to the packets of the stream do not straddle packets |
| `WrittenStream.StreamSurvivesIff` | net/ngx_c_socket_request.cpp:260-345 | any list of legal packets, read in any pieces recv may return, also across packet ends, is delivered exactly iff the reads do not straddle packets, every body's piece sizes survive and the arrival times complete no flood |
| `WrittenStream.SpoiltForever` | net/ngx_c_socket_request.cpp:260-345 | once a packet has been handed over short, run on past its end or been cut off by a kick, no further reads make up for it |
| `ConnectionClass.Connection.constructor` | net/ngx_c_socket_accept.cpp:129-133 | a new connection waits for the 8 bytes of a header |
| `ConnectionClass.Connection.Store` | net/ngx_c_socket_request.cpp:16-21 | bytes read extend the bytes under the cursor and disturb nothing before it |
| `ConnectionClass.Connection.TestFlood` | net/ngx_c_socket.cpp:457-493 | makes the step of `Flood.Test` |
| `ConnectionClass.Connection.PacketComplete` | net/ngx_c_socket_request.cpp:142-156 | hands the packet over and waits for the next header |
| `ConnectionClass.Connection.HeaderComplete` | net/ngx_c_socket_request.cpp:86-140 | rejects, delivers, kicks or allocates the block, as the specification says; the block begins with the header |
| `ConnectionClass.Connection.DispatchHeader` | net/ngx_c_socket_request.cpp:276-310 | the step for bytes of a header |
| `ConnectionClass.Connection.BodyBegins` | net/ngx_c_socket_request.cpp:311-329 | the step for the first bytes of a body |
| `ConnectionClass.Connection.BodyContinues` | net/ngx_c_socket_request.cpp:330-344 | the step for further bytes of a body |
| `ConnectionClass.Connection.HandleReadable` | net/ngx_c_socket_request.cpp:260-345 | the level-triggered handler makes the specified step in place, or reports a read that leaves the block, which it does exactly when the specification says so |
| `ConnectionClass.Connection.DrainReadable` | net/ngx_c_socket_request.cpp:168-257 | the edge-triggered loop makes the specified draining call in place, up to the first read that leaves the block |
| `SendPath.StepKeepsInv` | net/ngx_c_socket_request.cpp:370-419 | every step keeps accepted bytes followed by pending bytes equal to the message until it is finished |
| `SendPath.Conservation` | net/ngx_c_socket_request.cpp:347-558 | over any mix of partial writes, errors and wake-ups no byte is lost, repeated or reordered, the buffer is freed exactly once at the end, and the lock released once unless the peer broke the connection inside `sendMsg` |
| `SendPath.LockLeakedIff` | net/ngx_c_socket_request.cpp:394-404 | from the call of `sendMsg` on, the message is finished with the lock held iff the result that ended the call was EPIPE or ECONNRESET |
| `SendPath.LockLeaks` | net/ngx_c_socket_request.cpp:394-404 | any message leaks its lock when the first write finds the connection broken |
| `SendPath.EndingIff` | net/ngx_c_socket_request.cpp:356-404 | over every run a message is dropped as stale iff a handler found its connection reused, and as broken iff a write found the peer gone |
| `SendPath.FinishedIsSent` | net/ngx_c_socket_request.cpp:347-558 | a message finished with neither was sent completely and its lock released |
| `SendPath.SendMsgEnds` | net/ngx_c_socket_request.cpp:370-419 | how a call of `sendMsg` leaves the message, by the result that ended it |
| `SendPath.RemainGoesOn` | net/ngx_c_socket_request.cpp:520-557 | the loop of `sendRemainMsg` is not left before the message is finished |
| `SendPath.RewriterIntactIff` | logic/ngx_c_http.cpp:38-41 | with the writer that ignores the cursor and may report any number up to the message's length, a finished message arrives intact, whatever its content, iff at most one write took anything |
| `SendPath.SentTwice` | net/ngx_c_socket_request.cpp:520-557 | after 4 of 10 bytes a write of all 10 is forgotten and the message sent again |
| `SendPath.LoopIsRun` | net/ngx_c_socket_request.cpp:370-419 | a call of either handler is a run of the state machine |
| `SendPath.Sender.ReleaseBuffer` | net/ngx_c_socket_request.cpp:358-365 | frees once if the buffer was allocated for sending, and unlocks if told to |
| `SendPath.Sender.SendMsg` | net/ngx_c_socket_request.cpp:347-420 | uses the writer's results as the specified loop does and leaves the specified state; a stale message is dropped without a write, freed and unlocked |
| `SendPath.Sender.SendRemainMsg` | net/ngx_c_socket_request.cpp:497-558 | likewise, for what is left of a message |
| `Heartbeat.RefileFront` | net/ngx_c_socket_ping.cpp:100-110 | re-filing an entry keeps the queue ordered, every entry no later than its last ping, and the set of supervised connections |
| `Heartbeat.AfterDisturbance` | logic/ngx_c_slogic.cpp:91 | pings and departures between two passes keep the invariant of the sweep |
| `Heartbeat.SweepDone` | net/ngx_c_socket_ping.cpp:112-115 | once the first entry is not due, nobody left in the queue is late, and whoever was late and not kicked has pinged since |
| `Heartbeat.UndisturbedIsScan` | net/ngx_c_socket_ping.cpp:72-117 | a sweep nobody disturbed kicked exactly whom a scan of all connections would |
| `Heartbeat.LateReachable` | net/ngx_c_socket_ping.cpp:8-18 | a connection that does not ping for 70 seconds is late |
| `Heartbeat.FrontIsVictim` | net/ngx_c_socket_ping.cpp:82-99 | who is late when inspected was late when the sweep began |
| `Heartbeat.Supervisor.InspectAsWritten` | net/ngx_c_socket_ping.cpp:74-116 | a pass of the written loop gets stuck, with the socket closed and the entry still filed, iff the first entry's peer is late at that moment |
| `Heartbeat.Supervisor.SweepAsWritten` | net/ngx_c_socket_ping.cpp:20-118 | the written sweep gets stuck at the first connection that is late when inspected, with one socket closed and no entry of a live connection gone; otherwise it ends, and whoever was late has pinged or left; undisturbed it gets stuck iff somebody is late |
| `Heartbeat.Supervisor.Inspect` | net/ngx_c_socket_ping.cpp:74-116 | one pass of the loop kicks only a connection that is late at that moment, and brings the loop nearer its end; the spinning branch is unreachable |
| `Heartbeat.Supervisor.Sweep` | net/ngx_c_socket_ping.cpp:57-118 | with other threads pinging and giving back connections between the passes, the sweep ends; whoever it kicks was late when it began, each once; of the late only those escape who ping or leave meanwhile; nobody left is late. Undisturbed it kicks exactly whom a scan of all would |
| `Heartbeat.Supervisor.Connect` | net/ngx_c_socket_ping.cpp:8-18 | the new connection is filed under the current time and older entries of its slot are retired |
| `Heartbeat.Supervisor.Ping` | logic/ngx_c_slogic.cpp:91 | the peer's ping time is now; nothing else of it and nobody else changes, and the entry stays where it is |
| `Heartbeat.NextKeepsInv` | net/ngx_c_socket_ping.cpp:8-118 | every event keeps each live entry filed no later than its peer's last ping, under its storePingTime, one entry each |
| `Heartbeat.RunKeepsInv` | net/ngx_c_socket_ping.cpp:8-118 | so in every run with a clock that does not go back, which is what `Sweep` relies on |
| `Heartbeat.HeardNotKicked` | net/ngx_c_socket_ping.cpp:72-117 | over every run, whoever connected or pinged less than 70 seconds before a sweep is not kicked by it |
| `Heartbeat.SilentKicked` | net/ngx_c_socket_ping.cpp:72-117 | over every run, a peer that connected 70 seconds or more before a sweep and has neither pinged nor left by its end is kicked by it, unless it was before |
| `Heartbeat.ConnectedEffect` | net/ngx_c_socket_ping.cpp:8-18 | connecting puts the peer under supervision from now |
| `Heartbeat.PingedEffect` | logic/ngx_c_slogic.cpp:91 | a ping sets the peer's time to now and changes nobody's supervision |
| `Heartbeat.GoneEffect` | net/ngx_c_socket_conn.cpp:54-64 | a connection given back or closed is no longer supervised |
| `ThreadPool.EveryInterleaving` | misc/ngx_c_threadpool.cpp:100-229 | in every interleaving liveNum is at most maxNum and counts the live workers, busyNum counts those inside a task, submitted tasks are started tasks followed by the queue, and taking a task never fails |
| `ThreadPool.RunKeepsInv` | misc/ngx_c_threadpool.cpp:100-229 | the invariant behind it, including that a snapshot is stale only by the workers that left since |
| `ThreadPool.StepGuarded` | misc/ngx_c_threadpool.cpp:127-154 | a wait predicate found true stays true until the holder of the mutex acts |
| `ThreadPool.ManagerReacts` | misc/ngx_c_threadpool.cpp:176-227 | whatever happens between snapshot and decision, new workers come, two or up to maxNum, iff at the snapshot tasks were waiting and the pool was not full; else two, or down to minNum, are asked to leave iff fewer than half of the workers alive at the snapshot were in a task |
| `ThreadPool.LowerBoundIff` | misc/ngx_c_threadpool.cpp:207-227 | liveNum - exitNum stays at least minNum throughout a run iff between each snapshot and its shrink decision no more workers leave than the decision leaves above minNum |
| `ThreadPool.FreshSnapshotSafe` | misc/ngx_c_threadpool.cpp:176-227 | it does in every run whose shrink decisions rest on snapshots taken with exitNum 0 |
| `ThreadPool.LowerBoundSoundIff` | misc/ngx_c_threadpool.cpp:11-34 | it does in all runs of a pool iff minNum equals maxNum |
| `ThreadPool.LowerBoundFails` | misc/ngx_c_threadpool.cpp:209-221 | for every minNum below maxNum some run breaks the lower bound |
| `ThreadPool.Threads.constructor` | misc/ngx_c_threadpool.cpp:11-34 | minNum workers, all outside the mutex |
| `ThreadPool.Threads.AddTask` | misc/ngx_c_threadpool.cpp:113-120 | appends to the queue, at any time |
| `ThreadPool.Threads.GetTask` | misc/ngx_c_threadpool.cpp:100-111 | removes the front, or reports an empty queue |
| `ThreadPool.Threads.Wait` | misc/ngx_c_threadpool.cpp:127-136 | passes with the mutex held, or gives it back |
| `ThreadPool.Threads.Proceed` | misc/ngx_c_threadpool.cpp:143-156 | leaves or takes a task as specified; the failure branch is unreachable |
| `ThreadPool.Threads.Finished` | misc/ngx_c_threadpool.cpp:158-159 | the worker is counted out of its task |
| `ThreadPool.Threads.TakeSnapshot` | misc/ngx_c_threadpool.cpp:176-180 | records the three counts and lets go of the mutex |
| `ThreadPool.Threads.ActOnSnapshot` | misc/ngx_c_threadpool.cpp:182-227 | creates or dismisses workers on the recorded counts, as specified |
| `ConnectionPool.InitialInv` | net/ngx_c_socket.cpp:243-258 | the initial pool satisfies the invariant |
| `ConnectionPool.RunKeepsInv` | net/ngx_c_socket_conn.cpp:25-97 | in every run the free list has no duplicate, free and used slots partition the slots, the total stays within its limit, and m_free_connection_n is the free-list length minus the slots added by growth |
| `ConnectionPool.SequenceCounts` | net/ngx_c_socket_conn.cpp:47-60 | a slot's number counts, modulo 2^64, how often the slot changed hands |
| `ConnectionPool.StaleIffFreed` | logic/ngx_c_slogic.cpp:52-56 | a message stamped while its slot was in use passes the check iff the slot has not been given back since |
| `ConnectionPool.OddIffUsed` | net/ngx_c_socket_conn.cpp:47-60 | after every run a slot's number is odd exactly while the slot is in use iff the slot was created with an even one |
| `ConnectionPool.OddTellsUseIff` | net/ngx_c_socket_conn.cpp:82-94 | that holds in all runs exactly for the slots that are not the last of a batch added by growth |
| `ConnectionPool.LastBackFirstOut` | net/ngx_c_socket_conn.cpp:25-64 | the slot given back last is handed out next, with its number two further on |
| `ConnectionPool.GrowthSoundIff` | net/ngx_c_socket_conn.cpp:66-97 | growth links only what it allocated, on all runs, iff half of worker_connections is a multiple of 16 |
| `ConnectionPool.HandledIff` | logic/ngx_c_slogic.cpp:33-68 | a message reaches a handler iff its code is known, a bare header is a ping, and its slot has not been given back since it was stamped |
| `PoolClass.PushFreeAgain` | net/ngx_c_socket_conn.cpp:54-64 | giving back a slot that is free makes the list come back to it |
| `PoolClass.Pool.constructor` | net/ngx_c_socket.cpp:243-258 | the links thread all slots in order |
| `PoolClass.Pool.AppendBlock` | net/ngx_c_socket_conn.cpp:82-93 | links a batch and leaves the last sequence number unwritten |
| `PoolClass.Pool.MoreConnectionPool` | net/ngx_c_socket_conn.cpp:66-97 | grows behind the last free node, or reports that the limit is reached, or that linking would leave the block allocated, exactly when fewer nodes than a batch were |
| `PoolClass.Pool.GetConnection` | net/ngx_c_socket_conn.cpp:25-52 | pops the head with a new sequence number, growing first when it is the last; the list stays acyclic and complete; fails exactly when growing would leave the block |
| `PoolClass.Pool.FreeConnection` | net/ngx_c_socket_conn.cpp:54-64 | pushes the slot with a new sequence number; the list stays acyclic and complete if the slot was in use, and becomes a cycle if it was not |
| `TimerQueue.EraseExact` | app/ngx_c_timer.cpp:90-93 | with unique ids, erasing a timer removes exactly that one |
| `TimerQueue.RunKeepsInv` | app/ngx_c_timer.cpp:76-133 | over every run, with timers added at any moment, the invariant behind the next three holds |
| `TimerQueue.NeverEarly` | proc/ngx_process_cycle.cpp:113-121 | `CheckTimer` never meets an empty set, no timer fires before its deadline, and two firings of one timer are at least its period apart |
| `TimerQueue.NotBeforePeriod` | app/ngx_c_timer.cpp:76-83 | over every run, no callback of a timer starts before its period has passed since it was added, and none at all for a count that is neither positive nor -1 |
| `TimerQueue.FirstDeadline` | app/ngx_c_timer.cpp:76-83 | until it first fires, a timer's deadline is its period after the time it was added |
| `TimerQueue.DueIsFiledPlusPeriod` | app/ngx_c_timer.cpp:76-133 | over every run, a timer's deadline is exactly its period after it was last filed: added, or filed again when its callback returned |
| `TimerQueue.TimedOutFires` | app/ngx_c_timer.cpp:107-131 | when a wait times out the first timer's callback is started, if its count is one that fires |
| `TimerQueue.TimerLife` | app/ngx_c_timer.cpp:107-133 | firings and remaining count add up to the count the timer was added with, so it goes after exactly that many; a timer added with -1 is never lost |
| `TimerQueue.FiresMinimum` | app/ngx_c_timer.cpp:107-111 | the timer fired is due and the least by deadline and id |
| `TimerQueue.Timeout` | app/ngx_c_timer.cpp:95-105 | a wait of that length ends exactly at the first deadline, or at once if it has passed; -1 exactly for an empty set |
| `TimerQueue.Timer.AddTimer` | app/ngx_c_timer.cpp:76-83 | files a timer under a new id |
| `TimerQueue.Timer.DelTimer` | app/ngx_c_timer.cpp:90-93 | removes whatever has the deadline and id given; with unique ids, exactly the timer given if it is there |
| `TimerQueue.Timer.SetTime` | app/ngx_c_timer.cpp:95-105 | the wait begins with the time left to the first deadline |
| `TimerQueue.Timer.CheckTimer` | app/ngx_c_timer.cpp:107-133 | starts the callback of the first timer |
| `TimerQueue.Timer.CallbackReturned` | app/ngx_c_timer.cpp:114-131 | removes the timer and files it again unless that was its last firing |
| `HttpSpec.LinesOfJoin` | logic/ngx_c_http.cpp:110-142 | splitting joined lines at CRLF gives the lines back |
| `HttpSpec.JoinOfLines` | logic/ngx_c_http.cpp:110-142 | every text is its lines joined, followed by text with no complete line in front |
| `HttpSpec.RequestLineRoundTrip` | logic/ngx_c_http.cpp:144-202 | parsing a printed request line recovers method and path, for any runs of blanks between the fields |
| `HttpSpec.RequestLineIff` | logic/ngx_c_http.cpp:144-202 | a line is accepted iff it is a word, blanks, a target beginning with http:// with a slash behind that, blanks, and HTTP/1.1, case aside in the last two |
| `HttpSpec.FormAccepted` | logic/ngx_c_http.cpp:144-202 | and then the path is the target from that slash on, and the verb the one named, or the one there was if the word names none |
| `HttpSpec.CaseIgnored` | logic/ngx_c_http.cpp:153-181 | comparing without case is comparing letters position by position |
| `HttpRequest.HandedLeads` | logic/ngx_c_http.cpp:240-298 | the lines given to handlers are the leading lines of the CRLF split |
| `HttpNumbers.ToIntRoundTrip` | logic/ngx_c_http_parheader.cpp:29 | every int printed in decimal, with anything but a digit behind it, is read back |
| `HttpNumbers.ToIntIff` | logic/ngx_c_http_parheader.cpp:29 | a number is read from a text iff the text is white space, perhaps a sign, its digits, and something that is not a digit; and it is an int |
| `HttpCrash.WeightsIff` | logic/ngx_c_http_assist.cpp:6-35 | the loop over quality values gets through iff the first weight of every comma-separated element is a number |
| `HttpCrash.ValueCrashIff` | logic/ngx_c_http_parheader.cpp:26-124 | a handler fails hard iff its value lacks a delimiter or number it relies on |
| `HttpCrash.LineCrashIff` | logic/ngx_c_http.cpp:217-226 | the same for a header line, which also needs its colon |
| `HttpCrash.RequestCrashIff` | logic/ngx_c_http.cpp:240-298 | a request crashes the parser iff its first line is good, then come header lines that are read without complaint, and then either one that lacks something its handler relies on, or the empty line and a line of a body whose length, added to the end of the line, is no int |
| `HttpCrash.NoColonCrashes` | logic/ngx_c_http.cpp:217-226 | any printed request line followed by a header line without a colon crashes it |
| `HttpCrash.HostWithoutColonCrashes` | logic/ngx_c_http.cpp:217-226 | a concrete request that does |
| `HttpCrash.ContentCrashIff` | logic/ngx_c_http.cpp:229-238 | in the content phase parsing fails hard iff the sum overflows at the first complete line, or the body is incomplete there and it overflows at a later one |
| `HttpCrash.HugeLengthCrashes` | logic/ngx_c_http.cpp:229-238 | any printed request line, a length too large for the end of the body's first line, the empty line and that line crash it |
| `HttpCrash.LargestLengthCrashes` | logic/ngx_c_http.cpp:229-238 | a concrete request that does |
| `HttpRoundTrip.RequestRoundTrip` | logic/ngx_c_http.cpp:240-298 | a printed request line, any list of printed legal headers, the empty line and any rest are parsed iff no body is announced, or the rest holds a complete line and behind it as many bytes as announced, with an int sum; and then every field is what the last header that sets it says |
| `HttpRoundTrip.ContentParsedIff` | logic/ngx_c_http.cpp:229-238 | a body is complete at its first line, or never |
| `HttpRoundTrip.AnnouncedBodyRejected` | logic/ngx_c_http.cpp:229-238 | a body of exactly the announced length, or one byte more, is not accepted |
| `HttpRoundTrip.HelloRejected` | logic/ngx_c_http.cpp:229-238 | a concrete request that is not |
| `HttpRoundTrip.FieldsAreLast` | logic/ngx_c_http_parheader.cpp:4-124 | after any list of legal headers every field is what the last header that sets it says, or what it was |
| `HttpRoundTrip.HostSet` | logic/ngx_c_http_parheader.cpp:19-24 | `Host:` sets the host |
| `HttpRoundTrip.CookieSet` | logic/ngx_c_http_parheader.cpp:98-106 | `Cookie:` sets name and value, cut at the first equals sign |
| `HttpRoundTrip.MatchSet` | logic/ngx_c_http_parheader.cpp:114-124 | `If-Match:` sets the tag between the first two quotes |
| `HttpRoundTrip.RangeIsSet` | logic/ngx_c_http_parheader.cpp:33-54 | `Range: bytes=` and two numbers set the bounds |
| `HttpRoundTrip.ConnectionSet` | logic/ngx_c_http_parheader.cpp:4-17 | `Connection:` sets whether the connection is kept |
| `HttpRoundTrip.AcceptCrashes` | logic/ngx_c_http_parheader.cpp:70-96 | the four Accept headers have their weights read: one that is no number crashes the parser |
| `HttpRoundTrip.UnknownRejected` | logic/ngx_c_http.cpp:220-224 | a header of any other name makes the request a bad one |
| `HttpMemory.HoldsCut` | logic/ngx_c_http.cpp:152 | overwriting one character of a string with NUL leaves the two strings around it |
| `HttpMemory.SplitWord` | logic/ngx_c_http.cpp:146-179 | cuts a word off in place and finds what follows the blanks |
| `HttpParser.Parser.ParseLine` | logic/ngx_c_http.cpp:110-142 | finds the line the specification finds and overwrites its CRLF; the bare-LF success branch is unreachable |
| `HttpParser.Parser.ParseRequestLine` | logic/ngx_c_http.cpp:144-202 | in place, the outcome of `ParseRequest` on the original line, with no write outside it |
| `HttpParser.Parser.ParseTarget` | logic/ngx_c_http.cpp:173-198 | version, scheme and path, in place |
| `HttpParser.Parser.ParseHeader` | logic/ngx_c_http.cpp:204-227 | in place, the outcome of `HeaderStep` on the original line, with no write outside it |
| `HttpParser.Parser.RangeFunc` | logic/ngx_c_http_parheader.cpp:33-54 | in place, the outcome of `RangeHeader` |
| `HttpParser.Parser.CookieFunc` | logic/ngx_c_http_parheader.cpp:98-106 | in place, the outcome of `CookieHeader` |
| `HttpParser.Parser.IfMatchFunc` | logic/ngx_c_http_parheader.cpp:114-124 | in place, the outcome of `MatchHeader` |
| `HttpParser.Parser.DecomposeWeight` | logic/ngx_c_http_assist.cpp:6-35 | the loop ends, writes only inside the value, and fails hard exactly when a weight does not parse |
| `HttpParser.Parser.ParseContent` | logic/ngx_c_http.cpp:229-238 | fails hard iff the int sum overflows, else completes iff enough input is left; kept strings are not disturbed |
| `HttpParser.Parser.HandleLine` | logic/ngx_c_http.cpp:252-291 | each line does what `LineStep` says of the original text |
| `HttpParser.Parser.ProcessRead` | logic/ngx_c_http.cpp:240-298 | parsing ends; code, fields and lines handed out are those of `Process` on the original buffer; kept strings are in place; apart from a completing `parse_content` nothing at or after m_check_idx was written |

## Left out

- Socket, epoll, accept, signal, fork, daemon and process-title code: reads, writes and waits appear as events with the contract of the system call.
- TLS (misc/ngx_c_ssl.cpp, misc/ngx_c_sslctx.cpp, logic/ngx_c_https.cpp): thin calls into a library that is not part of this model.
- Logging, configuration, singletons and memory wrappers: no property of their own.
- `do_request` and the response writers: file I/O and string appending; `ProcessRead` stops where `do_request` begins.
- `std::stof`: whether it accepts a text is a parameter of the parser (`Library`); `strtime_convert_time_t` only sets a time and is not modelled.
- Liveness (every task eventually runs, every timer eventually fires).
- The thread pool after shutdown begins, a pool created with Tmin > Tmax, `RecycleThread`, and a task that throws and so ends its worker.
- ConnectionClass.Connection.HandleReadable: the message header in front of a packet (connection pointer and sequence stamp) is space in the block, not bytes; the stamp is modelled in `ConnectionPool`. A packet handed over early is represented by the bytes received into it. A read that leaves the block is reported and not carried out; what it overwrites is not modelled.
- ConnectionClass.Connection.DrainReadable: the two copies of the state dispatch in the source are one method here; the per-connection mutex that the edge-triggered form leaves locked for the logic layer is not modelled.
- Heartbeat.Supervisor.Sweep: other threads get in between the passes of the loop, not between two reads of lastPingTime within one; a kick is one removal of that connection's entry; the source also calls `ngx_free_con_self`, which takes the mutex already held (see `SweepAsWritten`) and erases by time key. Entries removed by close handlers are likewise removed by connection, not by key. Times lie before 2038, where the int key of line 102 is exact.
- SendPath.Conservation: assumes a writer that takes a prefix of what it is offered; what becomes of a message with `HttpServer::WriteData`, which does not, is `RewriterIntactIff`.
- SendPath.RewriterIntactIff: `HttpWriteData` also unmaps the file of the response after every call (logic/ngx_c_http.cpp:98-108); what a second call then reads is not modelled.
- TimerQueue.NeverEarly: assumes that epoll_wait returns 0 only after its timeout; ids and the int timeout are unbounded in the model.
- ConnectionPool.StaleIffFreed: fewer than 2^64 operations lie between stamp and check; every connection given back is one in use, which the source does not check (see `FreeConnection`), and growth stays in its block (see `GrowthSoundIff`).
- PoolClass.Pool.GetConnection: growth that leaves its block is reported and not carried out; what it overwrites is not modelled.
- Crc32.Crc.GetCrc: an `unsigned int` is its 32 bits, least significant first; the length is not limited to 31 bits.
- HttpParser.Parser.ProcessRead: one request per parser object; characters are not limited to bytes. The write outside the buffer that an overflowing sum leads to is reported as a crash and not carried out.
