# Lattice, modelled in Dafny

A model of the hardest parts of Lattice, with proofs. `dafny verify dfyconfig.toml` checks all of it.

- `Reconcile`, `ReconcileSystem`, `ReconcileLiveness`, `Runner`: the reconcile scheduler: the loop's state and operations, the whole runner as an interleaved system of notifiers, loop and workers, and the loop's operations on fields updated in place
- `Bits`, `Sorting`, `Ranges`, `CnSet`: IPv4 ranges, smallest CIDR covers, the CN block set, and the generator that connects them
- `RelayProtocol`, `RelayStreams`, `RelayClient`, `RelaySession`, `FerrySystem`, `FerryDelivery`: the Ferry relay over TCP: frames, the server's and the client's loops over byte streams, sessions and their table, and the relay as an interleaved system
- `MediaReader`, `MediaClose`: the random-access media handle and its close protocol
- `ExitGate`, `Limiters`, `Packets`: the exit fail-open gate and takeover, the two limiters, and synthesized packets with their checksums
- `Types`: shared machine integer types

State machines quantify over every run: `Run(s, steps, t)` holds for every sequence of enabled steps, with the
operating system, the network, the clock and the Go scheduler choosing freely through the steps' parameters.
A class method models an operation that updates fields in place; it is proved equal to a function on values. What that
function does is stated again without it, in the terms of a caller, and the run theorems are about those functions. Integers are unbounded; widths are written out where they matter
(64-bit `start & -start`, 32-bit sums, 16- and 32-bit fields). Durations are in nanoseconds.

## What the code does not promise

Where the code differs from its description, the code is modelled and the exact condition is proved.

- The gate's comment counts a handshake that "happened or renewed" as progress; a first handshake after a sample with
  none is not counted (`FirstHandshakeIsMissed`), so a path can be declared dead at that moment. Within one WireGuard
  peer the byte counters hide this, since a completed handshake has received bytes (internal/agent/node.go:966-1004
  reads both at once); it shows when they start over, because the peer was created anew or another provider was chosen.
- The gate is not reset when another exit is chosen, so a provider can be judged by its predecessor's samples: the
  takeover can drop during an initial slow connect (`SwitchIsCleanIffNeverReady`, `SwitchDropsTakeover`).
- A takeover whose installation failed is not retried by the gate watch (`TickFollowsVerdict`,
  `FailedInstallIsNotRetried`).
- The server's frame loop drains a payload only for Forward and Probe (`ServeFrame`); a proof sent behind other frames
  is therefore neither accepted nor skipped (`UpgradedIffProofFirst`, `LateProofIsNotDrained`).
- A client read deadline that passes inside a header, or inside a payload that is only discarded, leaves the next call
  in the middle of a frame (`DeadlineKeepsAlignment`, `TimeoutLosesPacket`, `DeadlineInChallengeLosesPacket`). The
  exchange before the first call does so only inside its first header (`ExchangeKeepsAlignment`).
- A media body cut by the server reads as the end of the resource (`ShortReadIsEndIff`, `CutBodyReadsAsEnd`).
- The check on a 200 answer lets negative offsets through (`NegativeOffsetIsNotExact`).
- The ICMPv6 limiter's limit holds per window; in an arbitrary second the exact bound is 2 * limit - 1.
- A DNS reply to a query with IP options claims a 20-byte header (`OptionsMisplaceTheDatagram`), and its UDP checksum
  may come out as zero, which in RFC 768 means that there is none (`ZeroChecksum`).
- A frame handed to a session after `shutdown` may still be accepted (`AcceptedAfterShutdown`,
  `LateFrameIsAccepted`); it is never written whole (`NothingAfterShutdown`).

## Model

| member | source | states |
|---|---|---|
| `ReconcileSystem.StepKeepsInv` | internal/reconcile/runner.go:137-406 | every interleaved step of notifiers, loop and workers keeps the whole invariant: queue lists the pending keys once, pending and in-flight keys are disjoint, reruns only for in-flight keys, `busy` equals the in-flight count and stays within the pool, no notification lost, a waiting inbox always has a wake-up on the way, no key with two workers, nothing run more often than asked for, timed work never dropped |
| `ReconcileSystem.RunKeepsInv` | internal/reconcile/runner.go:164-406 | the same after any run of any length, under an unchanged configuration |
| `ReconcileSystem.RunnerSafety` | internal/reconcile/runner.go:133-406 | what a reader may rely on in every reachable state, spelled out: a key notified since it was last taken is in the inbox, the queue or the rerun set; a non-empty inbox has a token, a poster or a drain coming; one worker per key; rounds never exceed requests; exactly one scheduled listing per periodic kind; failed keys are queued, in flight or scheduled |
| `ReconcileSystem.ServedInOrder` | internal/reconcile/runner.go:327-343 | over any run, the key at queue position k is the one taken after exactly k others |
| `ReconcileSystem.OwedUntilTaken` | internal/reconcile/runner.go:282-293 | over any run, a notified key stops being owed a round only by being taken from the queue |
| `ReconcileSystem.FailsCountTheStreak` | internal/reconcile/runner.go:384-394 | over any run, a key's failure count is the number of its rounds that failed in a row since its last success, whatever else ran in between |
| `ReconcileSystem.BackoffFollowsStreak` | internal/reconcile/runner.go:384-390 | from start-up, the failure after k failures in a row schedules exactly one retry, after backoff step k, or the last step from there on |
| `ReconcileSystem.HandoffNeverBlocks` | internal/reconcile/runner.go:176-343 | whenever the loop is blocked handing over a task, some worker is idle to receive it |
| `ReconcileSystem.NeverStuck` | internal/reconcile/runner.go:176-406 | no reachable deadlock: until the runner is quiet or shut down, some step other than input is possible |
| `ReconcileSystem.StepLeavesLess` | internal/reconcile/runner.go:245-406 | every step the runner takes by itself lowers a well-founded measure |
| `ReconcileSystem.EveryRunStops` | internal/reconcile/runner.go:352-406 | no schedule of its own steps goes on forever: every infinite run contains input (a notification, the clock, shutdown) |
| `ReconcileSystem.StoppedIsSettled` | internal/reconcile/runner.go:176-204 | when no own step is left the runner is quiet, or after cancellation loop and workers have all returned |
| `ReconcileSystem.QuietMeansDone` | internal/reconcile/runner.go:345-406 | a quiet runner owes nothing: inbox, queue, rerun set and in-flight set are empty |
| `ReconcileSystem.EveryNotificationServed` | internal/reconcile/runner.go:133-151 | in whatever order the steps are taken, once they run out every notified key has been handed out after its notification and its round is over; for runs that input keeps going see `BoundedOvertaking` and `EveryKeyIsTaken` |
| `ReconcileSystem.BoundedOvertaking` | internal/reconcile/runner.go:282-343 | over runs with any input: from the drain of a notified key, no more keys than then wait in the queue are taken up to and including it; if a round of it is under way it stays due until that round is reported, and then the same holds |
| `ReconcileSystem.OvertakenAtMost` | internal/reconcile/runner.go:327-343 | over any run, a queued key is among the next keys taken, as many as the queue now holds |
| `ReconcileSystem.RerunUntilReport` | internal/reconcile/runner.go:399-402 | a rerun waits for nothing but the end of the round under way, and is then queued at once |
| `ReconcileLiveness.EveryKeyIsTaken` | internal/reconcile/runner.go:133-406 | no starvation over infinite runs with input that never stops: every key owed a round is taken, as long as goroutines are scheduled, rounds end and the select passes no ready arm over for good |
| `ReconcileLiveness.QueuedIsTaken` | internal/reconcile/runner.go:327-343 | in such a run every queued key is taken |
| `ReconcileLiveness.RerunComes` | internal/reconcile/runner.go:381-402 | and every key due for a rerun is queued |
| `ReconcileLiveness.InboxIsDrained` | internal/reconcile/runner.go:137-151 | and every notified key leaves the inbox for the queue or the rerun set |
| `ReconcileLiveness.InFlightIsHeld` | internal/reconcile/runner.go:327-343 | every key in flight is with a worker, or being handed to one |
| `Reconcile.EnqueueConsistent` | internal/reconcile/runner.go:269-280 | adding a round keeps queue, pending, in-flight and rerun sets consistent |
| `Reconcile.EnqueueKeeps` | internal/reconcile/runner.go:269-280 | adding a round makes exactly that key wait, only at the queue's end, and touches nothing else |
| `Reconcile.FiringReschedules` | internal/reconcile/runner.go:303-308 | popping any due event leaves exactly one scheduled listing per periodic kind and none for others |
| `Reconcile.FiringLeavesFewerDue` | internal/reconcile/runner.go:302-308 | popping a due event leaves exactly one fewer due, so the firing loop ends |
| `Reconcile.FireEventKeeps` | internal/reconcile/runner.go:302-325 | firing keeps the loop's invariants even when the lister fails, and makes exactly the asked-for keys wait |
| `Reconcile.FiringQueues` | internal/reconcile/runner.go:302-325 | one popped event makes exactly these keys wait: the key of a retry, or what the lister of a registered kind answers; nothing when it fails |
| `Reconcile.PopNKeeps` | internal/reconcile/runner.go:330-343 | handing out the first n queued keys keeps every loop invariant |
| `Reconcile.CompleteConsistent` | internal/reconcile/runner.go:381-402 | a completion keeps the loop consistent, rerun included |
| `Reconcile.CompleteTracks` | internal/reconcile/runner.go:384-398 | a completion keeps failed keys tracked and listings scheduled once |
| `Reconcile.CompleteQueue` | internal/reconcile/runner.go:381-402 | a completion frees exactly its worker, never reorders the queue and loses no waiting key |
| `Runner.CompletionOutcome` | internal/reconcile/runner.go:381-402 | a coalesced notification becomes a queued round if and only if there was one; failure counts, retries and requeues as promised, and no other event appears |
| `Runner.Runner.constructor` | internal/reconcile/runner.go:253-267 | the loop starts empty; a listing is due at once for a kind if and only if it is registered with a lister and a positive period |
| `Runner.Runner.Notify` | internal/reconcile/runner.go:137-151 | a registered key is in the inbox and a token is posted; an unregistered kind changes nothing |
| `Runner.Runner.AddRound` | internal/reconcile/runner.go:270-280 | the in-place update is the specified one |
| `Runner.Runner.DrainInbox` | internal/reconcile/runner.go:285-293 | in whatever order the batch is walked, the inbox empties and exactly its keys now wait |
| `Reconcile.Front` | internal/reconcile/runner.go:227-239 | what the event heap pops: an event no other precedes |
| `Runner.Runner.FireNext` | internal/reconcile/runner.go:303-324 | pops an earliest event, reschedules before asking the lister, then queues the keys |
| `Runner.AskedMeans` | internal/reconcile/runner.go:302-325 | what due events ask for: exactly the keys of due retries and of due listings that are answered |
| `Runner.Runner.FireDue` | internal/reconcile/runner.go:302-325 | ends with nothing due; a key waits if and only if it did before, has a due retry, or is in the answer of a due listing of a registered kind; future retries are all kept; every listing stays if it was not due, and moves to one period after the firing if it was |
| `Runner.Runner.Dispatch` | internal/reconcile/runner.go:330-343 | hands out a prefix of the queue in order, stopping only at a full pool, an empty queue or cancellation |
| `Runner.Runner.SettleRound` | internal/reconcile/runner.go:382-398 | failure and success bookkeeping of one completion |
| `Runner.Runner.HandleCompletion` | internal/reconcile/runner.go:381-402 | the whole completion, keeping the loop's invariants |
| `Ranges.FewestBlocks` | apple/engine/split/ranges.go:100-117 | disjoint maximal aligned blocks of a set are never more than any exact cover of it by aligned blocks |
| `Ranges.NextBlockIsLargest` | apple/engine/split/ranges.go:105-111 | the halving loop finds the largest aligned block at `start` that fits |
| `Ranges.NextBlockIsMaximal` | apple/engine/split/ranges.go:104-115 | that block is contained in no larger aligned block of the range, and none straddles its end |
| `Ranges.GreedyCount` | apple/engine/split/ranges.go:101-117 | at most 62 blocks for any range |
| `Ranges.GreedyIsOptimal` | apple/engine/split/ranges.go:100-117 | the greedy cover is ordered, exact, aligned, maximal, at most 62 blocks, and no aligned exact cover is smaller |
| `Ranges.LowBit` | apple/engine/split/ranges.go:106-108 | `start & -start` in 64 bits is the largest power of two dividing `start` |
| `Ranges.NextCidr` | apple/engine/split/ranges.go:105-114 | the inner loop ends with the greedy block and its prefix length |
| `Ranges.RangeToCIDRs` | apple/engine/split/ranges.go:100-117 | both loops end; the result is an ordered, disjoint, aligned, exact and smallest cover, also for an inverted (empty) range |
| `Ranges.MergeStepKeeps` | apple/engine/split/ranges.go:86-96 | one merge round keeps the address set and canonicity |
| `Ranges.MergeRanges` | apple/engine/split/ranges.go:78-98 | for every input the address set is kept; for valid ranges the result is sorted with a gap between neighbours |
| `Ranges.CanonicalIsUnique` | apple/engine/split/ranges.go:78-98 | canonical lists with the same addresses are equal, so merging depends only on the set, not on order or sort stability |
| `Ranges.MaximalInUnion` | apple/engine/split/ranges.go:79-117 | a block maximal in one merged range is maximal in the whole set |
| `Ranges.GenerateBlocks` | apple/engine/split/internal/gencn/main.go:64-68 | merging and then covering gives the smallest aligned exact cover of the whole record set |
| `CnSet.End` | apple/engine/split/cnset.go:30-35 | the bitwise or is the last address of the block, also for a /0 |
| `CnSet.TouchesReserved` | apple/engine/split/cnset.go:70-77 | true if and only if block and reserved space share an address |
| `CnSet.ReservedByOctets` | apple/engine/split/cnset.go:39-56 | the reserved space in octets: a.b.c.d is in it if and only if a is 0, 10, 127 or at least 224, or it is in 100.64/10, 169.254/16, 172.16/12 or 192.168/16 |
| `CnSet.StartsInside` | apple/engine/split/cnset.go:108-110 | a block starting inside an earlier-sorted one lies wholly inside it |
| `CnSet.CompactInPlace` | apple/engine/split/cnset.go:106-112 | the in-place scan leaves exactly the specified prefix |
| `CnSet.CompactOrdered` | apple/engine/split/cnset.go:100-112 | what is kept is sorted and pairwise disjoint |
| `CnSet.CompactReaches` | apple/engine/split/cnset.go:106-112 | dropping nested blocks changes no address |
| `CnSet.Admit` | apple/engine/split/cnset.go:88-99 | exactly the parsed blocks clear of reserved space are admitted |
| `CnSet.ParseCNSet` | apple/engine/split/cnset.go:83-114 | sorted and disjoint; only blocks from the lines; exactly the addresses of admitted blocks; never a reserved address |
| `CnSet.ParsedAgain` | apple/engine/split/internal/gencn/main.go:69-71 | parsing a parsed set's lines again gives the same set: no line is ever dropped |
| `CnSet.GenerateList` | apple/engine/split/internal/gencn/main.go:64-81 | generator to engine: the engine's set is the generated file line for line, with exactly the smallest-cover blocks clear of reserved space |
| `CnSet.Contains` | apple/engine/split/cnset.go:124-132 | binary search agrees with membership for every address, the nil set and non-IPv4 included |
| `CnSet.OnlyCandidate` | apple/engine/split/cnset.go:130-131 | only the last block starting at or below an address can hold it |
| `CnSet.ReachIsWeight` | apple/engine/split/cnset.go:134-147 | disjoint blocks cover as many addresses as their sizes add up to |
| `CnSet.LargestCoverMost` | apple/engine/split/cnset.go:134-147 | the `max` largest blocks cover at least as many addresses as any choice of at most `max` |
| `CnSet.Routes` | apple/engine/split/cnset.go:134-154 | address order; untouched when it fits; otherwise exactly `max` of the blocks, and no other choice covers more |
| `RelayProtocol.UnmarshalMarshal` | internal/relay/relay_protocol.go:75-105 | decoding undoes encoding, whatever follows |
| `RelayProtocol.HeaderLayout` | internal/relay/relay_protocol.go:75-92 | where each field stands in the twelve bytes, low byte first |
| `RelayProtocol.MarshalUnmarshal` | internal/relay/relay_protocol.go:75-105 | encoding undoes decoding; decoding fails exactly on fewer than 12 bytes |
| `RelayProtocol.MarshalInto` | internal/relay/relay_protocol.go:85-92 | writes those bytes in place and nothing behind them |
| `RelayProtocol.StampedIsFrame` | internal/relay/relay_protocol.go:107-114 | stamping changes the address field to the sender and nothing else of a frame |
| `RelayProtocol.StampSender` | internal/relay/relay_protocol.go:112-114 | the in-place stamp is that |
| `RelayStreams.ServeFrameAt` | internal/relay/relay_server.go:222-301 | one round of the server's frame loop does what the specification of a round says |
| `RelayStreams.ServeSession` | internal/relay/relay_server.go:222-302 | the frame loop on any byte stream, connected to the recursive specification the stream laws below are about |
| `RelayStreams.HandleSession` | internal/relay/relay_server.go:143-302 | from the first byte: nothing without an accepted Register; registration comes first, exactly once, verified exactly in strict mode |
| `RelayStreams.RegisteredIff` | internal/relay/relay_server.go:118-217 | a connection is registered by a lenient server if and only if its first frame is a Register of at most 512 bytes that carries the shared token, if there is one; otherwise, and in strict mode without a challenge, nothing at all happens |
| `RelayStreams.CutRegister` | internal/relay/relay_server.go:143-175 | a connection that ends inside its first frame gets nothing |
| `RelayStreams.RegisteredStays` | internal/relay/relay_server.go:254-260 | a registered connection never registers again, on any bytes |
| `RelayStreams.StrictRegistersFirst` | internal/relay/relay_server.go:182-272 | in strict mode nothing happens before a valid proof, which then registers once |
| `RelayStreams.ServedIsFramed` | internal/relay/relay_server.go:222-302 | on any bytes, every frame the loop relays is a whole Forward or Probe frame within the limit, sent where it is addressed, and a Forward one carries the identity its connection registered with: nobody can pass for another |
| `RelayStreams.HandledIsFramed` | internal/relay/relay_server.go:143-302 | the same from the first byte of a connection |
| `RelayStreams.ServeFrame` | internal/relay/relay_server.go:274-301 | a frame is consumed whole if it is Forward or Probe within the limit, or has no payload; otherwise the loop stops at it or goes on inside its payload |
| `RelayStreams.FirstFrame` | internal/relay/relay_server.go:236-272 | lenient mode: a valid first proof upgrades the session, a rejected one ends it, and any other first frame is served as if never challenged |
| `RelayStreams.ServeFrames` | internal/relay/relay_server.go:222-302 | on any aligned frames and a cut last one: exactly the Forward and Probe frames are relayed, in order, stamped |
| `RelayStreams.RelayedIsPrefix` | internal/relay/relay_server.go:222-302 | wherever the stream breaks, what was relayed is what the whole frames before the break ask for |
| `RelayStreams.RelaysOfFrames` | internal/relay/relay_server.go:274-300 | whatever else a stream carries, each Forward and Probe frame is asked for once, in order, under the sender's identity |
| `RelayStreams.HandledPlain` | internal/relay/relay_server.go:143-302 | a whole connection without a proof on a lenient server: register, then exactly its relayed frames |
| `RelayStreams.HandledProven` | internal/relay/relay_server.go:143-302 | a whole connection whose proof comes first, on either kind of server |
| `RelayStreams.KeepAlivePayloadLosesNext` | internal/relay/relay_server.go:274-277 | a concrete pair of frames for which the unaligned case loses the second |
| `RelayStreams.ReceiveOnce` | internal/relay/relay_client_tcp.go:491-563 | one receive call with a deadline after any number of bytes, in place: header deadlines keep the connection, short Probe and Forward payloads tear it down, other failed drains go unnoticed; a delivered packet is in the buffer |
| `RelayStreams.ReceiveFrames` | internal/relay/relay_client_tcp.go:455-566 | on frames with any commands and lengths the client stays aligned: it hands up exactly the Forward payloads that fit and the small probes, in order |
| `RelayStreams.ReceiveOneFrame` | internal/relay/relay_client_tcp.go:514-563 | one frame: a probe of at most 2048 bytes and a packet that fits the buffer are handed up under the identity in the header, anything else is skipped whole |
| `RelayStreams.StepIsReceive` | internal/relay/relay_client_tcp.go:460-566 | without deadlines, calls add up to what the stream yields |
| `RelayStreams.DeadlineKeepsAlignment` | internal/relay/relay_client_tcp.go:491-563 | a call at a frame start leaves the next call at a frame start, or disconnects, if and only if its deadline is neither after 1 to 11 header bytes nor inside the payload of a frame that is neither Probe nor Forward |
| `RelayStreams.CallsOnFrames` | internal/relay/relay_client_tcp.go:455-566 | over any number of calls whose deadlines spare the frames they are at, exactly what the first few frames yield is handed up |
| `RelayStreams.PerformAuthExchange` | internal/relay/relay_client_tcp.go:379-428 | the exchange before the first call, with a deadline after any number of bytes: no header in time means no challenge, an unexpected frame or a short key tears the connection down |
| `RelayStreams.ExchangeKeepsAlignment` | internal/relay/relay_client_tcp.go:384-411 | the exchange leaves the stream at a frame start, or torn down, if and only if its deadline is not after 1 to 11 bytes of the first header |
| `RelayStreams.ExchangeThenReceive` | internal/relay/relay_client_tcp.go:397-427 | a challenge in time is answered, and what follows is received as if it had not been there |
| `RelayStreams.DeadlineInChallengeLosesPacket` | internal/relay/relay_client_tcp.go:557-562 | a concrete packet lost because a challenge came after the exchange had given up on it and a deadline fell behind its header |
| `RelayStreams.TimeoutLosesPacket` | internal/relay/relay_client_tcp.go:498-502 | a concrete packet lost to one dropped header byte |
| `RelayClient.TCPClient.Send` | internal/relay/relay_client_tcp.go:278-290 | queues the frame exactly when connected and fewer than 4096 wait; numbers it if connected |
| `RelayClient.TCPClient.FlushFrames` | internal/relay/relay_client_tcp.go:336-352 | the batch reaches the connection whole and in order, or a prefix of it does |
| `RelayClient.TCPClient.WriterRound` | internal/relay/relay_client_tcp.go:295-329 | one round empties the queue and writes all of it, or gives the connection up exactly when the write fails |
| `RelayClient.SentFields` | internal/relay/relay_client.go:146-158 | command, address, length and data all reach the frame |
| `RelayClient.RelayedAlone` | internal/relay/relay_server.go:278-301 | a packet or probe is relayed if and only if it has at most 65536 bytes, to the peer it names: a packet with its sender's registered identity in place of the address, a probe as it is |
| `RelayClient.PacketArrives` | internal/relay/relay_server.go:278-301 | client to client: a packet comes out with its data, under the identity its sender registered |
| `RelayClient.ProbeArrives` | internal/relay/relay_server.go:278-301 | client to client: a probe comes out with its data, under the identity it was addressed to |
| `RelayClient.WireIsPrefix` | internal/relay/relay_client_tcp.go:278-352 | however sends and rounds interleave and whatever fails, the bytes on a connection are a prefix of the accepted frames in order, with nothing missing while it is up |
| `RelayClient.QueueToRelay` | internal/relay/relay_client_tcp.go:292-352 | queue to relay: the server relays what the first few accepted frames ask for, in order, and all of them once the writer has caught up; without a failed write the connection stays up |
| `RelayClient.UpgradedIffProofFirst` | internal/relay/relay_server.go:236-272 | a lenient session becomes verified if and only if a valid proof is the first frame after Register |
| `RelayClient.ServedIffProofFirst` | internal/relay/relay_server.go:266-270 | a strict server serves a connection if and only if the same holds |
| `RelayClient.StrictRegisteredIff` | internal/relay/relay_server.go:118-270 | from the first byte, a strict server registers a connection if and only if Register and token are right, the challenge got out, and a valid proof of at most 64 bytes comes next |
| `RelayClient.LateProofIsNotDrained` | internal/relay/relay_server.go:271-301 | a proof behind other frames is served as frames from inside its payload |
| `RelaySession.ShutdownOnce` | internal/relay/session_writer.go:129-138 | shutting down twice is shutting down once; the stream is closed by it at most once, what was queued stays, and a started writer is told |
| `RelaySession.Session.constructor` | internal/relay/session_writer.go:59-63 | a session starts unverified, without queue or writer |
| `RelaySession.Session.Enqueue` | internal/relay/session_writer.go:65-92 | accepted only with room, dropped only when done or full; order kept, drops counted |
| `RelaySession.EnqueueOutcome` | internal/relay/session_writer.go:69-86 | a frame handed over is last in the queue or counted as dropped, never both; a queue of 256 takes none, and nothing is dropped below that unless the session is done |
| `RelaySession.Session.CloseDown` | internal/relay/session_writer.go:131-138 | the specified shutdown |
| `RelaySession.Session.WriteNext` | internal/relay/session_writer.go:94-127 | the next frame is written whole, or cut and the session shut down and its writer gone |
| `RelaySession.SessionManager.constructor` | internal/relay/session_manager.go:36-48 | an empty table in the given mode |
| `RelaySession.SessionManager.Register` | internal/relay/session_manager.go:50-62 | the newest session takes the slot; exactly the displaced one is shut down |
| `RelaySession.SessionManager.Unregister` | internal/relay/session_manager.go:64-77 | only the owner empties the slot; otherwise nothing changes |
| `RelaySession.SessionManager.MarkVerified` | internal/relay/session_manager.go:107-115 | only the owner is marked |
| `RelaySession.SessionManager.Get` | internal/relay/session_manager.go:127-134 | the slot's session exactly when present and, in strict mode, verified |
| `RelaySession.SessionManager.Relay` | internal/relay/session_manager.go:136-156 | reaches exactly the destination's queue, with room only, and is dropped only when done or full; fails without a reachable session, touches no other session (TCP path) |
| `FerrySystem.TableKept` | internal/relay/session_manager.go:50-77 | every interleaved step keeps the table invariant: latest registration owns the slot unless it left, displaced sessions are shut down or owed a shutdown, queues bounded, streams closed at most once |
| `FerrySystem.LateActsAreNoOps` | internal/relay/session_manager.go:64-77 | a displaced session's late cleanup or proof changes neither the table nor any other session |
| `FerrySystem.ClosedWriterEnds` | internal/relay/session_writer.go:88-138 | after shutdown a writer, even one started by a late frame, writes nothing more whole and has at most two steps left whoever else moves |
| `FerrySystem.ClosedWriterNeverWaits` | internal/relay/session_writer.go:97-138 | it never waits for a frame that cannot come: no writer goroutine is left behind |
| `FerrySystem.NothingAfterShutdown` | internal/relay/session_writer.go:129-138 | over any run, nothing is delivered on a stream whose session was shut down |
| `FerrySystem.AcceptedAfterShutdown` | internal/relay/session_writer.go:69-86 | a handler holding a shut-down, reachable session may have its frame accepted if and only if the queue holds fewer than 256 frames |
| `FerrySystem.LateFrameIsAccepted` | internal/relay/session_writer.go:69-92 | a run that gets there: the frame is queued after the shutdown |
| `FerryDelivery.StepKeepsData` | internal/relay/session_writer.go:65-127 | every interleaved step keeps the delivery invariant over all connections |
| `FerryDelivery.DeliverySafety` | internal/relay/session_writer.go:65-127 | over every run each destination stream is whole frames but for a last one cut; per source an in-order, duplicate-free part of what it addressed there, byte for byte; no frame reaches two streams; strict mode delivers only to verified sessions |
| `FerryDelivery.TableSafety` | internal/relay/session_manager.go:50-77 | over every run: slot ownership, owed shutdowns, single close, bounded queues |
| `FerryDelivery.EveryFrameAccounted` | internal/relay/session_writer.go:65-127 | conservation over every run: the frames handed to a session are exactly those written whole, being written, queued, cut at the end of its stream, or counted as dropped |
| `FerryDelivery.RelayingNeverBlocks` | internal/relay/session_writer.go:65-86 | a handler with a frame to relay can always move on, whatever its destination does; an open session with room takes the frame |
| `FerryDelivery.QueueDrains` | internal/relay/session_writer.go:96-127 | on an open stream the writer alone can write out everything queued, in order |
| `FerryDelivery.StrictSlotsAreReachable` | internal/relay/relay_server.go:189-262 | over every run of a strict relay, whoever holds a slot is verified and can be reached |
| `FerryDelivery.ChallengeComesFirst` | internal/relay/relay_server.go:199-211 | over every run, a challenged client finds its challenge whole at the front of its stream and goes on behind it; an unchallenged one finds relayed frames only |
| `FerryDelivery.EndToEnd` | internal/relay/relay_server.go:143-302 | from every source's bytes to a destination's packets, over every run and whatever any of them writes: the client hands up exactly what the greeting and the frames written whole yield, in order; each of those is one its source's bytes ask to relay to this peer, Forward ones under the identity that source registered with; a cut frame yields nothing |
| `FerryDelivery.FromFrames` | internal/relay/session_writer.go:65-127 | for a source writing frames the loop consumes whole, keep-alives included, a delivered frame is the one with its number among those the source addressed to anybody, and was addressed to this peer |
| `MediaReader.MediaHandle.constructor` | apple/engine/tvoslib/media.go:89-95 | a handle starts open, without a stream |
| `MediaReader.MediaHandle.Open` | apple/engine/tvoslib/media.go:185-234 | adopts a 206, or a 200 unless the offset is positive; any other answer leaves no stream |
| `MediaReader.MediaHandle.Fill` | apple/engine/tvoslib/media.go:136-145 | fills the front of the buffer with the next bytes, leaves the rest, or fails and discards the stream |
| `MediaReader.MediaHandle.ReadInto` | apple/engine/tvoslib/media.go:123-146 | one readAt: the count and the bytes are those of the value-level read that the refinement below is about |
| `MediaReader.ReadOpens` | apple/engine/tvoslib/media.go:123-234 | on a handle neither closed nor closing, a read that has to reopen succeeds if and only if the answer is a 206, or a 200 at an offset that is not positive, and the body does not break off; it returns what the body starts with, as much as the buffer takes |
| `MediaReader.ReadContinues` | apple/engine/tvoslib/media.go:123-146 | a read at the stream's position succeeds if and only if the body does not break off, and returns its next bytes without asking the server |
| `MediaReader.ReadWhileClosing` | apple/engine/tvoslib/media.go:123-206 | on a closed or closing handle a read succeeds if and only if it is only closing and its stream is at the offset already |
| `MediaReader.RunReads` | apple/engine/tvoslib/media.go:123-234 | what every read of any run returns: it is served from the answer of the last opening, its own unless the read before succeeded and ended at its offset; when it fails and which bytes it gets otherwise |
| `MediaReader.MediaHandle.Close` | apple/engine/tvoslib/media.go:296-300 | what close does once it has the lock: closed, closing and without a stream |
| `MediaReader.ReadAtIsExact` | apple/engine/tvoslib/media.go:125-146 | one read at a non-negative offset returns exactly the resource's bytes there and keeps the cached stream in step |
| `MediaReader.ShortReadIsEnd` | apple/engine/tvoslib/media.go:123-140 | with complete bodies a short count means the end of the resource |
| `MediaReader.ShortReadIsEndIff` | apple/engine/tvoslib/media.go:123-146 | over any run of reads, whatever the answers and faults: a short count means the end of the resource if and only if the answer adopted by the last opening at or before it reached that end |
| `MediaReader.CutBodyReadsAsEnd` | apple/engine/tvoslib/media.go:138-140 | a concrete body cut by the server that reads as a short count and then as 0 |
| `MediaReader.CachedStreamIsRandomAccess` | apple/engine/tvoslib/media.go:123-234 | refinement: for any sequence of reads, answers and faults, every successful read equals direct random access |
| `MediaReader.NegativeOffsetIsNotExact` | apple/engine/tvoslib/media.go:213-230 | a read that has to reopen, on any handle in step with the resource, is exact for every honest server if and only if the offset is not negative |
| `MediaReader.NegativeOffsetPoisonsStream` | apple/engine/tvoslib/media.go:225-233 | a concrete run in which a negative offset spoils a later valid read |
| `MediaClose.StepKeepsInv` | apple/engine/tvoslib/media.go:125-311 | every interleaved step of any number of readers and closers keeps mutual exclusion, the published cancel and the closing flags in step |
| `MediaClose.CloseProtocol` | apple/engine/tvoslib/media.go:148-311 | over every run: whatever waits on the network is published; once a closer has struck it is cancelled; once closed, no body, no cancel and nobody on the network |
| `MediaClose.ReadersMoveOn` | apple/engine/tvoslib/media.go:125-234 | each own step brings a reader strictly closer to releasing the lock; nobody else's moves it |
| `MediaClose.HolderIsNeverStuck` | apple/engine/tvoslib/media.go:282-305 | once a closer has struck, a reader holding the lock can always move without the server |
| `MediaClose.ClosingRefusesRequests` | apple/engine/tvoslib/media.go:189-199 | once closing, an openAt that reaches its check is refused |
| `MediaClose.ClosedForGood` | apple/engine/tvoslib/media.go:125-130 | after a close got the lock the handle stays closed and every later read fails |
| `MediaClose.CloserAdvances` | apple/engine/tvoslib/media.go:274-311 | while a close is under way some step that needs no server brings it strictly nearer its end |
| `MediaClose.CloseCompletes` | apple/engine/tvoslib/media.go:274-311 | from any such state the close can run to its end without the server ever answering |
| `MediaClose.ReadSucceeds` | apple/engine/tvoslib/media.go:123-234 | while nobody closes, a read that has the lock succeeds if the server answers |
| `MediaClose.FairRunsEnd` | apple/engine/tvoslib/media.go:282-311 | and every run does: after a strike, with nobody new and the holder of the lock not passed over forever, no schedule and no server behaviour keeps a close retrying forever |
| `ExitGate.ExitPathGate.Evaluate` | internal/agent/exit_gate.go:53-82 | one sample updates the gate and returns the specified verdict |
| `ExitGate.GateTracks` | internal/agent/exit_gate.go:44-77 | over any samples in time order the gate's fields are the last sample and the time of the last sign of life |
| `ExitGate.GateIsExact` | internal/agent/exit_gate.go:53-82 | the verdict is dead if and only if some sample was ready and the last is failed or closed, or no sign of life came within 60 s |
| `ExitGate.ReadyThenSilent` | internal/agent/exit_gate.go:58-82 | in numbers: a path ready once and silent since is dead if and only if it failed, closed, or more than 60 s passed; a path never ready is not dead |
| `ExitGate.FirstHandshakeIsMissed` | internal/agent/exit_gate.go:60-65 | progress is what the description says it is if and only if the sample is not a first handshake after a sample without one |
| `ExitGate.FirstHandshakeMissedExample` | internal/agent/exit_gate.go:60-63 | a concrete path declared dead at its first handshake, with byte counters that started over |
| `ExitGate.UnknownPeerAsProgress` | internal/agent/exit_gate.go:54-63 | exactly when the sample of an unknown peer counts as progress |
| `ExitGate.MessageHandler.ApplyRemotePeers` | internal/agent/message_handler.go:264-300 | the takeover part of applying a netmap, command failures included; an exit is selected if and only if a peer is one, and it is the one no other precedes |
| `ExitGate.AppliedSelects` | internal/agent/message_handler.go:264-300 | what a netmap does, case by case: which exit is selected, when the takeover is installed or removed, and that failed commands change neither routing nor gate |
| `ExitGate.TickKeeps` | internal/agent/message_handler.go:327-358 | a tick leaves the selection alone, and everything when there is no exit to watch; failed commands change neither routing nor gate |
| `ExitGate.SelectionFollowsNetmap` | internal/agent/message_handler.go:264-300 | over any run, whatever commands fail, the exit is the first one of the last netmap |
| `ExitGate.MessageHandler.ReconcileExitGate` | internal/agent/message_handler.go:327-358 | one tick of the gate watch, command failures included |
| `ExitGate.NeverActiveWhileDead` | internal/agent/message_handler.go:273-358 | over any run, whatever commands fail, the takeover is never installed while gated |
| `ExitGate.ActiveIffWanted` | internal/agent/message_handler.go:264-358 | over any run in which commands succeed, the takeover is installed if and only if the last netmap had an exit and the gate is open |
| `ExitGate.TickFollowsVerdict` | internal/agent/message_handler.go:327-358 | a successful tick makes the takeover follow the verdict if and only if the verdict is dead, or the takeover was installed or gated before: a live path does not bring back one whose installation failed |
| `ExitGate.TicksNeverInstall` | internal/agent/message_handler.go:338-357 | ticks alone never install a takeover that is off and not gated |
| `ExitGate.FailedInstallIsNotRetried` | internal/agent/message_handler.go:276-283 | a run from start-up: an exit whose installation failed once stays off through any ticks, however alive its path |
| `ExitGate.GateFollowsRun` | internal/agent/message_handler.go:329-337 | over any run of netmaps and ticks the gate is what the samples fed to it make of it |
| `ExitGate.FailsOpenExactly` | internal/agent/message_handler.go:264-358 | over any run from start-up whose commands succeed: after a tick the takeover is off if and only if the path is dead, judged from all samples fed so far, of whichever provider |
| `ExitGate.FailsOpenOnItsOwn` | internal/agent/message_handler.go:293-337 | and judged from the current provider's own samples, if no earlier provider was ever ready |
| `ExitGate.NeverReadyLeavesNoTrace` | internal/agent/exit_gate.go:66-81 | samples of a provider that was never ready do not change later verdicts |
| `ExitGate.SwitchIsCleanIffNeverReady` | internal/agent/exit_gate.go:70-81 | a gate that has seen another provider judges the next by its own samples, whatever they will be, if and only if the earlier one was never ready |
| `ExitGate.SwitchDropsTakeover` | internal/agent/message_handler.go:293-347 | a run in which switching from a ready provider to one whose first attempt fails drops the takeover, against that one's own samples |
| `Limiters.RateLimiter.Allow` | apple/engine/ipv6.go:101-114 | the in-place limiter is the specified window |
| `Limiters.AdmittedInAnySecond` | apple/engine/ipv6.go:87-114 | over any calls in time order, at most 2 * limit - 1 are admitted in any second, aligned or not |
| `Limiters.BoundIsReached` | apple/engine/ipv6.go:105-113 | for every limit some calls reach that bound |
| `Limiters.RefusedOnlyWhenFull` | apple/engine/ipv6.go:109-113 | a call is refused only when the limit has been admitted within the second up to it |
| `Limiters.NoLimitAdmitsNothing` | apple/engine/ipv6.go:109-111 | a limit of zero or less admits nothing |
| `Limiters.RelayFailLimiter.Allow` | internal/relay/relay_fail_limiter.go:35-54 | answers from the table, prunes a full one, notes the call |
| `Limiters.PruningIsInvisible` | internal/relay/relay_fail_limiter.go:42-52 | over any calls in time order, a line is suppressed if and only if one for that destination was let through in the last 30 s |
| `Limiters.TableStaysSmall` | internal/relay/relay_fail_limiter.go:45-53 | after a call that is let through the table has at most 1024 entries, or none older than 30 s |
| `Limiters.NeverDeletingAgrees` | internal/relay/relay_fail_limiter.go:45-51 | a limiter that never deletes answers the same |
| `Packets.AddWords` | apple/engine/ipv6.go:207-221 | the summing loop computes the word sum without wrapping |
| `Packets.FoldOnce` | apple/engine/ipv6.go:222-224 | adding the carries back keeps the one's-complement value |
| `Packets.FoldDown` | apple/engine/ipv6.go:222-224 | the folding loop ends with that value |
| `Packets.ComplementVerifies` | apple/engine/ipv6.go:222-225 | any sum plus its complement folds to all ones |
| `Packets.ChecksummedVerifies` | apple/engine/ipv6.go:202-226 | a message carrying its checksum sums to all ones at the receiver, odd lengths included |
| `Packets.PutChecksum` | apple/engine/ipv6.go:198-226 | computes and stores that checksum in place and touches nothing else |
| `Packets.BuildICMPv6Unreachable` | apple/engine/ipv6.go:174-200 | at most 1280 bytes; addresses, lengths, type, zeroed fields, longest quote that fits, valid checksum |
| `Packets.Icmp6ReplyFor` | apple/engine/ipv6.go:153-172 | answers if and only if the packet is IPv6, between global unicast addresses and no ICMPv6 error, from the gateway to the packet's source |
| `Packets.UnreachableVerifies` | apple/engine/ipv6.go:202-226 | a receiver that sums the packet's own addresses and length, next header 58 and the message gets all ones |
| `Packets.RepliesAreNotAnswered` | apple/engine/ipv6.go:153-172 | a reply is never itself answered, and quotes all of the packet or fills 1280 bytes |
| `Packets.SwapUDPReply` | apple/engine/packet_tun.go:494-540 | swapped addresses and ports, the query's identifier, payload and both checksums |
| `Packets.LengthsAreTruncated` | apple/engine/packet_tun.go:498-509 | the claimed length is the true one if and only if the reply is below 64 KiB |
| `Packets.IpHeaderVerifies` | apple/engine/packet_tun.go:531-538 | the IPv4 header verifies |
| `Packets.VerifiesIffDivisible` | apple/engine/ipv6.go:205-226 | what all ones means: the summed bytes, read as one big-endian number, are a multiple of 65535 |
| `Packets.NetworkOrder` | apple/engine/packet_tun.go:498-512 | lengths and ports of a reply, read as big-endian numbers, are the promised ones |
| `Packets.UdpVerifiesByField` | apple/engine/packet_tun.go:509-529 | a receiver that sums addresses, protocol 17, the datagram's own length field and the datagram gets all ones if and only if it is below 64 KiB |
| `Packets.OptionsMisplaceTheDatagram` | apple/engine/packet_tun.go:495-506 | a receiver finds the datagram if and only if the query had no IP options |
| `Packets.ZeroChecksum` | apple/engine/packet_tun.go:526-529 | the stored checksum is zero if and only if the sum is a multiple of 0xFFFF |
| `Packets.ZeroChecksumPayload` | apple/engine/packet_tun.go:519-529 | zero checksums occur: a datagram with a zero first payload word has one when that word is replaced by its checksum |

## Left out

- Go's `container/heap`, `sort` and channels: an event heap is a sequence popped at an earliest element, a sort is a sorted permutation, a channel is a bounded sequence or a flag. Equal-time events may pop in any order.
- internal/reconcile/clock.go: a timer step may fire at any time at or after an event's deadline; timers are not objects.
- Reconcilers, listers and panics in them: a round's outcome and a listing are parameters; `Start`'s already-started error and registration before start are not modelled.
- Runner.Runner.FireDue: a firing takes one answer per lister, which is all it asks for, since each kind has one listing scheduled and the next one lies past the firing (`FiringReschedules`).
- Packets.SwapUDPReply: requires a reply of at most 0x1F000 bytes, more than any DNS message needs; for longer ones the source's 32-bit sums could wrap.
- Packets.AddWords: requires that the sum stays below 2^32, which its callers prove from their packet sizes.
- Packets.Icmp6ReplyFor: whether an address is global unicast is a parameter, as is the address classification of `netip`.
- RelaySession.Session.WriteNext: models a round that finds a frame; a round that finds the session done is the step `WriterQuits` of the system.
- RelayStreams.ReceiveOnce: models a call on an established connection; waiting for a reconnect and a full probe channel are left out.
- RelayClient.TCPClient.WriterRound: takes the whole queue; frames that arrive while a batch is being collected fall into the next round.
- FerryDelivery.EndToEnd: what a source writes is fixed when it connects, and its handler may stop anywhere in it; a challenge the server fails to get out whole is taken as not sent.
- RelaySession.SessionManager.Relay: TCP destinations; QUIC ones take a datagram path that is not modelled.
- MediaReader.MediaHandle.Close: the cancel snapshots and the retry loop before it are in `MediaClose`.
- The handler's own deferred `stream.Close` closes the stream outside the once-guard, so "closed at most once" counts the closes that `shutdown` makes.
- QUIC sessions, TLS, the HTTP upgrade, socket options and deadlines: reads and writes succeed, fail or stop short.
- X25519 and the token comparison's timing: a proof check is an arbitrary predicate on the payload.
- The client's redial loop, its backoff and the window between a new connection becoming visible and its Register frame; the proof it computes.
- Netmap version guards and the rest of message handling; a netmap apply and a gate tick are single steps.
- The operating system's routing commands: they succeed or fail.
- APNIC and CIDR text parsing: lines are already blocks or something to skip, and ranges are numeric.
- HTTP header handling, the size probe and status posts of the media handle; whether `Do` notices a cancelled context is taken for granted.
- Memory effects within one critical section and Go's memory model: each section under a lock is one step.
- The Apple engine's use of the exit gate, DNS interception, cast handling and the rest of the packet tunnel.
- Node wiring, enrollment, heartbeat, ingress, daemon and CLI commands, the Kubernetes types, the frontend and the SDK: declarations, wiring or input and output.
