# Verified model of a user-space IP/TCP stack

A Dafny model of the two protocols at the heart of the stack, distance-vector routing and
TCP stream transfer, together with the packet formats and the forwarding path they rely on.
All contracts are statements about every input, every run or every reachable state.

## Routing

`RipCore` is a transition system for a whole network: every node's table and every packet in
flight. An event handles, loses or repeats one packet, sends one full table, or expires routes.
The update rule is the program's own: a better cost is adopted, a worse cost from the current
next hop *deletes* the entry, an equal cost from the next hop triggers an update again, and the
cost `entry.Cost+1` is uint32 arithmetic. `RipSlice` shows that each step of the network is one
step of the view of every single prefix; the protocol proofs are about that view and are lifted
back to whole tables.

* `RipSoundness`: under loss, repetition, reordering and expiry, every finite cost is the length
  of a real walk to an originator.
* `RipConfigured`: when configured routes are safe. A static route that leads to a RIP neighbour is
  deleted by the first announcement of its prefix from there, so configured routes persist in every
  run if and only if no such neighbour can ever come to know the prefix; that is a condition on the
  topology and the configuration alone.
* `RipLoopFree`: under that condition, on links that keep order but may lose packets, no route is
  deleted, costs only fall, and cost drops along every learned next hop, so learned next hops never
  form a loop. The invariant covers finite and poisoned entries still in flight. The condition is
  exact for learned and configured routes together, too.
* `RipLoops`: forwarding loops through static routes. A node sends packets to link neighbours only;
  RIP neighbours are link neighbours because the configuration parser demands it
  (`pkg/lnxconfig/lnxconfig.go:171-180`), while the next hop of a static route may be any address. A
  static route may lead to a link neighbour that learned the prefix from the static route's own node;
  then packets go round (`StaticRouteLoops`). Some run on ordered links has a forwarding loop for a
  prefix if and only if the configuration has a *snare*: nodes whose configured routes all lead to
  link neighbours that news from these same nodes can reach within 15 hops. Prefixes that are only
  configured on interfaces, or to next hops that are no link neighbours, never loop.
* `RipAddresses`: the same for a destination address, where each node uses the most specific prefix of
  its own table and different nodes may use different prefixes. Along learned next hops the prefix
  becomes more specific or the cost falls, so every loop passes a static route. A snare of the most
  specific configured prefix of an address gives a loop for the address.
* `RipQuiescence`: triggered updates die out, with an explicit bound, on every topology and in
  every order of delivery.
* `RipConvergence`: without rounds, in every interleaving on lossless ordered links, a state with
  nothing in flight holds a prefix exactly where news of it can get within 15 hops, at the least
  number of hops; the start-up exchange reaches such a state; no later event changes it. Without
  static routes to RIP neighbours these are exactly the shortest paths.
* `RipRounds`: the same in synchronous rounds, as runs of the network, with the number of rounds.
* `RipRuns`: how runs on ordered links are built, for the lemmas that show that some run exists.
* `RipNodes`: the table class with the program's loops, proved to be the network model's step.
* `RipCodec`: the wire format, masks included.

## Stream transfer

`Ring`, `ReadBuffers` and `WriteBuffers` hold the two ring buffers as arrays and relate ring
indices modulo 2^16 to 32-bit cumulative numbers and to a byte stream. `EarlyQueues` is the heap of
early packets, `Reassembly` the receiver around it. `SlidingWindows` gives the sender loop and its
invariant on values; `WindowLists` is the linked list and the socket fields updated in place,
proved against it. `Transfer` and `TransferSafety` put the writing application, the send ring, the
sender thread, the retransmission timer, both lossy channels, the receiver and the reading
application into one step relation; `TransferSafety` is end-to-end safety with room for one maximal
segment at the receiver. `SendRing` is about the sending side alone and needs nothing of the peer:
whatever window is announced, no unacknowledged byte is overwritten, each payload copied out is the
chunk written since the last hand-over, and every segment on the wire is a piece of the stream at its
sequence number. `TransferFits` is end-to-end safety without the standing room, for runs in which
each delivered segment fits, and `TransferLimits` is a run that breaks safety when one does not.
`Handshake` and `Close` are the connection state machines.

Behaviour of the code that the model keeps as it is:

* a duplicate acknowledgement leaves `unackedMtx` locked (`tx.locked`), after which the sender
  thread blocks for good in its next send (`Jammed`);
* a FIN in a state other than ESTABLISHED or FIN_WAIT_2 leaves `stateMtx` locked (`stuck`), and a
  FIN taken from the early queue changes the state without being counted in `cumReadNXT`;
* a segment older than the latest one takes `cumReadNXT` back; the buffer stays right exactly if the
  reader has not passed that point (`OlderSegmentIff`), and otherwise offers ring bytes that are not
  the next ones (`OlderSegmentMisleads`);
* the receiver copies a segment in whenever its window is not zero, which is right exactly if the
  segment fits the window (`NextSegmentIff`), and the sender cuts only the first segment of a chunk to
  the window, so unread bytes can be overwritten (`UnsafeWithoutRoom`);
* the receiver's checksum test compares the folded sum with the stored checksum instead of with
  zero, so it rejects exactly the packets whose stored checksum is zero (`AcceptedIff`).

What the code relies on is stated as a precondition: sequence numbers stay below 2^32, arriving
segments fit the free space, RIP neighbours are mutual.

## Packets and forwarding

`Ipv4` and `Packets` are header encoding, decoding and checksum; `Forwarding` is longest-prefix
match, `FindNext`, the per-node decision of `handlePackets`, and a packet's whole way.

## Model

| member | source | states |
|---|---|---|
| RipNodes.Node.constructor | pkg/node/node.go:91-120 | a node starts with its static routes and, in their place where prefixes coincide, its interface routes, the last one winning |
| RipNodes.StartsConfigured | pkg/node/node.go:91-120 | all starting routes cost 0 and are not learned; a prefix has one exactly if it is static or on an interface, and a static one exactly if no interface has it |
| RipNodes.Node.StartRequests | pkg/node/node.go:121-139 | one request to each RIP neighbour, in order |
| RipNodes.Node.HandleEntry | pkg/node/node.go:260-297 | one entry changes only its own prefix's slot and triggered record, exactly as the reaction rule says |
| RipNodes.FoldAlone | pkg/node/node.go:249-298 | in a packet without repeated prefixes an entry acts on its slot as if it were alone, wherever it is listed |
| RipNodes.FoldIsHandle | pkg/node/node.go:249-298 | handling a listed packet entry by entry is the table-wide function of the network model |
| RipNodes.Node.HandleResponse | pkg/node/node.go:246-298 | the loop leaves in every slot the fold of the packet's entries over the old slot, and collects exactly the triggered ones |
| RipNodes.Node.Announcement | pkg/node/node.go:197-217 | lists every route of the set once, at its cost, poisoned to 16 towards its next hop, in whatever order the map is iterated |
| RipNodes.Node.AnnounceToAll | pkg/node/node.go:300-304 | one announcement to each neighbour in order, and none when nothing was triggered |
| RipNodes.Node.Collect | pkg/node/node.go:410-434 | removes exactly the stale learned routes and announces them at cost 16 |
| RipNodes.Node.Protocol200 | pkg/node/node.go:235-306 | handling one packet is one delivery step of the network model: same table, same packets on the same links |
| RipSlice.HandleSlices | pkg/node/node.go:249-298 | entries of different prefixes never interact |
| RipSlice.StepSlices | pkg/node/node.go:197-434 | every event of the network is the same event seen through any single prefix |
| RipSoundness.StepSound | pkg/node/node.go:197-306 | every event keeps finite costs backed by real walks |
| RipSoundness.RoutesAreReal | pkg/node/node.go:92-120 | in every run with loss, repetition, reordering and expiry, each table entry and each finite cost in flight has a walk of exactly that many hops to an originator |
| RipSoundness.NeverBelowDistance | pkg/node/node.go:197-306 | a cost is never below the true distance |
| RipLoopFree.NoDrop | pkg/node/node.go:281-289 | handling the oldest packet of a link never takes the delete branch while the in-flight invariant holds |
| RipLoopFree.OrderedDeliver | pkg/node/node.go:197-306 | handling a packet keeps the invariant over tables and finite and poisoned entries in flight |
| RipLoopFree.NeverDeleted | pkg/node/node.go:274-297 | in every run on ordered lossy links, a known route persists, unchanged or at a lower cost |
| RipLoopFree.NothingDeletedIff | pkg/node/node.go:274-297 | between any two states of any run from start-up on ordered links no route, learned or configured, is deleted or made dearer, if and only if no configured route leads to a neighbour that can come to know its prefix |
| RipLoopFree.LearnedHereOnly | pkg/node/node.go:264-273 | a route is marked learned exactly if it was not configured |
| RipLoopFree.CostFallsAlongPath | pkg/node/node.go:197-306 | cost falls by at least one along each learned next hop of every path, in every state of every run |
| RipLoopFree.LearnedHopsLoopFree | pkg/node/node.go:197-306 | a path of learned next hops never meets a node twice |
| RipLoopFree.LearnedHopsArrive | pkg/node/node.go:197-306 | following learned next hops from any node that knows a prefix ends at an originator within the recorded cost |
| RipLoops.LoopSnares | pkg/node/node.go:376-463 | any forwarding loop in any state of any ordered run, static routes included, comes from a snare of the configuration |
| RipLoops.SnareLoops | pkg/node/node.go:376-463 | every snare has a run on ordered links that ends with packets going round |
| RipLoops.LoopIffSnare | pkg/node/node.go:376-463 | some ordered run has a forwarding loop for a prefix, each hop to a link neighbour, if and only if the configuration has a snare for it |
| RipLoops.StayingRoutesLoopFree | pkg/node/node.go:437-463 | prefixes that are configured on interfaces only, or to next hops that are no link neighbours, never loop |
| RipLoops.StaticRouteLoops | pkg/node/node.go:92-100 | three routers, two of them joined by a link without RIP, and one static route over that link: a run in which packets go round |
| RipAddresses.LearnedHopCloser | pkg/node/node.go:495-513 | over a learned next hop the receiver's own best match is more specific, or the same prefix at a lower cost |
| RipAddresses.AddressLoopNeedsStatic | pkg/node/node.go:355-515 | in every state of every ordered run, packets for any address go round only past a node that uses a static route |
| RipAddresses.SnareLoopsAddress | pkg/node/node.go:355-515 | if the most specific configured prefix of an address has a snare, some ordered run ends with packets for the address going round |
| RipAddresses.WithoutStaticsLoopFree | pkg/node/node.go:355-515 | without static routes no packet goes round, whatever its destination and whichever prefix each node uses |
| RipQuiescence.ReactPays | pkg/node/node.go:261-297 | the weight of one entry covers the slot and all announcements it sets off, with a unit to spare for each neighbour |
| RipQuiescence.DeliverFalls | pkg/node/node.go:247-304 | handling any response strictly lowers total weight plus packet count, over all prefixes together |
| RipQuiescence.TriggeredUpdatesDieOut | pkg/node/node.go:208-304 | a run that only handles or loses responses is no longer than the weight and packet count it starts from, from any tables and packets, on any topology |
| RipQuiescence.HandlingFalls | pkg/node/node.go:235-304 | handling or losing any packet, requests included, lowers a lexicographic measure |
| RipQuiescence.EventuallyQuiet | pkg/node/node.go:235-304 | every schedule that keeps handling packets reaches a state with nothing in flight |
| RipConvergence.InformedDeliver | pkg/node/node.go:197-306 | every neighbour of a node was told, or is about to be told, the node's current slot, or is already within one hop of it |
| RipConvergence.QuietIsExact | pkg/node/node.go:84-154 | with nothing in flight, a node holds a prefix if and only if news of it can get there within 15 hops, at exactly the least number of hops |
| RipConvergence.QuietIsShortest | pkg/node/node.go:84-154 | without configured routes to RIP neighbours, a quiet node holds a prefix at cost d if and only if its distance is d and d is at most 15 |
| RipConvergence.NearestIsDistance | pkg/node/node.go:197-306 | without such routes, the least number of hops news travels is the hop distance |
| RipConvergence.ConvergedForGood | pkg/node/node.go:395-408 | from a quiet state on, no further event of an ordered run changes any table |
| RipConvergence.StartUpConverges | pkg/node/node.go:84-154 | from start-up, every schedule that keeps handling packets reaches exact tables for all prefixes at all nodes |
| RipRounds.RoundRight | pkg/node/node.go:197-306 | one round of the network teaches exactly the next ring of nodes, in any order of handling that keeps the links' order |
| RipRounds.AfterRounds | pkg/node/node.go:395-408 | after k rounds a node holds the prefix at cost d if and only if d is the least number of hops news of it needs and at most min(k, 15) |
| RipRounds.AfterRoundsShortest | pkg/node/node.go:395-408 | without configured routes to RIP neighbours: if and only if its distance is d and d is at most min(k, 15) |
| RipRounds.NextRound | pkg/node/node.go:395-408 | every ordered run that ended quietly goes on with a round and ends quietly again |
| RipRounds.RoundsExist | pkg/node/node.go:395-408 | from every undisturbed start-up there are runs of any number of rounds |
| RipRounds.StableFromFifteen | pkg/node/node.go:395-408 | from round 15 on, no round changes a cost or a next hop |
| RipRuns.AdvertiseOnce | pkg/node/node.go:197-306 | any run that ends quietly can go on with one advertisement, which changes the slot of each prefix it names by the reaction rule |
| RipConfigured.ReactKept | pkg/node/node.go:261-297 | while nothing disturbs configured routes, an entry keeps the slot and what it triggers within the costs news can have |
| RipConfigured.UndisturbedPersist | pkg/node/node.go:92-120 | such configured routes stay unchanged under loss, repetition, reordering and expiry |
| RipConfigured.Teach | pkg/node/node.go:197-306 | for every node that news of a prefix can reach within 15 hops there is a run on ordered links after which it knows the prefix at the least cost |
| RipConfigured.DisturbedIsLost | pkg/node/node.go:281-289 | a configured route that leads to a neighbour which can come to know the prefix is deleted by some run on ordered links |
| RipConfigured.PersistIffUndisturbed | pkg/node/node.go:84-306 | configured routes persist in every run if and only if none leads to a neighbour that can come to know its prefix |
| RipCodec.MarshalRIP | pkg/rip/rip.go:20-46 | header, then each entry's cost, address and mask in big-endian order at its offset |
| RipCodec.ExtractRIP | pkg/rip/rip.go:48-71 | reads exactly the announced number of entries; fails if and only if the message is too short for it |
| RipCodec.PacketRoundTrip | pkg/rip/rip.go:20-71 | extraction undoes marshalling for every packet whose count is its number of entries |
| RipCodec.CountBits | pkg/node/node.go:187-194 | the loop counts the one bits of any number |
| RipCodec.MaskRoundTrip | pkg/node/node.go:250-255 | masking and counting bits recovers the prefix from any address inside it and its mask |
| RipCodec.AnnouncementRoundTrip | pkg/node/node.go:197-217 | every list of masked prefixes with costs is recovered in order from its encoding |
| Ipv4.Marshal | pkg/iptcp-headers/ipv4header.go:63-104 | all header bytes, or the error for a short length or a missing address |
| Ipv4.IPv4Header.Parse | pkg/iptcp-headers/ipv4header.go:111-152 | the receiver takes the decoded value, keeping its options if the header has none, or stays as it was on an error |
| Ipv4.ParsedBytes | pkg/iptcp-headers/ipv4header.go:63-152 | what comes back is every field modulo its width, whatever follows the header |
| Ipv4.RoundTripIff | pkg/iptcp-headers/ipv4header.go:63-152 | Parse inverts Marshal on a header if and only if all its fields are in range |
| Packets.FoldResidue | pkg/node/node.go:623-632 | folding keeps the residue modulo 0xffff and is zero only for zero |
| Packets.MadePacketParses | pkg/node/node.go:518-555 | a made packet decodes to the fields and payload it was made from |
| Packets.AcceptedIff | pkg/node/node.go:368-373 | a made packet passes the receiver's test if and only if its stored checksum is not zero |
| Packets.RejectedWhenOnes | pkg/node/node.go:368-373 | every header whose words add up to 0xffff is rejected |
| Packets.NeverAccepted | pkg/node/node.go:125-134 | a start-up request from 10.0.0.1 to 10.0.150.30 that its receiver rejects |
| Forwarding.SameLengthSamePrefix | pkg/node/node.go:466-515 | masked prefixes of one length that contain one address are equal |
| Forwarding.LongestMatch | pkg/node/node.go:495-507 | in any iteration order, the loop ends with the unique most specific match, or none exactly if nothing matches |
| Forwarding.CheckDest | pkg/node/node.go:466-485 | true if and only if the destination is the address of the best-matching interface |
| Forwarding.FindNext | pkg/node/node.go:488-515 | the next hop is determined by the tables alone, whatever the iteration order |
| Forwarding.OneHop | pkg/node/node.go:355-393 | a node keeps source, destination, protocol and payload, lowers the TTL by one, and hands over only what it accepts |
| Forwarding.BoundedForwarding | pkg/node/node.go:355-393 | with arbitrary tables, loops included, a packet with TTL t is forwarded at most t-1 times and keeps its fields; handlers run only where the destination is accepted |
| ReadBuffers.BufferedPlusWindow | pkg/tcpstack/tcpstack.go:857-918 | NXT is cumReadNXT - baseAck modulo the ring, and buffered bytes plus advertised window fill the ring less one |
| ReadBuffers.InsertNext | pkg/tcpstack/tcpstack.go:857-870 | the next expected segment is appended to the queue of unread bytes |
| ReadBuffers.InsertRepeat | pkg/tcpstack/tcpstack.go:857-870 | an exact repeat of the latest segment leaves the readable bytes unchanged |
| ReadBuffers.NextSegmentIff | pkg/tcpstack/tcpstack.go:857-870 | the next expected segment is appended correctly if and only if it fits the advertised window |
| ReadBuffers.OlderSegmentIff | pkg/tcpstack/tcpstack.go:861-870 | after an older segment that ends at byte e the buffer stands for the stream up to e if and only if the reader is not past e |
| ReadBuffers.OlderSegmentMisleads | pkg/tcpstack/tcpstack.go:861-870 | if the reader is past e, the buffer offers the ring but for the bytes between as if unread |
| ReadBuffers.ReadOldest | pkg/tcpstack/tcpstack.go:997-1014 | a read returns the oldest bytes in order and leaves the rest |
| ReadBuffers.ReadBuffer.constructor | pkg/tcpstack/tcpstack.go:293-341 | a new buffer represents the empty stream |
| ReadBuffers.ReadBuffer.CopyIn | pkg/tcpstack/tcpstack.go:860-870 | the wrapping copy loop is the ring insertion at NXT, with cumReadNXT set from the segment |
| ReadBuffers.ReadBuffer.VRead | pkg/tcpstack/tcpstack.go:977-1016 | refused in the closing states, waits without a byte; otherwise both pieces around the wrap are the oldest bytes, and the ring itself is not written |
| EarlyQueues.RootIsLeast | pkg/pq/pq.go:14-18 | the root of a heap has the least sequence number |
| EarlyQueues.EarlyPriorityQueue.HeapPush | pkg/pq/pq.go:26-31 | keeps the heap and adds exactly the new packet |
| EarlyQueues.EarlyPriorityQueue.HeapPop | pkg/pq/pq.go:33-41 | keeps the heap and removes exactly the root |
| Reassembly.RootCases | pkg/tcpstack/tcpstack.go:877-882 | the root is below, at or beyond cumReadNXT, which decides whether the drain is finished |
| Reassembly.Receiver.Drain | pkg/tcpstack/tcpstack.go:877-912 | afterwards the first missing segment is the next expected one and everything queued lies strictly beyond it |
| Reassembly.Receiver.Arrive | pkg/tcpstack/tcpstack.go:825-933 | an arrival keeps accepted data and queue exact; early segments are not acknowledged, others with the new cumReadNXT and window |
| Reassembly.ReceiveAll | pkg/tcpstack/tcpstack.go:825-1014 | for every cut of a stream and every legal interleaving of arrivals and reads, bytes read plus bytes readable are exactly the longest contiguous prefix that has arrived |
| SlidingWindows.OpenConserved | pkg/tcpstack/tcpstack.go:593-625 | a new window holds the whole message |
| SlidingWindows.SendConserved | pkg/tcpstack/tcpstack.go:698-742 | the sending branch keeps the loop-head invariant |
| SlidingWindows.AckConserved | pkg/tcpstack/tcpstack.go:748-787 | an acknowledgement, new, old or repeated, keeps the loop-head invariant |
| SlidingWindows.ResendConserved | pkg/tcpstack/tcpstack.go:540-582 | a timer expiry keeps the loop-head invariant and resends the oldest listed segment |
| SlidingWindows.Conservation | pkg/tcpstack/tcpstack.go:638-790 | acknowledged prefix, listed payloads and unallocated rest are the message; cumWriteUNA plus the ring distance is the first unsent number; when all is acknowledged UNA equals NXT |
| SlidingWindows.TimedOnce | pkg/tcpstack/tcpstack.go:773-784 | every round-trip sample comes from a segment that was transmitted exactly once |
| SlidingWindows.EveryInterleavingConserves | pkg/tcpstack/tcpstack.go:528-790 | every interleaving of sending, acknowledgements and timer keeps the invariant, transmits only slices of the message at their sequence numbers, and never resends before the first send |
| WindowLists.Window.Append | pkg/tcpstack/tcpstack.go:733-740 | the linked list gains exactly the new tail |
| WindowLists.Window.Shrink | pkg/tcpstack/tcpstack.go:773-785 | drops exactly the leading nodes that are acknowledged, possibly all |
| WindowLists.Window.ResendOldest | pkg/tcpstack/tcpstack.go:541-582 | marks and returns the oldest node behind the dummy head, only if it was sent before |
| WindowLists.SendSocket.constructor | pkg/tcpstack/tcpstack.go:593-625 | allocates the window that the value model opens |
| WindowLists.SendSocket.Send | pkg/tcpstack/tcpstack.go:698-742 | fields and list move as the value model's send step; the transmitted segment is the tail |
| WindowLists.SendSocket.TakeAck | pkg/tcpstack/tcpstack.go:748-787 | fields and list move as the value model's acknowledgement step, duplicates included |
| WindowLists.SendSocket.Timeout | pkg/tcpstack/tcpstack.go:535-583 | the timer moves the list as the value model's resend step, or not at all |
| WriteBuffers.WriteCarries | pkg/tcpstack/tcpstack.go:947-967 | a chunk written while at most one is unacknowledged overwrites no unacknowledged byte |
| WriteBuffers.OutgoingIsChunk | pkg/tcpstack/tcpstack.go:474-486 | what the sender thread copies out is the stream between NXT and the handed-over LBW, also while a later chunk is in the ring |
| WriteBuffers.WriteBuffer.WriteChunk | pkg/tcpstack/tcpstack.go:947-967 | one round of the write loop is the wrapping ring insertion of a chunk of the computed size |
| WriteBuffers.WriteBuffer.CopyOut | pkg/tcpstack/tcpstack.go:478-486 | the two-part copy is the wrapping ring extraction |
| TransferSafety.WriteStepInv | pkg/tcpstack/tcpstack.go:947-971 | writing the next chunk while the previous one is in the air keeps the end-to-end invariant |
| TransferSafety.TakeOutInv | pkg/tcpstack/tcpstack.go:470-505 | copying out the chunk and opening its window keeps the end-to-end invariant; SendRing.NothingOverwritten states the chunk for every run |
| SendRing.SendWindowed | pkg/tcpstack/tcpstack.go:698-742 | a sent segment ends at the newest acknowledgement number and no number lies inside any segment |
| SendRing.StepSend | pkg/tcpstack/tcpstack.go:464-975 | every step of every component keeps the sending side's invariant, whatever window the peer announces |
| SendRing.NothingOverwritten | pkg/tcpstack/tcpstack.go:464-505 | in every run, with any announced windows, at most two chunks are unacknowledged, the ring holds every unacknowledged byte, and the payload copied out is exactly the chunk written since the last hand-over |
| SendRing.WireIsStream | pkg/tcpstack/tcpstack.go:540-742 | in every run each segment on the wire, sent or resent, carries the written bytes at its sequence number |
| TransferFits.OlderRecv | pkg/tcpstack/tcpstack.go:857-870 | an older segment that fits and does not end behind the reader leaves the ring right, because cumReadNXT is never inside a segment |
| TransferFits.DrainRecv | pkg/tcpstack/tcpstack.go:877-912 | draining queued segments within one window of the reader leaves the ring right |
| TransferFits.PrefixWhileFitting | pkg/tcpstack/tcpstack.go:464-1017 | in every run in which each delivered segment fits, with any windows, cuts, losses, resends and queued segments, the bytes of all reads are a prefix of the bytes of all writes |
| TransferFits.RoomyFits | pkg/tcpstack/tcpstack.go:857-918 | standing room for one maximal segment meets that condition |
| TransferSafety.NewAckInv | pkg/tcpstack/tcpstack.go:748-787 | a first acknowledgement keeps the end-to-end invariant |
| TransferSafety.DeliverDataInv | pkg/tcpstack/tcpstack.go:825-933 | a delivered segment, new or repeated, keeps the end-to-end invariant |
| TransferSafety.StepInv | pkg/tcpstack/tcpstack.go:464-1017 | every step of every component keeps the end-to-end invariant |
| TransferSafety.DeliveredIsPrefix | pkg/tcpstack/tcpstack.go:464-1017 | in every run the bytes of all reads are a prefix of the bytes of all writes, acknowledged never exceeds accepted, and at most two chunks are unacknowledged |
| TransferLimits.UnsafeWithoutRoom | pkg/tcpstack/tcpstack.go:464-1017 | a run without that room in which a read returns a byte that is not the next one written |
| TransferSafety.NeverProbes | pkg/tcpstack/tcpstack.go:641-641 | in such runs the zero-window probe branch is never entered |
| Handshake.Agreement | pkg/tcpstack/tcpstack.go:256-432 | with lost, repeated and reordered packets, an established listener has an established client, and both sides' numbers match crosswise |
| Handshake.StartsTransfers | pkg/tcpstack/tcpstack.go:293-432 | an agreed handshake puts the end-to-end invariant in place in both directions |
| Close.MoveSides | pkg/tcpstack/tcpstack.go:803-897 | each event keeps what the two endpoints rely on about each other and moves the state forward |
| Close.MovesForward | pkg/tcpstack/tcpstack.go:1019-1078 | each state moves only along the two paths of the diagram of section 3.6 of RFC 9293 |
| Close.NeverReturns | pkg/tcpstack/tcpstack.go:1019-1078 | a state that was left is never entered again |
| Close.CloseIsMutual | pkg/tcpstack/tcpstack.go:803-856 | FIN_WAIT_2, TIME_WAIT or removal implies that the peer has counted this side's FIN; CLOSE_WAIT, LAST_ACK, TIME_WAIT or removal implies that the peer closed and that all its data was accepted |
| Close.CountsStand | pkg/tcpstack/tcpstack.go:839-870 | while nothing takes cumReadNXT back, repeats of the latest segment included, the peer's cumReadNXT itself counts the FIN |

## Left out

Members stated for less than the whole behaviour:

- RipConvergence.QuietIsExact: lossless links without expiry, as the costs are only reached then.
- RipLoops.LoopIffSnare: under the condition for persistence of RipLoopFree.NothingDeletedIff; where configured routes can be deleted, loops are not characterised.
- RipAddresses.AddressLoopNeedsStatic: a necessary condition; RipAddresses.SnareLoopsAddress is a sufficient one, and they meet per prefix only, in RipLoops.LoopIffSnare. Configured prefixes are masked, and an interface address is best matched by its own interface.
- RipRounds.AfterRounds: the updates a round triggers are lost. RipConvergence covers them.
- TransferSafety.DeliveredIsPrefix: the receive ring keeps room for one maximal segment (1360 bytes) and the stream ends below 2^32. TransferFits.PrefixWhileFitting replaces the room by a condition on each delivery, and TransferLimits.UnsafeWithoutRoom shows a run without either that breaks the property.
- TransferFits.PrefixWhileFitting: the condition is sufficient; a delivery that violates it need not do harm, for instance if the bytes it overwrites are equal.
- SendRing.NothingOverwritten: zero-window probe steps are outside the model, so a window that was opened while the peer's was closed stays as it is.
- Reassembly.ReceiveAll: no segment older than the latest accepted one arrives, and arrivals fit the window; the code checks neither. ReadBuffers.OlderSegmentIff and ReadBuffers.NextSegmentIff say exactly when a single such arrival does harm.
- SlidingWindows.EveryInterleavingConserves: positive peer window; the probe branch that trims a queued segment leaves its sequence number unchanged and is a known issue of the program.
- WriteBuffers.WriteBuffer.WriteChunk: the refusal of VWrite in the closing states is not modelled; `notFirstWrite` has the same effect as the first round of a message.
- Close.CloseIsMutual: about the largest value cumReadNXT has had, because a stale segment can take it back; Close.CountsStand gives the value itself.
- RipCodec.ExtractRIP: returns no packet where the program would index out of bounds.

Parts of the program that are not modelled:

- Liveness of transfer and close: FINs are not resent, and two paths stop with a lock held.
- The FIN that follows ten failed retransmissions; the model only stops the sender (`GiveUp`).
- Zero-window probing.
- Sequence numbers that wrap past 2^32.
- Round-trip time arithmetic and real timers; expiry of any timer is a step that may happen at any time.
- The interval between copying a table and sending it: one packet, announcement or collection is one step.
- TCP header encoding and checksum, which are library calls; the IP checksum is the ones' complement sum of RFC 1071 that the library documents.
- The `Index` field that the heap keeps up to date and nothing reads.
- UDP sockets, interface enabling, the socket table, port choice, the command line, file transfer, configuration parsing and the generator scripts.
