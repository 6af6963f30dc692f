# A verified model of the network simulator

The repository simulates a small local network in one process: hosts, learning switches and a gateway
joined by wires, with ARP, DHCP, ICMP, UDP and TCP on top, every queue bounded and dropping what does not
fit. This project models the parts of it whose behaviour is not visible in any one function, and proves
what they keep over whole runs.

- `WorkQueue.dfy`: the bounded drop-tail queue, its lock and condition-variable protocol, and queues in
  series.
- `SwitchTable.dfy`: the switch object and the partial map its nested table refines.
- `SwitchSteps.dfy`: a turn of that object is a step of the network below.
- `Wiring.dfy`, `Network.dfy`, `NetworkTermination.dfy`, `NetworkDelivery.dfy`, `NetworkUnicast.dfy`,
  `NetworkContinuations.dfy`, `NetworkOnce.dfy`, `NetworkBounce.dfy`, `NetworkSilence.dfy`,
  `NetworkOrder.dfy`: switches plugged into each other in any loop-free way. Sending, receiving (which
  learns), forwarding (which looks up later, when a frame is popped), delivering and dropping are single
  steps, in any order.
- `Segments.dfy`, `TcpEndpoints.dfy`, `TcpTransfer.dfy`, `TcpAnswers.dfy`, `TcpProgress.dfy`: the TCP file
  transfer. For safety the network is the set of all segments ever sent, so loss, repetition and reordering
  are covered; for progress it is a pair of lossless queues.
- `UdpTransfer.dfy`: the UDP file transfer and its end mark.
- `Codecs.dfy`, `WireLayout.dfy`: the byte forms, the two layers of encapsulation, and where each field lies.
- `AddressAgreement.dfy`, `AddressProgress.dfy`: DHCP server, DHCP client and ARP caches on a network that
  repeats, reorders and loses frames for good: what they always agree on, and exactly when a client can still
  get an address or end a lookup.
- `Md5Rounds.dfy`, `Md5.dfy`, `Md5Stream.dfy`, `Md5Vector.dfy`: the streaming MD5 class against sections 3.1
  to 3.5 of RFC 1321, and a digest of its section A.5.
- `Histogram.dfy`: the histogram of arrivals.
- `Bytes.dfy`, `Multiples.dfy`: fixed-width integers, byte order, and multiples as sums.

Objects whose methods change fields are classes; their methods are proved against functions on values, and
the state machines step by those same functions, so the theorems about runs are about the modelled code.
Machine integers are integers with a range, and wrap-around is written out; the words of an MD5 round are
32-bit vectors. Fields that the source leaves
uninitialised are parameters, so nothing depends on what they hold.

What turned out not to hold of the code in general, and when it does:

- A UDP transfer writes the whole file only if no full block before the last ends in byte 0xFF; otherwise it
  stops one byte short of the end of the first such block (`UdpTransferIsExactIff`, `StopsAtFirst`).
- A packet survives encapsulation only if its total length fits 16 bits (`PacketRoundTripIff`).
- `remove` can pop an empty list as soon as two consumers share a queue (`NeverPopsEmptyIffSingleConsumer`).
- The switch table holds an address once, except that a broadcast source address is added again each time
  (`LearnKeepsWellFormedIff`).
- A frame addressed to one station can reach it twice: a copy flooded before the destination was known turns
  round when its switch has learned it in the meantime. Whatever happens after it is sent, it is processed at
  most once if and only if no switch between the two stations that does not know the destination as the frame
  is sent has a trunk leading off the way (`ArrivesOnceIffStraight`). That holds on any network with one
  switch (`OneSwitchIsStraight`) and whenever the sender's switch knows the destination (`KnownIsStraight`).
- A client can wait for ever: nothing it sends in the DHCP exchange, and no ARP request of a waiting process,
  is sent a second time, so the loss of one frame can be enough (`OneLossIsEnough`). It can still get an
  address exactly when it waits for nothing, or its last message or the server's answer to it is still on the
  network (`CanGetAddressIff`); a lookup can still end, if nobody asks again, exactly when its request or
  another frame to learn from is (`LookupCanEndIff`).
- The loop of `MD5::update` ends with all its blocks in the input exactly when its last 32-bit test does not
  wrap (`LoopIsRightIff`). For the other lengths, all within 64 bytes of 2 to the 32, every test succeeds: the
  loop reads beyond its input and never ends (`LoopNeverEnds`).

The comment in `broadcast` says that the frame is not sent on the interface it came in on; the code skips
the interface recorded for the source address, and that is what is modelled. The comment in `DHCP_client`
says that a pending request is sent again; the frame is built but not sent, and that is what is modelled.

## Model

| member | source | states |
|---|---|---|
| WorkQueue.WQueue.Add | wqueue.h:54-63 | A full queue drops the item, another one gets it at the end; a negative maximum is compared as a huge unsigned number |
| WorkQueue.WQueue.Remove | wqueue.h:64-76 | Takes the front of a queue that is not empty |
| WorkQueue.WQueue.SetMaxSize | wqueue.h:83-85 | Sets the maximum and nothing else |
| WorkQueue.RefusedIffFull | wqueue.h:56-61 | An item is dropped if and only if the maximum is not negative and at least that many items are queued; every other item goes to the end |
| WorkQueue.FirstItemsStay | wqueue.h:54-63 | Of any items offered to a queue with nothing removed, exactly those for which there is room stay, in order |
| WorkQueueProtocol.QueueConservesItems | wqueue.h:54-76 | In every reachable state, with any number of producers and consumers, the accepted items are the removed ones followed by the queued ones, the maximum is respected, and every offer was accepted or refused, refused only when the maximum was queued; with one consumer a sleeping consumer is signalled exactly when the queue is not empty |
| WorkQueueProtocol.NoLostWakeup | wqueue.h:54-76 | With one consumer, whenever an item waits, that consumer can take it now |
| WorkQueueProtocol.TwoConsumersPopEmpty | wqueue.h:64-76 | Two consumers: a run in which one is about to take the front of an empty list |
| WorkQueueProtocol.NeverPopsEmptyIffSingleConsumer | wqueue.h:64-76 | No run ever takes the front of an empty list if and only if there is at most one consumer or the maximum is 0 |
| WorkQueueChain.ChainDeliversSubsequence | wqueue.h:54-76 | Through any chain of such queues, what comes out and what is inside is what was sent, in order, with items left out |
| WorkQueueChain.ChainWithRoomDeliversAll | wqueue.h:54-76 | If no stage is ever full, what comes out and what is inside is all that was sent, in order |
| SwitchTable.ViewHas | networking_devices.cpp:340-358 | The partial map read off the table has an address exactly when some row lists it, under the interface of a row that does |
| SwitchTable.LearnRefinesMap | networking_devices.cpp:326-338 | Learning is a first-seen-wins update of the partial map: no binding ever changes |
| SwitchTable.LearnKeepsWellFormedIff | networking_devices.cpp:340-382 | Each interface keeps one row and each address one place, if and only if the frame does not claim a broadcast source already recorded |
| SwitchTable.FloodPortsAreAllButOne | networking_devices.cpp:295-311 | Flooding uses every interface but one, once each, in order |
| LearningSwitch.Switch.GetTableInterfaceNumber | networking_devices.cpp:340-358 | The nested search finds what the partial map has, and -1 for unknown and broadcast addresses |
| LearningSwitch.Switch.AddTableEntry | networking_devices.cpp:360-382 | Extends the first row of the interface in place, or appends a new row |
| LearningSwitch.Switch.ProcessFrame | networking_devices.cpp:326-338 | Learns the source, then offers the frame to the bounded queue |
| LearningSwitch.Switch.SendNext | networking_devices.cpp:261-282 | Pops the front frame and transmits that frame itself, on the destination's interface if known now, else on all that flooding uses; the table stays |
| LearningSwitch.Switch.Broadcast | networking_devices.cpp:295-311 | Transmits the frame itself on every interface in order except the one recorded for the source |
| SwitchSteps.SendingIsForwarding | networking_devices.cpp:261-311 | A turn of the sender is a step of the network: as many transmissions as copies, each copy the transmitted frame at the far end of its interface, one hop on |
| SwitchSteps.ProcessingIsReceiving | networking_devices.cpp:326-338 | Processing a received frame is a step of the network: the same table afterwards, and the frame in the queue |
| Wiring.WiredNetworkIsLoopFree | networking_devices.cpp:229-240 | Every network plugged together one link at a time without closing a loop has, for each switch and station, an interface toward it and a distance that obey the crossing laws |
| Wiring.JoinKeepsRoutes | networking_devices.cpp:229-240 | Plugging together two switches of separate pieces keeps routes between all switches of the joined piece |
| Wiring.PieceIsConnected | networking_devices.cpp:229-240 | Switches labelled as one piece are joined by a path of trunks |
| Network.NetworkStaysCorrect | networking_devices.cpp:261-338 | In every reachable state every table entry names the interface toward the owner, the next switch that way knows it too, and each switch a copy has left knows the copy's source |
| Network.BindingsNeverChange | networking_devices.cpp:329-334 | Over any run no entry of any table is changed or forgotten |
| Network.KnowledgeReachesOwner | networking_devices.cpp:326-382 | Following the recorded interfaces from a switch that knows a station leads to its switch in as many crossings as its distance, through switches that all know it |
| Network.ForwardNeverFails | networking_devices.cpp:284-311 | A queued copy never looks up an interface that its switch does not have |
| NetworkTermination.ForwardMakesProgress | networking_devices.cpp:261-311 | One forward brings a copy one trunk nearer a known destination, at a switch that knows it too, or takes it one trunk further from its source |
| NetworkTermination.StepLowersPotential | networking_devices.cpp:261-338 | Every step but a station's sending lowers one natural number, bounces, learning and flooding included |
| NetworkTermination.NetworkFallsSilent | networking_devices.cpp:261-338 | From any reachable state, without new frames, no run is longer than that number: no copy circulates forever |
| NetworkTermination.NoCopyCrossesManyLinks | networking_devices.cpp:261-311 | If no station is more than d trunks from any switch, no copy ever crosses more than 2d + 2 links |
| NetworkDelivery.FloodingPartitionsStations | networking_devices.cpp:295-311 | For a frame no station owns the address of, each station but the sender is at all times in exactly one place: delivered to, or ahead of one copy in flight or dropped; the sender is in none |
| NetworkDelivery.BroadcastReachesEveryStationOnce | host.cpp:284-289 | A broadcast is processed at most once by each station and never by its sender, and exactly once by each other station when no copy is in flight and none was dropped |
| NetworkDelivery.ForwardStaysOnItsWay | networking_devices.cpp:270-280 | Of the copies made of a copy that will reach its destination, one will |
| NetworkDelivery.UnicastReachesItsStation | networking_devices.cpp:261-338 | On every loop-free network, straight way or not: when no copy is in flight and none was dropped, the addressed station has processed the frame at least once |
| NetworkUnicast.StepKeepsSingle | networking_devices.cpp:261-338 | A frame whose one copy is where every switch ahead knows the destination stays one copy, on its way, through every step |
| NetworkOnce.StraightArrivesOnce | networking_devices.cpp:261-338 | If no switch between the stations that does not know the destination has a trunk off the way as the frame is sent, then whatever is learned and sent later the destination processes the frame at most once, nobody else does, and it is exactly once when no copy is in flight and none was dropped |
| NetworkOnce.DetourArrivesTwice | networking_devices.cpp:261-338 | From any reachable state in which some switch between the stations does not know the destination and has a trunk off the way, there is a continuation in which a frame sent now is processed twice, nothing being dropped |
| NetworkOnce.ArrivesOnceIffStraight | networking_devices.cpp:261-338 | So the frame arrives at most once in every continuation if and only if there is no such switch |
| NetworkOnce.OneSwitchIsStraight | test.cpp:86-122 | With a single switch there never is one |
| NetworkOnce.KnownIsStraight | networking_devices.cpp:270-273 | There is none either when the sender's switch knows the destination, since all switches between then know it |
| NetworkSilence.BoundsExist | networking_devices.cpp:229-240 | Every network has a bound on distances and one on interfaces, which the results on termination are stated with |
| NetworkSilence.SomethingCanMove | networking_devices.cpp:261-338 | In every reachable state with a copy in flight, some step other than sending or dropping is possible |
| NetworkSilence.RunDrains | networking_devices.cpp:261-338 | Every run can go on, without sending or dropping anything, until nothing is in flight |
| NetworkSilence.UndroppedFrameCanArrive | networking_devices.cpp:261-338 | So a frame of which no copy was dropped can still arrive: a broadcast exactly once at each station but its sender, another frame at its destination |
| NetworkOrder.StepKeepsOrder | networking_devices.cpp:261-338 | On a straight way, with wires and queues that keep the order of a flow, every step keeps one copy of each frame on the way, the older frames ahead |
| NetworkOrder.FramesArriveInOrder | networking_devices.cpp:261-338 | So frames from one station to another that are sent while the way is straight arrive in the order sent, each at most once |
| NetworkArrivals.FlowArrivesAsSubsequence | networking_devices.cpp:261-338 | What a station receives of such a flow is what was sent on it, in order, with frames left out |
| NetworkArrivals.UdpOverStraightWay | host.cpp:1327-1389 | A file cut into UDP segments, framed, sent over such a way and taken by the server comes out as the file with bytes left out, whatever is lost |
| NetworkBounce.UnicastCanArriveTwice | networking_devices.cpp:261-282 | For any two stations, a run on two switches, without loss, in which the addressed station processes one frame twice |
| Transport.FlagsAreBits | l4_protocols.h:14-16 | The arithmetic flag tests are the bit tests of the source |
| Transport.WithFinIsOr | l4_protocols.cpp:183 | Setting FIN by arithmetic is the source's or, for all sixteen bits |
| Transport.WithAckIsOr | host.cpp:1196-1197 | Setting ACK by arithmetic is the source's or |
| TcpSegments.FileToTcpSegments | l4_protocols.cpp:135-200 | The payloads make up the file, sequence numbers count from 1 by the bytes before, every segment has ACK and the last FIN too, and no other flag, all but the last are full and none is empty, and there are as many as the length divided by the maximum, rounded up |
| Multiples.MultipleIsProduct | l4_protocols.cpp:176-190 | The repeated sum that counts the segments is the product |
| TcpSegments.CutIsSegments | l4_protocols.cpp:165-197 | Consecutive pieces of a file, as many as needed, have all the properties the transfer relies on |
| TcpSegments.CoveringIsOffset | host.cpp:957-958 | The number that acknowledges a segment is one more than the bytes up to its end |
| TcpSegments.OffsetsOrdered | host.cpp:962-977 | Segment boundaries are told apart by their numbers |
| TcpEndpoints.TcpClient.Top | host.cpp:921-943 | From the loop head: leaves the loop when all is acknowledged, else sends the next segment if there is one and waits |
| TcpEndpoints.TcpClient.SkipTo | host.cpp:968-977 | The scan stops after the first segment that the number covers exactly, or throws past the end |
| TcpEndpoints.TcpClient.OnAck | host.cpp:950-1047 | One acknowledgement: forward on news, back on none, out on FIN and ACK, and one more segment sent |
| TcpEndpoints.TcpClient.Run | host.cpp:921-1047 | The whole loop over the frames taken is the fold of its turns, and it stops only when finished or when there is nothing to take |
| TcpEndpoints.TcpServer.OnSegment | host.cpp:1171-1244 | The next expected segment is written and acknowledged; anything else brings the last packet again and changes nothing |
| TcpEndpoints.TcpServer.Run | host.cpp:1171-1248 | The whole loop is the fold of its turns and ends with the first turn that leaves FIN in the last acknowledgement |
| TcpEndpoints.FindCovered | host.cpp:971-977 | The first segment that an acknowledgement number covers exactly |
| TcpTransfer.AcknowledgeExactly | host.cpp:957-1015 | An acknowledgement of j segments moves the window to exactly j if that is news, by a scan that always finds its segment, and otherwise goes back to the first unacknowledged one |
| TcpTransfer.ServerStepExactly | host.cpp:1179-1244 | The server accepts a segment exactly when it is the next one; stale handshake segments change nothing; its answer acknowledges what it has accepted |
| TcpTransfer.TransferStaysCorrect | host.cpp:921-1248 | At each moment of any run the server has accepted some number of segments, no acknowledgement on the network exceeds it, and nor does the client's window |
| TcpTransfer.WrittenIsPrefix | host.cpp:1171-1248 | What is written is always the first k payloads, a prefix of the file; the next expected number and the pending acknowledgement are one more than the bytes written, also when resent |
| TcpTransfer.BothAgreeOnCompletion | host.cpp:921-1248 | The server leaves its loop exactly when it has written the whole file, and the client leaves its loop, by either exit, only then |
| TcpTransfer.ClientNeverThrows | host.cpp:962-977 | The scan never runs off the end: every acknowledgement on the network is a segment boundary |
| TcpTransfer.WrittenOnlyGrows | host.cpp:1190-1193 | Nothing written is rewritten or taken back |
| TcpAnswers.AcknowledgementsAnswer | host.cpp:1195-1236 | Over any run, what goes to the server is what was there at the start or a segment of the file; what goes back was there at the start, is the SYNACK again, or answers something received: the SYNACK's ports, window, checksum and payload, the sequence number the ACK number of what it answers, its flags those with ACK |
| TcpAnswers.PortsStay | host.cpp:1205 | So everything that ever goes back is from the server's port to the client's |
| TcpAnswers.DataIsAcknowledged | host.cpp:1196-1200 | An acknowledgement of data answers one of the segments, has sequence number 1, and its flags are ACK alone, or ACK and FIN exactly when its number is one more than the bytes of the file |
| TcpAnswers.ClientLeavesIff | host.cpp:1017-1024 | For any acknowledgement, the client leaves its loop at once if and only if both flag bits are set, unless it throws |
| TcpAnswers.ClientThrowsIff | host.cpp:962-977 | For any segments, it throws if and only if the number is beyond the expected one and no later segment ends there |
| TcpAnswers.ClientRunIsSteps | host.cpp:921-1047 | The client's whole loop over frames that can arrive is a series of steps of the transfer, which puts what it sends on the way |
| TcpAnswers.ServerRunIsSteps | host.cpp:1171-1248 | The same for the server's loop up to the frame that ends it |
| TcpAnswers.ClientContinues | host.cpp:921-1047 | A client object at the end of any run of the transfer: its loop extends the run, so what holds of runs holds of it |
| TcpAnswers.ServerContinues | host.cpp:1171-1248 | A server object at the end of any run, given any of the frames on their way in any order: its loop extends the run, it has written a prefix of the file, and it stops exactly with the whole |
| TcpProgress.TransferFlows | host.cpp:921-1248 | On a lossless path in order, what is on the wires is at each moment what was sent and not accepted, and what was accepted and not acknowledged, and steps left go down with each step |
| TcpProgress.StaysAddressed | host.cpp:356-359 | Everything on the path is addressed to the port of the socket it is for; a socket is given nothing else |
| TcpProgress.WindowDoubles | host.cpp:921-1047 | Waiting with k acknowledgements taken, the client has sent the first min(n, 2k + 1) segments, each once and in order: it never rewinds |
| TcpProgress.TransferCompletes | host.cpp:921-1248 | With sockets that are given only what is addressed to their ports, no run has more than 3n + 1 steps, and one that cannot go on has delivered the file, with both loops left and each segment sent once |
| UdpTransfer.FileToUdpSegments | l4_protocols.cpp:36-91 | The payloads are the blocks of the file, for the given ports |
| UdpTransfer.BlocksJoin | l4_protocols.cpp:73-88 | The blocks make up the file followed by the end mark |
| UdpTransfer.BlocksAreFull | l4_protocols.cpp:73-88 | Blocks before the last hold the maximum; the last has at least one byte and the mark, and may be one byte longer than the maximum |
| UdpTransfer.UdpServer | host.cpp:1369-1389 | The loop writes what arrives up to the first payload that ends in 0xFF, whose last byte it drops |
| UdpTransfer.StopsAtFirst | host.cpp:1369-1389 | If a full block before the last ends in 0xFF, exactly the file up to but excluding the last byte of the first such block is written |
| UdpTransfer.UdpTransferIsExactIff | host.cpp:1369-1389 | On a lossless path in order the server always finishes, and it writes the whole file if and only if no such block exists |
| UdpTransfer.UdpWritesSubsequence | host.cpp:1369-1389 | On a path that keeps order, whatever is lost, what is written is the file with bytes left out, and never the mark |
| Bytes.BigEndianRoundTrip | l3_protocols.cpp:207-233 | A number that fits comes back from its bytes |
| Bytes.FromBigEndianRoundTrip | l4_protocols.cpp:98-123 | Bytes come back from the number read from them |
| Bytes.LittleEndianRoundTrip | md5.cpp:148-156 | A number that fits comes back from its bytes, least significant first |
| Codecs.TcpRoundTrip | l4_protocols.cpp:94-133 | Every TCP segment comes back from its 18-byte header and payload |
| Codecs.TcpBytesRoundTrip | l4_protocols.cpp:94-133 | Any bytes long enough come back from the segment read from them |
| Codecs.UdpRoundTrip | l4_protocols.cpp:11-34 | Every UDP segment comes back from its bytes |
| Codecs.UdpBytesRoundTrip | l4_protocols.cpp:11-34 | Any bytes long enough come back from the UDP segment read from them |
| Codecs.IcmpRoundTrip | l3_protocols.cpp:87-112 | Every ICMP message comes back from its bytes |
| Codecs.IcmpBytesRoundTrip | l3_protocols.cpp:87-112 | Any bytes long enough come back from the ICMP message read from them |
| Codecs.ArpRoundTrip | l3_protocols.cpp:46-74 | Every ARP message comes back from its 22 bytes |
| Codecs.ArpBytesRoundTrip | l3_protocols.cpp:46-74 | Any 22 bytes come back from the ARP message read from them |
| Codecs.DhcpRoundTrip | networking_devices.cpp:34-41 | Every DHCP message comes back from its 9 bytes |
| Codecs.DhcpBytesRoundTrip | networking_devices.cpp:34-41 | Any 9 bytes come back from the DHCP message read from them |
| Codecs.EncapsulationOutcome | pdu.cpp:59-101 | Exactly what comes out of a frame for a payload of any size: the packet, a packet cut to the size modulo 2 to the 16, or nothing |
| Codecs.PacketRoundTripIff | pdu.cpp:59-101 | A packet comes out of a frame as it went in if and only if its total length fits 16 bits |
| Codecs.PacketBytesRoundTrip | l3_protocols.cpp:134-157 | Bytes with header byte 12 and the right total length are what their decoding encodes to |
| Codecs.TcpSurvivesIff | l3_protocols.cpp:199-240 | Through both layers, a TCP segment comes back with all its fields if and only if the total length fits 16 bits; the protocol byte is 6 |
| Codecs.UdpSurvivesIff | l3_protocols.cpp:242-272 | The same for UDP, with protocol byte 17 |
| Codecs.IcmpSurvivesIff | l3_protocols.cpp:161-194 | The same for ICMP, with protocol byte 1 |
| Codecs.FileSegmentsSurvive | host.cpp:790-792 | Every segment cut from a file for frames below 65536 bytes comes back through both layers |
| Codecs.PeeksReadFields | l3_protocols.cpp:292-295 | The single-byte reads that sort frames read the protocol, the ICMP type and the low byte of the ARP opcode |
| WireLayout.TcpLayout | l4_protocols.cpp:98-133 | Ports in bytes 0 and 2, numbers in 4 and 8, details, window and checksum in 12, 14 and 16, each with the most significant byte first, and the payload from byte 18 |
| WireLayout.UdpLayout | l4_protocols.cpp:11-34 | Ports, length and checksum in bytes 0, 2, 4 and 6, and the payload from byte 8 |
| WireLayout.IcmpLayout | l3_protocols.cpp:87-112 | Type and code in bytes 0 and 1, checksum, identifier and number in 2, 4 and 6, and the payload from byte 8 |
| WireLayout.ArpLayout | l3_protocols.cpp:46-74 | Opcode in byte 0, sender in 2 and 8, target in 12 and 18 |
| WireLayout.DhcpLayout | networking_devices.cpp:34-41 | Opcode in byte 0, the two addresses in 1 and 5 |
| WireLayout.PacketLayout | pdu.cpp:59-101 | Header length 12 in byte 0, total length modulo 2 to the 16 in 1, protocol in 3, addresses in 4 and 8, and from byte 12 the payload cut at its length modulo 2 to the 16 |
| Packets.PushBigEndian | l3_protocols.cpp:207-209 | The loop of shifts from the highest byte down pushes the big-endian form |
| Packets.Ip.FromBytes | l3_protocols.cpp:134-157 | Fills the fields, and the payload byte by byte to the length the two length fields give |
| Packets.Ip.EncapTcp | l3_protocols.cpp:199-240 | Replaces the payload by the segment's bytes and sets protocol and total length, modulo 2 to the 16; the rest stays |
| Packets.Ip.EncapUdp | l3_protocols.cpp:242-272 | The same for UDP |
| Packets.Ip.EncapIcmp | l3_protocols.cpp:161-194 | The same for ICMP |
| Packets.Mpdu.EncapIp | pdu.cpp:59-101 | Sets type 0x0800 and the bytes of the packet, whose payload length goes through 16 bits |
| Packets.Mpdu.EncapArp | pdu.cpp:103-131 | Sets type 0x0806 and the bytes of the ARP message |
| Packets.Mpdu.Copy | pdu.cpp:40-43 | A separate object with the same contents |
| Packets.GenerateTcp | l4_protocols.cpp:94-133 | Shifts, sums and the payload loop read what the byte form says |
| Packets.GenerateUdp | l4_protocols.cpp:11-34 | The same for UDP |
| Packets.GenerateIcmp | l3_protocols.cpp:87-112 | The same for ICMP |
| Packets.GenerateArp | l3_protocols.cpp:46-74 | The same for ARP, with its address loops |
| Packets.GenerateDhcp | networking_devices.cpp:34-41 | The same for DHCP |
| Packets.PushDhcp | networking_devices.cpp:94-100 | The nine pushed bytes are the byte form |
| Packets.FrameTcp | host.cpp:923-935 | A frame built for a segment has the IP type and protocol byte 6 and carries the given addresses, and the segment comes out of it as it went in if and only if the total length fits 16 bits |
| Packets.ReadTcp | host.cpp:950-952 | The objects read the segment that the frame holds |
| DhcpService.DhcpServer.GetEntry | networking_devices.cpp:164-173 | The last entry for the address, or an empty one |
| DhcpService.DhcpServer.HandleFrame | networking_devices.cpp:61-156 | One turn: a first DISCOVER appends an entry, DISCOVER is answered by an OFFER, REQUEST by ACK or NACK, anything else by nothing |
| DhcpService.TableStaysOk | networking_devices.cpp:69-86 | For any clients and messages, no address ever has two entries and no entry changes or goes |
| DhcpService.OfferIsHeld | networking_devices.cpp:69-90 | An offer names the address that the table then holds for that client |
| DhcpService.HeldIsFound | networking_devices.cpp:164-173 | Looking an address up finds the one entry there is |
| DhcpService.FoundIsLast | networking_devices.cpp:164-173 | In a table with several entries for an address the last one counts |
| DhcpService.HeldClientIsAnswered | networking_devices.cpp:61-156 | A client with an address: its DISCOVER is answered by an offer of that address, a REQUEST for it by an ACK, one for another by a NACK that names it, from the gateway's MAC and port 67 to the client's; nothing else is answered and the table stays |
| DhcpService.NewClientIsOffered | networking_devices.cpp:61-108 | The DISCOVER of a client without one appends an entry and is answered by an offer of its address |
| AddressHosts.ArpCache.GetMac | l3_protocols.cpp:11-24 | The first entry for an IP address, or the broadcast address |
| AddressHosts.ArpCache.AddEntry | l3_protocols.cpp:26-39 | Appends the pair |
| AddressHosts.CachedIsFirst | l3_protocols.cpp:11-24 | Of several entries for an address the first one counts |
| AddressHosts.Host.Discover | host.cpp:1416-1445 | The first message, and the wait for an offer |
| AddressHosts.Host.ReceiveArp | host.cpp:726-769 | Only the holder of the target address reacts: it caches an unknown sender, and answers a request with its own pair |
| AddressHosts.AnswersEnd | host.cpp:726-769 | What a host answers is a request, and the answer is a reply, which no host answers |
| AddressHosts.Host.ReceiveDhcp | host.cpp:1448-1538 | One turn of either waiting loop: an OFFER brings the request, an ACK the address; other ports bring the first message again, but not the request |
| AddressHosts.WaitingClientActs | host.cpp:1448-1538 | What any frame for the client's port does to a waiting client: which ones it answers, with what, and which one gives it the address |
| AddressHosts.Host.Receive | host.cpp:284-382 | Frames for other stations and for closed ports change nothing |
| AddressHosts.Host.LookUp | host.cpp:805-813 | Uses the cached address, and only if there is none asks for it, once |
| AddressAgreement.StepKeepsOk | host.cpp:1448-1525 | Every step keeps the invariant that links table, messages, client states and caches |
| AddressAgreement.AddressesAgree | networking_devices.cpp:58-157 | In every reachable state: one entry for each address, every adopted address is the table's for that client, no two clients have one address, every cached MAC is that of the client which adopted the address, and the server never refuses or answers an unknown client |
| AddressAgreement.ServerFramesAreItsOwn | networking_devices.cpp:108-109 | Over any run, what comes from the server's port has the gateway's source address |
| AddressAgreement.OneRequestOneReply | host.cpp:726-769 | If nobody asks again, one request, however often it is taken, brings at most one other ARP frame, a reply with the asker's pair as its target, from the holder of the address asked for |
| AddressAgreement.NothingIsTakenBack | networking_devices.cpp:69-86 | Over any run no table entry, adopted address or cache entry is changed or dropped |
| AddressProgress.CanGetAddressIff | host.cpp:1404-1546 | After any run, there is a continuation in which a client gets an address if and only if it has not begun or has one, or it awaits an offer and a DISCOVER from it or an OFFER to it is on the network, or it awaits an acknowledgement and a REQUEST from it or an ACK to it is |
| AddressProgress.HopeIsFulfilled | host.cpp:1448-1525 | In that case a continuation does it in which each frame taken is gone and none is lost |
| AddressProgress.NoHopeComesBack | networking_devices.cpp:58-157 | Otherwise no step of server, clients or network brings a useful frame back or changes what the client waits for |
| AddressProgress.OneLossIsEnough | host.cpp:1443-1449 | A run of two steps, the second the loss of one frame, after which a client never gets an address |
| AddressProgress.ArpFindsOwner | host.cpp:697-769 | Once both clients have addresses, one request, taken by the owner, and its answer, taken by the asker, leave each with the other's address pair in its cache, whatever was cached before |
| AddressProgress.LookupCanEndIff | host.cpp:808-818 | With both addresses adopted and no further request, the wait for a cache entry can end if and only if the entry is there, or the request or a frame from the other client for this one's address is on the network |
| AddressProgress.ClientsCanMeetIff | host.cpp:805-821 | After any run, there is a continuation in which both clients have addresses and find each other in their caches if and only if neither has lost the frame it waits on, in the sense of CanGetAddressIff |
| Md5Rounds.FSelects | md5.cpp:61-63 | Where x is set F is y, elsewhere z |
| Md5Rounds.GSelects | md5.cpp:65-67 | Where z is set G is x, elsewhere y |
| Md5Rounds.HTurns | md5.cpp:69-71 | H is z, turned where x and y differ |
| Md5Rounds.ITurns | md5.cpp:73-75 | I is y, turned where x is set or z is not |
| Md5Rounds.RotatedKeepsAll | md5.cpp:78-80 | The two shifts are a rotation: what the first pushes out at the top the second puts at the bottom |
| Md5Rounds.CombineRotatesSum | md5.cpp:84-98 | A step adds to b the rotated sum of register, auxiliary value, word and table constant |
| Md5Unrolled.RoundOne | md5.cpp:166-182 | The 16 written-out steps are the table-driven loop with rotating registers and word schedule i |
| Md5Unrolled.RoundTwo | md5.cpp:184-200 | The same, with word schedule 5i + 1 modulo 16 |
| Md5Unrolled.RoundThree | md5.cpp:202-218 | The same, with word schedule 3i + 5 modulo 16 |
| Md5Unrolled.RoundFour | md5.cpp:220-236 | The same, with word schedule 7i modulo 16 |
| Md5Unrolled.AllRounds | md5.cpp:166-236 | The four of them in turn are the table-driven function |
| Md5Vector.TextDigest | md5.cpp:121-330 | The digest of the 62 letters and digits is the one that section A.5 of RFC 1321 gives: two blocks, in which every table entry, word order, rotation, final sum, start value and padding byte counts |
| BlockStream.AbsorbMore | md5.cpp:251-284 | Working in a message and then more is working in the bytes left over with the rest |
| BlockStream.TailOfMore | md5.cpp:251-284 | What is left over after more bytes depends on what was left over before |
| BlockStream.AbsorbNextBlock | md5.cpp:273-275 | A further whole block is one more step of the fold and leaves nothing over |
| Md5Spec.WordIsOr | md5.cpp:139-141 | The bytes shifted and or-ed together are the word, as a number |
| Md5Spec.PaddingIsShortest | md5.cpp:311-314 | The padding is the shortest of at least a byte that leaves eight bytes to the block boundary |
| Md5Spec.PaddingLength | md5.cpp:312-313 | The two cases of the pad length give its length |
| Md5Spec.PaddedLayout | md5.cpp:300-317 | After the message comes the byte 0x80, then zeros, and the last eight bytes are the number of bits modulo 2 to the 64, least significant first |
| Md5Spec.PaddedFillsBlocks | md5.cpp:311-317 | Message, padding and length leave no byte over |
| Md5Count.CountAdvances | md5.cpp:257-259 | With the carry test and the shift by 29, the two words hold 8 times the total length modulo 2 to the 64 |
| Md5Count.CountGivesIndex | md5.cpp:253-254 | The low word alone gives the number of waiting bytes |
| Md5Count.CountGivesLength | md5.cpp:307-309 | The two encoded words are the 64-bit count, low-order byte first |
| Md5Stream.LoopSteps | md5.cpp:262-275 | The offsets start after the bytes that complete the buffer and go up by 64 modulo 2 to the 32 |
| Md5Stream.LoopIsRightIff | md5.cpp:274-275 | The loop ends after blocks that all lie in the input if and only if its last 32-bit test does not wrap |
| Md5Stream.LoopNeverEnds | md5.cpp:274-275 | When it wraps, every test succeeds, and after some blocks in the input comes one that is not |
| Md5Stream.WhichCallsFit | md5.cpp:251-275 | Lengths below 2 to the 32 less 64 never wrap; the greatest length does with an empty buffer |
| Md5Stream.Md5.Init | md5.cpp:120-133 | An empty message, no bytes counted, and the first state of section 3.3 |
| Md5Stream.Md5.Decode | md5.cpp:137-142 | The loop decodes the words of the block |
| Md5Stream.Md5.Encode | md5.cpp:148-156 | The loop encodes the words and touches nothing beyond them |
| Md5Stream.Md5.Transform | md5.cpp:161-245 | One application of the compression function of section 3.4 |
| Md5Stream.Md5.Update | md5.cpp:251-284 | For any split of a message into calls: the state is the fold over the full blocks of all bytes so far, the buffer starts with exactly the bytes left over, and the count is of all |
| Md5Stream.Md5.Finalize | md5.cpp:298-330 | The digest is that of the whole message by sections 3.1 to 3.5, buffer and count are zeroed, and a second call changes nothing |
| Md5Stream.Md5.FromText | md5.cpp:111-116 | The shortcut gives the digest of the text, cut at its length modulo 2 to the 32 |
| Histogram.OneInterval | frame_generators.cpp:161-179 | A time is in at most one interval, the first it does not lie after |
| Histogram.CountInterval | frame_generators.cpp:162-172 | Makes room if needed and counts one interval more in exactly one slot |
| Histogram.CapturePmf | frame_generators.cpp:146-192 | Slot k is the number of intervals, up to the last one reached, with k arrivals; slots sum to the intervals and the weighted sum is the number of arrivals; no index is out of bounds and the catch-up loop ends |

## Left out

- UnicastReachesItsStation: says at least once, since once is false in general; ArrivesOnceIffStraight gives the exact condition for at most once, and StraightArrivesOnce for exactly once.
- LearningSwitch.Switch.SendNext: takes a queue that is not empty; waiting on an empty one is in WorkQueueProtocol.
- Packets.Ip.FromBytes: requires bytes that cover the header and a length the two fields agree on, because beyond them the source reads out of bounds or reserves a negative size; PacketFrom is None there.
- Md5Stream.Md5.Update: requires LastBlockFits, because without it the source reads past its input and does not return (LoopNeverEnds).
- Md5Stream.Md5.FromText: requires the same of the text's length modulo 2 to the 32.
- Queue order and queue sizes inside the network of switches: a copy may be forwarded or dropped at any time. For results about all runs this covers every order and every size. The run of DetourArrivesTwice, and with it the only-if half of ArrivesOnceIffStraight, is one of switches that pop in some order and never fill; that it can be had with every queue first-in first-out is not claimed. NetworkOrder assumes order, for one flow, where it is needed.
- Threads, sleeps, clocks and real mutexes: each receive, send, learn or drop is one step; spurious wakeups of the condition variable are assumed away.
- `set_max_size` during use: the maximum is fixed before the first item.
- Hosts plugged straight into each other, and networks with loops.
- The TCP handshake loops (host.cpp:836-911, host.cpp:1078-1153): the established state is where runs start, with the server's start number 1; what the handshake left on the network may still arrive.
- Progress of TCP under loss: there are no retransmission timers, so there is none to prove.
- TCP and UDP files of no bytes or of 2 to the 31 bytes and more: the source indexes past an empty file and counts loaded bytes in an `int`.
- Checksums, receive windows and the UDP length field: nothing computes them, so they are parameters.
- `create_socket`: its search never ends once a socket is open; each process has the one socket it needs.
- Addresses the DHCP server leaves unset for other MACs: HandleFrame and TableStaysOk cover them, the agreement of addresses is about the two clients it has addresses for.
- Host addresses before DHCP completes are unset: such a host answers no ARP.
- Which process of a host looks up an address, and how often: a host with an address may ask at any time, and LookupCanEndIff is about what happens when nobody asks again.
- The gateway's demultiplexer beyond its port test, and what it makes of frames that are not IP.
- Sorting of ICMP, TCP and UDP frames to several open sockets in a host.
- Memory management, aliasing of frames after they are handed on, file streams (a file is a sequence of bytes).
- Ping, its timing and statistics, random numbers, Poisson sampling, floating-point rounding (times are reals, slots are whole numbers), printing and formatting, `hexdigest`, and clearing of local arrays.
