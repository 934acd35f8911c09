# PsPIN: models and proofs

PsPIN is a network interface that runs small handlers on arriving packets. This
project models, in Dafny, the simulator's NIC engines with their AXI bus driver, two
of the handler applications, the reader-writer lock of the handler runtime and its
number formatting, and proves what they keep in every run.

`dafny verify dfyconfig.toml` checks everything. Code that changes its fields step by
step is modelled by classes and array algorithms whose methods are specified by
functions on values; the theorems are about those functions and about state machines
that take them as steps, in any interleaving.

## Inbound: from packet to memory to HER

- `AxiBurst`, `AxiWrite`, `AxiMaster`, `AxiMemory`: a transfer is split into bursts
  and data beats with byte strobes. The reference is the list of bursts by page and of
  beats by bus line; the methods produce exactly that list, and applying the beats to
  memory has exactly the effect of the write. The strobe loop covers the whole
  container of a single beat, so a write can also clear bytes after its data, up to
  the end of the last bus line.
- `PacketRing`: the ring allocator with its cut pointer and out-of-order frees.
  Unreclaimed regions in allocation order tile the ring. A request is served exactly
  when it fits between tail and head behind a cut, or else after the tail or before the
  head. Freeing everything drains the ring exactly when no wrap was taken from an empty
  ring; after such a wrap nothing is ever reclaimed.
- `NicInbound`, `InboundBus`, `InboundSystem`, `InboundSafety`, `InboundRuns`,
  `InboundTheorems`, `InboundAcks`, `InboundProgress`: the engine together with the bus,
  the memory and PsPIN. Because the allocator rounds to bus lines, strobes past the data
  never leave the packet's own region; so in every run a packet is in memory, byte for
  byte, from its last acknowledgement to its feedback, and HERs leave in order, each
  after the responses for all bursts of its packet. Packets are admitted exactly when
  the wait is over and there is room, and when nothing can move any more all of their
  HERs have been sent. End of stream is raised only together with a HER, so a `set_eos`
  after the last one has no effect.
- `Channel`: the handshake of one bus channel over alternating clock edges. It
  justifies that the systems above let the slave take beats in the order issued, and
  that a ready slave gets all of them.

## Outbound: from command to network

`Packetizer`, `ReadAccounting`, `ReadBytes`, `NicOutbound`, `OutboundSystem`,
`OutboundRuns`, `OutboundTheorems`, `OutboundProgress`: commands are cut into packets
round robin, each packet is read over the bus and sent. The packets of a command tile
it, with a header each if it is RDMA; a response means that all of them were sent, and
the bytes credited to each read sum to its length exactly at its completing beat. In
whatever order the steps come, when none is left every command has been answered. The
master copies every beat from lane 0 on, so a packet carries the bytes it was asked for
exactly when its source is aligned to the 64-byte bus.

## Out-of-order reassembly

- `RangeList`: sorted lists of ranges with gaps; equal bytes mean equal lists.
- `NodePool`, `LazyList`, `ReorderBuffer`: the coalescing list on its node pool, as
  steps on values and as a class over arrays, and the handler that delivers in order.
- `LazyListThreads`, `LazyListRuns`: any number of threads that search without locks,
  lock, validate and change, and one that pops. Whenever validation succeeds the place
  found earlier is still right.
- `LazyListProgress`: what is begun is finished. The bytes offered are those in the
  list or popped, those still being inserted, and those given up because every node is
  in use and none of the neighbouring bytes is held; no node is lost.

## Perceptron, lock and numbers

- `Arith`, `Vectors`, `Word32`, `Perceptron`: training over 32-bit words, the mistake bound of
  the ideal integer perceptron, when the two are the same, and convergence.
- `RwLock`: the lock as a state machine over its atomic operations. A second reader
  does not look at `glock`, so readers and writers are kept apart in all runs only for
  at most two threads; what holds for any number is proved beside it. The perceptron's
  head handler presets the count to 32; then no reader ever takes `glock`, and readers
  and writers are kept apart only when a single thread uses the lock.
- `NumberFormat`: digit loops, field printing character by character, and reading a
  width back. The reader
  compares a digit with the base by "greater than", so at base 10 it also accepts the
  letter a. A field width from 2^31 on becomes a negative count, which the sign and mark
  can wrap into a large padding.

## Model

| member | source | states |
|---|---|---|
| AxiBurst.NumBytesIsPowerOfTwo | hw/verilator_model/src/AXIDriver.hpp:119-122 | the bytes of a beat are two to the power of its size code |
| AxiBurst.AlignedAddress | hw/verilator_model/src/AXIDriver.hpp:124-127 | the start of the aligned container around an address, which never leaves the bus line |
| AxiBurst.BeatSize | hw/verilator_model/src/AXIDriver.hpp:181-203 | a transfer of one bus line gets the least size code whose container holds it, a longer one the full bus |
| AxiBurst.BeatCounts | hw/verilator_model/src/AXIDriver.hpp:205-216 | the beat count is the number of bus lines touched, and first, middle and last beats add up to the transfer |
| AxiBurst.OneBurst | hw/verilator_model/src/AXIDriver.hpp:223-239 | inside one page the burst is the reference burst and carries the whole transfer |
| AxiBurst.CreateAxBeats | hw/verilator_model/src/AXIDriver.hpp:164-244 | the loop and its recursion terminate and append exactly the reference burst list of the transfer |
| AxiBurst.LeastSize | hw/verilator_model/src/AXIDriver.hpp:195-202 | there always is a size code that fits, and the one chosen is the least |
| AxiBurst.SizeIsUnique | hw/verilator_model/src/AXIDriver.hpp:181-240 | the two clauses on the size code determine the burst |
| AxiBurst.PageHasFewLines | hw/verilator_model/src/AXIDriver.hpp:227-231 | inside a page at most 64 beats are needed, so the cap at 256 is never taken |
| AxiBurst.BurstsTile | hw/verilator_model/src/AXIDriver.hpp:164-244 | bursts cover the transfer in order without gap or overlap |
| AxiBurst.BurstsAreLegal | hw/verilator_model/src/AXIDriver.hpp:164-244 | every burst stays in one 4 KB page and in the transfer, has at most 256 beats, one a bus line, and the narrowest fitting size |
| AxiBurst.BurstsCountPages | hw/verilator_model/src/AXIDriver.hpp:218-243 | the number of bursts is the number of pages touched |
| AxiBurst.BeatsCountLines | hw/verilator_model/src/AXIDriver.hpp:205-243 | the number of data beats is the number of bus lines touched |
| AxiWrite.LaneBounds | hw/verilator_model/src/AXIDriver.hpp:137-157 | lower and upper byte lanes of each beat against the reference address of the beat |
| AxiWrite.BurstsCarryAll | hw/verilator_model/src/AXIDriver.hpp:164-244 | the byte counts of the bursts add up to the transfer |
| AxiWrite.AllBytesSent | hw/verilator_model/src/AXIMaster.hpp:251-278 | the byte counter of a burst ends at the burst length |
| AxiWrite.FillStrobes | hw/verilator_model/src/AXIMaster.hpp:265-269 | the strobe loop, which never advances its byte count, sets exactly the lanes between the two bounds |
| AxiWrite.FillBeat | hw/verilator_model/src/AXIMaster.hpp:253-277 | each data beat is the reference beat: its bytes by address, its strobes, its last flag |
| AxiMaster.Master.SendBeats | hw/verilator_model/src/AXIMaster.hpp:250-277 | the beats of one burst are appended in order and carry its bytes |
| AxiMaster.Master.SendBursts | hw/verilator_model/src/AXIMaster.hpp:238-284 | all bursts and their data beats are appended, and bytes_written equals n_bytes at the end |
| AxiMaster.Master.Write | hw/verilator_model/src/AXIMaster.hpp:225-285 | a write queues the bursts of its address and length, the beats of its data and one completion entry |
| AxiMaster.Master.Read | hw/verilator_model/src/AXIMaster.hpp:287-304 | a read queues its bursts and one entry with its length and burst count |
| AxiMaster.Master.BPosedge | hw/verilator_model/src/AXIMaster.hpp:433-452 | an accepted response counts one burst of the oldest write and completes it at zero; the ready output goes up with the first one and stays |
| AxiMaster.Master.ConsumeB | hw/verilator_model/src/AXIMaster.hpp:153-158 | responses are consumed in the order in which they were accepted |
| AxiMaster.Master.RPosedge | hw/verilator_model/src/AXIMaster.hpp:459-484 | an accepted read beat is credited to the oldest read and buffered with that many of its bytes, from lane 0 on |
| AxiMaster.Master.ConsumeR | hw/verilator_model/src/AXIMaster.hpp:135-146 | buffered read beats are consumed in order, with their bytes as far as there is room |
| AxiMemory.BeatBaseIsStandard | hw/verilator_model/src/AXIDriver.hpp:129-135 | the line of each beat is the one of section A3.4.1 of ARM IHI 0022E |
| AxiMemory.PadStaysInLine | hw/verilator_model/src/AXIMaster.hpp:265-269 | strobes past the data end at or before the end of the last bus line |
| AxiMemory.NoPaddingExactly | hw/verilator_model/src/AXIMaster.hpp:265-269 | a write strobes nothing past its data if and only if its part in its last page takes several bus lines or ends where some container of its start ends |
| AxiMemory.WriteIsExact | hw/verilator_model/src/AXIMaster.hpp:225-285 | after all beats of a write memory holds the data at its address, zeros in the strobed rest of the last container, and nothing else has changed |
| AxiMemory.PaddingIsReal | hw/verilator_model/src/AXIMaster.hpp:265-268 | three bytes at the start of a line overwrite the fourth |
| PacketRing.RoundingCoversExactlySizable | hw/verilator_model/src/NICInbound.hpp:251-252 | the 32-bit rounding covers the packet exactly for sizes 1 to 2^32-64; the others round to nothing |
| PacketRing.RegionsAreSafe | hw/verilator_model/src/NICInbound.hpp:247-317 | unreclaimed regions are aligned, inside the buffer and pairwise disjoint |
| PacketRing.AllocateKeeps | hw/verilator_model/src/NICInbound.hpp:247-288 | a successful allocation adds exactly its region at the end of the order and keeps the ring tiled, a refused one changes nothing; PacketRing.AllocatesExactly says which it is |
| PacketRing.AllocatesExactly | hw/verilator_model/src/NICInbound.hpp:254-288 | an allocation succeeds if and only if the packet fits between tail and head behind a cut, or else after the tail or before the head; it goes to the tail whenever it fits there, and to the start otherwise |
| PacketRing.ReclaimKeeps | hw/verilator_model/src/NICInbound.hpp:301-316 | the reclaim loop keeps the ring tiled and its bookkeeping right, stuck or not |
| PacketRing.ReclaimsLongestPrefix | hw/verilator_model/src/NICInbound.hpp:301-316 | a free reclaims exactly the longest freed prefix of the allocation order, across the cut, and counts it |
| PacketRing.ReclaimErasesPrefix | hw/verilator_model/src/NICInbound.hpp:301-304 | exactly the reclaimed offsets leave the map of pending frees |
| PacketRing.FreeKeeps | hw/verilator_model/src/NICInbound.hpp:290-317 | freeing an outstanding region with its size keeps the ring tiled |
| PacketRing.RunsAreGood | hw/verilator_model/src/NICInbound.hpp:247-317 | every run of allocations and frees in any order keeps all this, and no double free is ever seen |
| PacketRing.RequestsAreServed | hw/verilator_model/src/NICInbound.hpp:247-288 | in every run a request is served exactly when there is room, at that place and apart from every packet, and changes nothing otherwise |
| PacketRing.DrainsUnlessEmptyWrap | hw/verilator_model/src/NICInbound.hpp:254-266 | when everything is freed the ring is drained if and only if no wrap was taken from an empty ring |
| PacketRing.StuckForever | hw/verilator_model/src/NICInbound.hpp:310-315 | after such a wrap the head never moves again and nothing is reclaimed |
| PacketRing.DrainedAccepts | hw/verilator_model/src/NICInbound.hpp:254-274 | a drained ring takes exactly the packets that fit on one side of the head, so any of at most half the buffer |
| PacketRing.EmptyWrapHappens | hw/verilator_model/src/NICInbound.hpp:254-266 | a four-step run in a 256-byte buffer that gets stuck |
| NicInbound.Engine.AddPacket | hw/verilator_model/src/NICInbound.hpp:167-180 | the packet joins the incoming queue and is counted as a HER to send |
| NicInbound.Engine.AllocatePktSpace | hw/verilator_model/src/NICInbound.hpp:247-288 | the method performs the allocation step on the fields, with the address it returns; when it must succeed and where, PacketRing.AllocatesExactly states |
| NicInbound.Engine.ReclaimHead | hw/verilator_model/src/NICInbound.hpp:301-316 | the loop over the pending frees performs the reclaim step and terminates |
| NicInbound.Engine.FreePktSpace | hw/verilator_model/src/NICInbound.hpp:290-317 | rounding, recording and reclaiming, under the two assertions of the source |
| NicInbound.Engine.ProcessPacket | hw/verilator_model/src/NICInbound.hpp:319-335 | allocate, write and queue the HER, or leave everything as it was |
| NicInbound.Engine.ProgressIncoming | hw/verilator_model/src/NICInbound.hpp:337-364 | after the wait set by the last packet, the oldest incoming packet is processed; it leaves its queue and sets the next wait only on success |
| NicInbound.Engine.ProgressWriteResponses | hw/verilator_model/src/NICInbound.hpp:512-526 | a completed write moves the oldest queued HER to the ready queue |
| NicInbound.Engine.HerProgress | hw/verilator_model/src/NICInbound.hpp:387-453 | the oldest ready HER goes to PsPIN, is recorded, counted, and may raise end of stream |
| NicInbound.Engine.FeedbackProgress | hw/verilator_model/src/NICInbound.hpp:461-497 | a feedback frees its packet and forgets it |
| InboundRuns.RunsAreSafe | hw/verilator_model/src/NICInbound.hpp:247-526 | in every run of the engine with bus and memory all assertions hold and the invariant is kept |
| InboundTheorems.ReleasedPacketsAreInMemory | hw/verilator_model/src/NICInbound.hpp:319-526 | a packet whose write is acknowledged is in memory byte for byte until its feedback, whatever else happens |
| InboundTheorems.SentHerPointsAtItsPacket | hw/verilator_model/src/NICInbound.hpp:387-453 | the n-th HER is that of the n-th packet added, and memory at its address holds that packet when it is sent |
| InboundAcks.ReleasedIsAcknowledged | hw/verilator_model/src/NICInbound.hpp:512-526 | responses accepted and bursts left in the write queue make up the bursts issued; the first n packets admitted are complete if and only if the responses cover all their bursts, and every HER ready or sent is one of them |
| InboundAcks.AckKeeps | hw/verilator_model/src/AXIMaster.hpp:439-450 | one response works off one burst of the oldest write, and completes it exactly when it was the last |
| InboundTheorems.HersLeaveInOrder | hw/verilator_model/src/NICInbound.hpp:167-180 | HERs leave in the order of add_packet |
| InboundTheorems.ReleasedRegionsAreStable | hw/verilator_model/src/NICInbound.hpp:319-335 | no byte of a released region, padding included, changes before its feedback |
| InboundTheorems.DeliveredBeatsStayHome | hw/verilator_model/src/AXIMaster.hpp:225-285 | a delivered beat changes memory only inside the region of a packet still being written |
| InboundTheorems.CountersAgree | hw/verilator_model/src/NICInbound.hpp:167-180 | hers_to_send and in_flight_packets are the sums of the queues they stand for |
| InboundTheorems.EosComesLast | hw/verilator_model/src/NICInbound.hpp:449-452 | end of stream is raised only with the HER of the last packet added |
| InboundTheorems.EosExactly | hw/verilator_model/src/NICInbound.hpp:449-452 | end of stream is up if and only if some HER was sent as the last one to send after set_eos |
| InboundTheorems.LateEosIsLost | hw/verilator_model/src/NICInbound.hpp:162-165 | a set_eos with nothing left to send never raises end of stream unless another packet is added |
| InboundProgress.AdmitsExactly | hw/verilator_model/src/NICInbound.hpp:337-364 | in every run, once the wait is over, the oldest packet is admitted if and only if there is room for it: it goes to its place, its HER is queued, its wait begins |
| InboundProgress.PacketsAreSpaced | hw/verilator_model/src/NICInbound.hpp:339-345 | after a packet that asks for a wait, that many turns pass before another is admitted |
| InboundProgress.WaitsExactly | hw/verilator_model/src/NICInbound.hpp:337-345 | without a packet nothing happens, and during the wait only the wait goes on |
| InboundProgress.CompletionsRelease | hw/verilator_model/src/NICInbound.hpp:512-526 | in every run a completion makes the oldest queued HER ready at once, and any other response is only consumed |
| InboundProgress.HersAreSent | hw/verilator_model/src/NICInbound.hpp:387-453 | a HER is sent if and only if PsPIN is ready and a HER is, and is recorded |
| InboundProgress.AdmittedPacketsAreSent | hw/verilator_model/src/NICInbound.hpp:319-526 | the bus, response and HER steps, taken in any order, are at most as many as the work left, and when none is possible the HER of every admitted packet has been sent, in order |
| Channel.Port.SendBeat | hw/verilator_model/src/AXIMaster.hpp:86-92 | a pending beat moves to the bounded queue |
| Channel.Port.OnPosedge | hw/verilator_model/src/AXIMaster.hpp:307-339 | at the rising edge a waiting beat stays, otherwise the next one is put on the port |
| Channel.Port.OnNegedge | hw/verilator_model/src/AXIMaster.hpp:341-349 | at the falling edge a beat with valid and ready is accepted, one without ready waits |
| Channel.StepConserves | hw/verilator_model/src/AXIMaster.hpp:394-431 | each edge and each push keeps accepted, held, queued and pending beats equal to those issued |
| Channel.RunsConserve | hw/verilator_model/src/AXIMaster.hpp:86-128 | in every run nothing is lost, repeated or reordered, and the queue keeps its bound |
| Channel.HeldUntilAccepted | hw/verilator_model/src/AXIMaster.hpp:307-349 | valid and payload are stable until the handshake (section A3.2.1 of ARM IHI 0022E) |
| Channel.ReadySlaveDrains | hw/verilator_model/src/AXIMaster.hpp:307-349 | a ready slave gets one beat a cycle until port and queue are empty |
| Channel.BeatsMoveOn | hw/verilator_model/src/AXIMaster.hpp:86-128 | in every run a pending beat moves to the queue if and only if that is unlimited or not full |
| Channel.AcceptsExactly | hw/verilator_model/src/AXIMaster.hpp:341-349 | in every run a beat is accepted if and only if valid and ready are set at the falling edge |
| Channel.RisesExactly | hw/verilator_model/src/AXIMaster.hpp:307-339 | in every run a held beat stays at the rising edge; otherwise the oldest queued one goes on the port, or valid falls |
| Channel.EveryBeatIsAccepted | hw/verilator_model/src/AXIMaster.hpp:86-128 | from every state of every run between two cycles, every beat issued is accepted, one a cycle, if the engine keeps sending and the slave is ready |
| ReadAccounting.OneRead | hw/verilator_model/src/AXIMaster.hpp:465-482 | any pattern of last flags that ends its last burst completes a read of matching length exactly once, at its end, with the bytes of one bus line after the other |
| ReadAccounting.ReadDelivers | hw/verilator_model/src/AXIMaster.hpp:287-304 | for any address and length the byte counts of a read sum to its length at the beat flagged complete |
| ReadAccounting.TransferIsLined | hw/verilator_model/src/AXIDriver.hpp:129-157 | the data beats of a transfer are on consecutive bus lines and have all their lanes that belong to it |
| ReadAccounting.DecodeAppend | hw/verilator_model/src/AXIMaster.hpp:459-484 | later reads do not disturb the accounting of earlier ones |
| ReadBytes.CollectIsRight | hw/verilator_model/src/AXIMaster.hpp:468-480 | whatever the memory and the unused lanes hold, a read gets the bytes from the start of its bus line on |
| ReadBytes.ReadsRightExactly | hw/verilator_model/src/AXIMaster.hpp:478-480 | a read gets the bytes it asked for, for every memory and slave, if and only if its address is aligned to the bus |
| Packetizer.Packets.NewCmd | hw/verilator_model/src/NICOutbound.hpp:92-96 | a command joins the queue under the assertion of the source |
| Packetizer.Packets.GetNextPacket | hw/verilator_model/src/NICOutbound.hpp:98-132 | one packet is taken off the first command, the rest of which goes to the back; its length is payload plus 32 for an RDMA command and payload alone otherwise, full unless it is the last |
| Packetizer.Payload | hw/verilator_model/src/NICOutbound.hpp:104-112 | a packet takes what is left of the command or, if that is less, the room, which is the maximum length less 32 for an RDMA command and all of it otherwise |
| Packetizer.SplitCarries | hw/verilator_model/src/NICOutbound.hpp:98-132 | a command is cut into non-empty packets that carry its bytes consecutively and exactly, the last one marked and no other |
| Packetizer.SplitIsFramed | hw/verilator_model/src/NICOutbound.hpp:104-118 | every packet of an RDMA command has its payload plus a header of 32 bytes, and all but the last are full; an acceptable command of the other kind is exactly one packet of its own length |
| Packetizer.SplitCount | hw/verilator_model/src/NICOutbound.hpp:111 | a command is cut into as few packets as the room allows |
| NicOutbound.Engine.HandleCmd | hw/verilator_model/src/NICOutbound.hpp:201-226 | a valid command is taken exactly when a slot is free |
| NicOutbound.Engine.ProgressPackets | hw/verilator_model/src/NICOutbound.hpp:228-237 | one packet is generated and its read issued when the buffer has room |
| NicOutbound.Engine.AxiPosedge | hw/verilator_model/src/AXIMaster.hpp:459-484 | a valid read beat is taken, the engine having no limit on its buffer |
| NicOutbound.Engine.ProgressReadResponses | hw/verilator_model/src/NICOutbound.hpp:285-309 | a buffered beat is copied to the end of the bytes of the oldest packet, which moves on at the completing beat |
| NicOutbound.Engine.ProgressNetqueue | hw/verilator_model/src/NICOutbound.hpp:239-275 | a free network takes the oldest complete packet, with a response exactly for a last one |
| OutboundRuns.RunsAreSafe | hw/verilator_model/src/NICOutbound.hpp:180-309 | in every run of the engine with bus and network all assertions hold and the invariant is kept |
| OutboundRuns.ReceiveIsSafe | hw/verilator_model/src/NICOutbound.hpp:293-304 | a read beat always finds its packet, and current_offset equals payload_length at completion |
| OutboundRuns.ReceiveKeepsBytes | hw/verilator_model/src/NICOutbound.hpp:296-299 | receiving a beat keeps every packet with the bytes of the memory, where the lanes have them |
| OutboundRuns.TurnMovesOne | hw/verilator_model/src/NICOutbound.hpp:98-132 | a turn moves one packet from what is to come of a command to what was generated |
| OutboundTheorems.PacketsTileTheirCommand | hw/verilator_model/src/NICOutbound.hpp:98-132 | the packets generated for a command are the first of its cut, and all of it once it has left the queue |
| OutboundTheorems.PacketsAreFramed | hw/verilator_model/src/NICOutbound.hpp:104-118 | in every run each packet generated for a command has the header exactly if the command is RDMA and is full unless it ends the command; other commands never get a second packet |
| OutboundTheorems.SentInOrder | hw/verilator_model/src/NICOutbound.hpp:239-309 | packets are sent in the order of generation, each after all its payload arrived |
| OutboundTheorems.AlignedPacketsCarryMemory | hw/verilator_model/src/NICOutbound.hpp:233-235 | a packet sent carries exactly the bytes of the memory if its source is aligned to the bus, and the bytes from the start of the bus line otherwise |
| OutboundTheorems.ResponseMeansAllSent | hw/verilator_model/src/NICOutbound.hpp:255-259 | when a last packet is sent, and only then is a response raised, all packets of its command have been sent |
| OutboundTheorems.RoundRobinIsFair | hw/verilator_model/src/NICOutbound.hpp:98-132 | at most 15 other packets are generated between two of one command |
| OutboundTheorems.CommandsAreConserved | hw/verilator_model/src/NICOutbound.hpp:201-275 | accepted commands are queued, on their way, or answered, each once |
| OutboundProgress.CommandsAreTaken | hw/verilator_model/src/NICOutbound.hpp:201-226 | in every run a command offered is taken if and only if one of the 16 slots is free |
| OutboundProgress.TurnsAreTaken | hw/verilator_model/src/NICOutbound.hpp:228-237 | a turn generates the next packet of the oldest command and issues its read if and only if there is a command and room in the engine |
| OutboundProgress.BeatsAreConsumed | hw/verilator_model/src/NICOutbound.hpp:285-309 | a buffered beat is always consumed: its bytes join the oldest packet, which moves on exactly at the completing beat |
| OutboundProgress.PacketsAreSent | hw/verilator_model/src/NICOutbound.hpp:239-275 | the oldest complete packet is sent if and only if the network is free |
| OutboundProgress.NetworkIsHeld | hw/verilator_model/src/NICOutbound.hpp:241-247 | a packet holds the network for the turns it takes, and no other is sent meanwhile |
| OutboundProgress.MovesDescend | hw/verilator_model/src/NICOutbound.hpp:180-309 | every step that moves a command on decreases a rank of the work left, however long packets hold the network |
| OutboundProgress.QuietMeansAnswered | hw/verilator_model/src/NICOutbound.hpp:180-309 | when no such step is possible every accepted command has had all its packets generated and sent and its response given |
| OutboundProgress.CanFinish | hw/verilator_model/src/NICOutbound.hpp:180-309 | so from the end of every run the engine can go on to answer all it has accepted |
| RangeList.CanonicalIsUnique | examples/ooorb/handlers/lazylist.h:194-271 | a set of bytes has only one sorted list of ranges with gaps |
| RangeList.OrderDoesNotMatter | examples/ooorb/handlers/lazylist.h:194-271 | two orders of the same ranges end in the same list |
| RangeList.WholeIsOneRange | examples/ooorb/handlers/lazylist.h:194-271 | a list that holds exactly [0, n) is one range |
| NodePool.CommitKeeps | examples/ooorb/handlers/lazylist.h:216-259 | a validated insertion keeps chain and free list apart, sorted and linked, and adds exactly its range unless a node is needed and none is free |
| NodePool.CommitOutcome | examples/ooorb/handlers/lazylist.h:219-257 | which of merge, growth, new node or refusal a commit is, and the lists it leaves |
| NodePool.ConnectsByBytes | examples/ooorb/handlers/lazylist.h:219-220 | the two merge tests hold exactly when the byte before or after the range is held |
| NodePool.PutKeeps | examples/ooorb/handlers/lazylist.h:131-153 | a freed node becomes the head of the free list and no byte changes |
| NodePool.PopKeeps | examples/ooorb/handlers/lazylist.h:296-302 | popping removes exactly the front range |
| NodePool.FoundFits | examples/ooorb/handlers/lazylist.h:158-186 | the place found overlaps exactly when the list holds a byte of the range |
| LazyList.List.constructor | examples/ooorb/handlers/lazylist.h:50-86 | init splits the nodes into an empty chain and a free list of capacity-2 |
| LazyList.List.GetFreeNode | examples/ooorb/handlers/lazylist.h:93-125 | the head of the free list is taken, or exhaustion reported |
| NodePool.VariantsAgree | examples/ooorb/handlers/lazylist.h:93-125 | the two variants of taking a node agree if and only if one is free; when none is, the lock variant goes to a node that does not exist |
| LazyList.List.PutFreeNode | examples/ooorb/handlers/lazylist.h:131-153 | the node is pushed on the free list |
| LazyList.List.FindPred | examples/ooorb/handlers/lazylist.h:158-186 | the search ends at the first range not before the new one, and reports an overlap exactly when there is one |
| LazyList.List.CommitSection | examples/ooorb/handlers/lazylist.h:216-259 | the locked section performs the commit step on the node arrays |
| LazyList.List.Insert | examples/ooorb/handlers/lazylist.h:194-271 | exactly the range is added; the list is unchanged if and only if it overlaps or needs a node when none is free; the result tells the second case |
| LazyList.List.InsertAll | examples/ooorb/handlers/lazylist.h:194-271 | disjoint insertions end in the canonical list of their union |
| LazyList.InsertInTwoOrders | examples/ooorb/handlers/lazylist.h:194-271 | the same disjoint ranges inserted in any two orders end in the same chain, and a permuted split of [0, n) in one range |
| LazyList.List.PopFront | examples/ooorb/handlers/lazylist.h:273-314 | the front range is returned and removed exactly when it starts where the caller expects |
| ReorderBuffer.NextMissing | examples/ooorb/handlers/ooorb_handlers.c:51-58 | when nothing is popped the expected byte is not held |
| ReorderBuffer.Handler.constructor | examples/ooorb/handlers/ooorb_handlers.c:27-34 | the reorder buffer starts empty at byte 0 |
| ReorderBuffer.Handler.Packet | examples/ooorb/handlers/ooorb_handlers.c:36-59 | a range is accepted unless it needs a node and none is free; every accepted byte is delivered or buffered, and a pop delivers all bytes up to the first missing one |
| ReorderBuffer.PopConsistent | examples/ooorb/handlers/ooorb_handlers.c:51-58 | popping the front at the expected byte keeps delivered plus buffered equal to accepted |
| ReorderBuffer.DeliveredIsPrefix | examples/ooorb/handlers/ooorb_handlers.c:53-57 | popped ranges concatenate to exactly the bytes below next_expected_byte |
| LazyListThreads.FoundKeeps | examples/ooorb/handlers/lazylist.h:189-192 | what a search found stays right, or validation will refuse it, under every step of another thread |
| LazyListThreads.OtherKeeps | examples/ooorb/handlers/lazylist.h:158-314 | a step of one thread keeps what every other thread relies on |
| LazyListRuns.WalkExists | examples/ooorb/handlers/lazylist.h:158-173 | the search always ends at a node |
| LazyListRuns.ValidatedPlace | examples/ooorb/handlers/lazylist.h:206-216 | whenever validation succeeds under the locks the place found earlier is still right |
| LazyListRuns.ValidatedFront | examples/ooorb/handlers/lazylist.h:284-296 | whenever it succeeds in a pop, the node is the front, starts at the expected byte, and no other pop is under way |
| LazyListRuns.RunsAreSafe | examples/ooorb/handlers/lazylist.h:158-314 | for any number of threads and every interleaving the chain stays sorted and disjoint and holds exactly what was inserted and not popped; that what is begun is inserted, LazyListProgress states |
| LazyListRuns.SearchNeverOverlaps | examples/ooorb/handlers/lazylist.h:175-180 | with disjoint ranges no insertion is given up as an overlap |
| LazyListRuns.PoppedInOrder | examples/ooorb/handlers/ooorb_handlers.c:51-58 | the popped bytes are always a prefix of the stream, published one range at a time |
| LazyListProgress.CommitsExactly | examples/ooorb/handlers/lazylist.h:204-266 | a commit searches again if and only if the nodes found are no longer neighbours in the list; otherwise the range is in the list, unless no node is free and no byte next to it is held, and then the list is left as it was |
| LazyListProgress.LooksExactly | examples/ooorb/handlers/lazylist.h:287-293 | a pop gives up if and only if the list does not start with the expected byte |
| LazyListProgress.UnlinksExactly | examples/ooorb/handlers/lazylist.h:298-304 | a pop looks again if and only if the front or its successor has changed; otherwise it unlinks the first range, which starts with the expected byte |
| LazyListProgress.OfferedAreAccounted | examples/ooorb/handlers/lazylist.h:194-273 | in every run the bytes of all ranges ever offered are those inserted, those still being inserted, and those given up for lack of a node |
| LazyListProgress.InsertionsEnd | examples/ooorb/handlers/lazylist.h:204-273 | a thread that has begun to insert a range goes on until all of it is in the list, or until the range needs a node and none is free |
| LazyListProgress.PopsEnd | examples/ooorb/handlers/lazylist.h:275-322 | a pop goes on until it has unlinked the range that starts with its expected byte, and gives up exactly when it looks and the list does not start there |
| LazyListProgress.PopsBegin | examples/ooorb/handlers/ooorb_handlers.c:44-58 | a pop expects the byte that was published last when it began |
| LazyListProgress.RetriesMeanChange | examples/ooorb/handlers/lazylist.h:204-214 | a commit has to search again only if the list changed since its search |
| LazyListProgress.PopRetriesMeanChange | examples/ooorb/handlers/lazylist.h:279-304 | an unlink has to look again only if the list changed since its look |
| LazyListProgress.NodesAreConserved | examples/ooorb/handlers/lazylist.h:93-153 | in every run each node is in the list, free, or unlinked by one thread that has yet to give it back |
| LazyListProgress.DropsMeanFull | examples/ooorb/handlers/lazylist.h:243-247 | a range is given up only when every node holds another range or is on its way back |
| Word32.Wrap | examples/slp/handlers/slp_l1.c:45-69 | 32-bit two's complement wrap, the identity on words |
| Perceptron.Predict | examples/slp/handlers/slp_l1.c:45-56 | the loop answers 1 if the inner product plus the bias, wrapped to 32 bits, is at least 0, and 0 otherwise |
| Perceptron.PredictsExactly | examples/slp/handlers/slp_l1.c:45-56 | for all inputs the answer is 1 if and only if the exact score, wrapped once, is not negative; without overflow, if and only if the score is at least 0 |
| Perceptron.WordFitWraps | examples/slp/handlers/slp_l1.c:61-67 | every weight moves by the error times its input, wrapped once |
| Perceptron.FirstSample | examples/slp/handlers/slp_l1.c:31-67 | from zero weights the first sample is a mistake if and only if its answer is 0, and then the weights become exactly minus the extended input |
| Perceptron.FitSample | examples/slp/handlers/slp_l1.c:61-67 | one sample updates every weight and the bias in place |
| Perceptron.FitBatch | examples/slp/handlers/slp_l1.c:59-69 | the loop trains on the samples of the packet in order |
| Perceptron.PredictBatch | examples/slp/handlers/slp_l1.c:139-142 | predictions written over the inputs are those of the inputs as they arrived |
| Perceptron.Headers.SendReturn | examples/slp/handlers/slp_l1.c:74-94 | addresses and ports are swapped, both lengths set, and the packet sent |
| Perceptron.Answer | examples/slp/handlers/slp_l1.c:138-146 | the answers are written and the reply goes back with the length passed on |
| Perceptron.PayloadHandler | examples/slp/handlers/slp_l1.c:121-152 | training changes only the shared weights, prediction only the answers and the reply, anything else nothing |
| Perceptron.ReplyHoldsAnswers | examples/slp/handlers/slp_l1.c:74 | the reply length passed as 8 bits is right exactly up to 61 answers |
| Perceptron.PacketsAreOneRun | examples/slp/handlers/slp_l1.c:135-136 | training packet by packet is training on all samples in order |
| Perceptron.NormBound | examples/slp/handlers/slp_l1.c:59-69 | the squared norm of the weights is at most B times the number of mistakes |
| Perceptron.AlignmentBound | examples/slp/handlers/slp_l1.c:59-69 | each mistake moves the weights at least the margin along any separator |
| Perceptron.MistakeBound | examples/slp/handlers/slp_l1.c:59-69 | k mistakes with margin g and squared norms at most B give k g^2 <= B |u|^2 |
| Perceptron.TrainingIsExact | examples/slp/handlers/slp_l1.c:45-69 | the 32-bit code is the ideal perceptron while B^2 times the number of mistakes is below 2^62 |
| Perceptron.TrainingStaysInRange | examples/slp/handlers/slp_l1.c:45-69 | under the same limit no product, partial sum or weight of any step leaves 32 bits |
| Perceptron.SeparableTrainingNeverOverflows | examples/slp/handlers/slp_l1.c:45-69 | a condition on B, margin and separator under which every product, partial sum and weight stays in 32 bits in all training and in predicting any input within B, so the code is the ideal perceptron |
| Perceptron.TrainingConverges | examples/slp/handlers/slp_l1.c:59-69 | after more than B |u|^2 / g^2 passes over separable data the ideal perceptron answers every sample right |
| Perceptron.WordTrainingConverges | examples/slp/handlers/slp_l1.c:45-69 | the same of the 32-bit code, under that condition |
| Vectors.CauchySchwarz | examples/slp/handlers/slp_l1.c:49-51 | the inequality behind the bounds, over integers |
| RwLock.Lock.AmoAdd | sw/runtime/include/pspin.h:150-159 | atomic add on a 32-bit word |
| RwLock.Lock.AmoOr | sw/runtime/include/pspin.h:172-181 | atomic or with 1 |
| RwLock.Lock.CountIn | sw/runtime/include/handler.h:139-142 | a reader counts itself in and learns whether it is the first |
| RwLock.Lock.CountOut | sw/runtime/include/handler.h:149-152 | a reader counts itself out and learns whether it is the last |
| RwLock.Lock.TryLock | sw/runtime/include/pspin.h:258-265 | one turn of the spin loop |
| RwLock.Lock.Unlock | sw/runtime/include/pspin.h:267-270 | clearing the lock word |
| RwLock.RunKeeps | sw/runtime/include/handler.h:139-169 | the invariant holds in every interleaving of any number of threads |
| RwLock.WritersExcludeEachOther | sw/runtime/include/handler.h:159-169 | two writers never overlap, glock is set exactly when it has one owner, and releases match acquisitions |
| RwLock.ReleaseFindsLockSet | sw/runtime/include/handler.h:149-157 | whoever clears glock finds it set |
| RwLock.GroupShutsOutWriters | sw/runtime/include/handler.h:139-157 | once the first reader has glock no writer is inside until the count returns to 0 |
| RwLock.OverlapIsCounted | sw/runtime/include/handler.h:139-147 | with a writer inside, the readers inside are those counted beyond the first |
| RwLock.ExclusionExactly | sw/runtime/include/handler.h:139-169 | readers and writers are kept apart in all runs if and only if at most two threads use the lock, or one if the count was preset above zero as the perceptron handler does |
| RwLock.TurnExactly | sw/runtime/include/pspin.h:258-265 | a spinning thread gets in at its turn if and only if glock has no owner |
| RwLock.StartExactly | sw/runtime/include/handler.h:139-163 | a writer has to spin exactly if glock has an owner when it starts, a reader exactly if no reader is counted |
| RwLock.SpinsUntilFree | sw/runtime/include/pspin.h:258-265 | a spinning thread never gives up, and is inside after the first turn that finds glock without an owner |
| RwLock.OverlapHappens | sw/runtime/include/handler.h:141-147 | a run of three threads with a reader and a writer inside |
| RwLock.CanDrain | sw/runtime/include/handler.h:139-169 | no deadlock: from every reachable state the threads inside can all finish |
| NumberFormat.HighestPower | sw/pulp-sdk/runtime/libs/io/tinyprintf.c:107-108 | the power loop never overflows and ends at the highest power |
| NumberFormat.ToText | sw/pulp-sdk/runtime/libs/io/tinyprintf.c:101-119 | the digits written are the proper numeral of the value, fit the buffer and end with NUL |
| NumberFormat.SignedToText | sw/pulp-sdk/runtime/libs/io/tinyprintf.c:180-187 | the magnitude and sign are right, the most negative word included |
| NumberFormat.DigitChars | sw/pulp-sdk/runtime/libs/io/tinyprintf.c:112 | digits from ten on are the letters a to f, or A to F for upper case |
| NumberFormat.FewDigits | sw/pulp-sdk/runtime/libs/io/tinyprintf.c:273-275 | a 64-bit number has at most 22 digits, 20 from base 10 on and 16 at base 16, so it fits the buffer of 23 characters; a 32-bit one has at most 11 and fits the one of 12 |
| NumberFormat.NumeralIsUnique | sw/pulp-sdk/runtime/libs/io/tinyprintf.c:101-119 | a value has only one numeral without leading zero |
| NumberFormat.PrintField | sw/pulp-sdk/runtime/libs/io/tinyprintf.c:217-267 | right-aligned the field is spaces, marks, text; left-aligned marks, text, spaces; with leading zeros marks, zeros, text; and nothing else, with a padding count that wraps in 32 bits |
| NumberFormat.MarkChars | sw/pulp-sdk/runtime/libs/io/tinyprintf.c:239-249 | the marks are the sign and, in the alternate form, 0x or 0X by case at base 16 and 0 at base 8 |
| NumberFormat.FieldWidth | sw/pulp-sdk/runtime/libs/io/tinyprintf.c:220-231 | below 2^31 the field is as wide as asked or needed; from there on it has no padding if and only if the width is at least 2^31 plus the marks |
| NumberFormat.ReadNumber | sw/pulp-sdk/runtime/libs/io/tinyprintf.c:201-215 | the reader takes the longest run of accepted characters and returns its value modulo 2^32 |
| NumberFormat.AcceptsExactly | sw/pulp-sdk/runtime/libs/io/tinyprintf.c:189-208 | the reader goes on over the digits up to and including the base, in either case; at base 10 over the ten digits, a and A |
| NumberFormat.RoundTrip | sw/pulp-sdk/runtime/libs/io/tinyprintf.c:201-215 | a numeral is read back, all of it and nothing more, if and only if the reader would not accept the next character |
| NumberFormat.LetterReadAsTen | sw/pulp-sdk/runtime/libs/io/tinyprintf.c:207-208 | at base 10 the letter a is accepted as a digit |

## Left out

- Simulated time: tracing, printing, statistics, callbacks and file traces; the time a packet occupies the network, computed in floating point, is a parameter.
- NicInbound.Engine.ProgressIncoming: after a refusal the source assigns a decremented wait back to itself in one expression (NICInbound.hpp:362); the model leaves it as it was, which is its value when the right-hand side is evaluated first.
- Packet length: the HER carries the packet length; the source takes it from the caller a second time (`her_size` besides `pkt_len`), and runs where the two differ are not modelled.
- Addresses: unbounded, so a transfer that wraps around the end of the address space is not modelled.
- Byte lanes: data and strobes of a beat are sequences of 64 bytes and flags; the constant fields of address beats (burst type, cache, protection, user) are dropped.
- AxiMaster.Master.Read: the loop of the source reads a queue element through a reference after removing it (AXIMaster.hpp:299-301); the model reads it before.
- AxiMaster.Master.BPosedge: with a bounded buffer the ready output stays up while the buffer is full, and the slave sees a handshake for a response that is not taken; the engines leave the buffers unlimited, and the system theorems are about that setting.
- AxiMaster.Master.RPosedge: the same of read beats.
- Packet sizes: a packet of 0 bytes or of more than 2^32-64 rounds to an empty region; runs take other sizes only, and PacketRing.RoundingCoversExactlySizable shows that these are exactly the ones covered.
- InboundSystem: the size in a feedback is that of its HER; the source has this assertion commented out. The packet buffer starts at a multiple of 64, as configured.
- InboundSystem and OutboundSystem: each function called at a clock edge is one step, and steps come in any order, which includes the order of the source. The slave takes a data beat when the address beat is there too.
- OutboundSystem: the memory read from does not change during a run, and the part of a packet behind its payload, which the source leaves zero, is not modelled.
- Outbound commands of length 0, and a maximum packet length of at most 32, for which an RDMA command has no room for payload.
- LazyList: one thread, so the locks are left out; the capacity is that of the source and marks of the two sentinels start clear, which init does not set.
- LazyList.List.GetFreeNode: tests the head of the free list, as the load-reserved variant does (lazylist.h:101); the lock variant tests the lock word (lazylist.h:115), and NodePool.VariantsAgree states when the two agree.
- LazyList.List.Insert: returns 0 for an overlap as for success, as the source does.
- LazyListThreads: a search is one step on one snapshot, a locked section is one step, and a node is taken from the free list only when no other thread still points to it; pops are at the expected byte only.
- LazyListProgress: how often a thread retries while others change the list, which the source does not bound either.
- The tail handler of the reorder buffer, which pops without advancing the expected byte.
- Perceptron: one fit handler at a time, so the lock calls inside are left out; two of them can use stale errors. Answers are 0 or 1 in the theorems.
- RwLock: the spin loops are single attempts, so fairness and bounded waiting are not modelled.
- RwLock.CanDrain: shows that threads inside can finish under some schedule, not under every one.
- NumberFormat: the format grammar, and the cast of a character to a signed type. Where the source relies on signed overflow (negating the least word, counting down from it) the model wraps.
- Register headers, drivers, the AXI slave and PCIe models, and the other handlers: plumbing, unseen hardware, or easier members of the same kinds.
