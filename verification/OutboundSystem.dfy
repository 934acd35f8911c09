/** The outbound engine with PsPIN, the memory bus and the network around it: every
    interleaving of commands, packets, address beats, data beats and transmissions.
    The engine's own steps are those of module NicOutbound. */
module OutboundSystem {
  import opened AxiBurst
  import opened AxiWrite
  import opened AxiMaster
  import opened AxiMemory
  import opened Packetizer
  import opened ReadAccounting
  import opened ReadBytes
  import N = NicOutbound

  // Largest packet, how many packets may be in the engine, and the memory read from.
  datatype Cfg = Cfg(max: nat, buffer: nat, mem: Memory)

  datatype Sys = Sys(
    nic: N.Nic,
    due: seq<Due>,           // the beats the memory still owes
    // history, for stating what is proved
    arrived: seq<Slot>,      // what the buffered beats were due for
    accepted: seq<Cmd>,
    generated: seq<Packet>,
    sent: seq<Packet>,
    responses: seq<nat>)

  datatype Event =
    | Command(cmd: Cmd)      // a command is offered
    | Packetize              // progress_packets
    | TakeAr                 // the memory takes an address beat
    | Arrive(beat: RBeat)    // the next data beat arrives
    | Receive                // progress_axi_read_responses
    | Transmit(cycles: nat)  // progress_netqueue

  // Commands taken have bytes and a form the engine accepts; the memory answers address
  // beats in order.
  ghost predicate Enabled(s: Sys, e: Event, c: Cfg) {
    match e
    case Command(cmd) => |s.nic.commands| < NUM_PARALLEL_CMD ==> Acceptable(cmd, c.max)
    case TakeAr => s.nic.ar != []
    case Arrive(beat) => s.due != [] && Carried(s.due[0], beat, c.mem)
    case _ => true
  }

  // The assertions of the source on the way of each event.
  predicate AssertionsHold(s: Sys, e: Event, c: Cfg) {
    match e
    case Packetize => s.nic.commands != [] && s.nic.commands[0].fid == 0 ==> s.nic.commands[0].length <= c.max
    case Arrive(_) => s.nic.readQueue != []
    case Receive => ReceiveAssertions(s.nic)
    case _ => true
  }

  predicate ReceiveAssertions(n: N.Nic) {
    n.rQueue != [] ==>
      && n.dma != []
      && (n.rQueue[0].isLast ==> |N.Took(n.dma[0], n.rQueue[0]).data| == n.dma[0].payload)
  }

  function CommandStep(s: Sys, cmd: Cmd): Sys {
    var numbered := cmd.(number := |s.accepted|);
    var (nic, taken) := N.Command(s.nic, numbered);
    s.(nic := nic, accepted := if taken then s.accepted + [numbered] else s.accepted)
  }

  function PacketizeStep(s: Sys, c: Cfg): Sys
    requires Configured(c.max)
  {
    s.(nic := N.Packetize(s.nic, c.max, c.buffer),
       generated := if N.CanPacketize(s.nic, c.buffer) then s.generated + [Head(s.nic.commands[0], c.max)]
                    else s.generated)
  }

  function TakeArStep(s: Sys): Sys
    requires s.nic.ar != []
  {
    s.(nic := s.nic.(ar := s.nic.ar[1..]), due := s.due + BeatDues(s.nic.ar[0]))
  }

  function ArriveStep(s: Sys, beat: RBeat): Sys
    requires s.due != [] && s.nic.readQueue != []
  {
    s.(nic := N.AcceptR(s.nic, beat), due := s.due[1..],
       arrived := s.arrived + [FirstSlot(s.nic.readQueue, s.due[0])])
  }

  function ReceiveStep(s: Sys): Sys
    requires ReceiveAssertions(s.nic)
  {
    s.(nic := N.Receive(s.nic), arrived := if s.nic.rQueue == [] || s.arrived == [] then s.arrived else s.arrived[1..])
  }

  function TransmitStep(s: Sys, cycles: nat): Sys {
    var (nic, out) := N.Transmit(s.nic, cycles);
    s.(nic := nic, sent := s.sent + out, responses := s.responses + LastIds(out))
  }

  ghost function Step(s: Sys, e: Event, c: Cfg): Sys
    requires Configured(c.max) && Enabled(s, e, c) && AssertionsHold(s, e, c)
  {
    match e
    case Command(cmd) => CommandStep(s, cmd)
    case Packetize => PacketizeStep(s, c)
    case TakeAr => TakeArStep(s)
    case Arrive(beat) => ArriveStep(s, beat)
    case Receive => ReceiveStep(s)
    case Transmit(cycles) => TransmitStep(s, cycles)
  }

  const START := Sys(N.INIT, [], [], [], [], [], [])

  // A run: a state whose assertion fails may be followed by anything.
  ghost predicate IsRun(run: seq<Sys>, es: seq<Event>, c: Cfg) {
    && Configured(c.max) && |run| == |es| + 1 && run[0] == START
    && forall i :: 0 <= i < |es| ==>
         Enabled(run[i], es[i], c) && (AssertionsHold(run[i], es[i], c) ==> run[i + 1] == Step(run[i], es[i], c))
  }

  // ---------- The invariant, part by part ----------

  // The ids of the packets that end a command.
  function LastIds(ps: seq<Packet>): seq<nat> {
    if ps == [] then [] else LastId(ps[0]) + LastIds(ps[1..])
  }

  function LastId(p: Packet): seq<nat> { if p.isLast then [p.id] else [] }

  // The packets of command n, in order.
  function Of(ps: seq<Packet>, n: nat): seq<Packet> {
    if ps == [] then [] else Of(ps[..|ps| - 1], n) + Own(ps[|ps| - 1], n)
  }

  function Own(p: Packet, n: nat): seq<Packet> { if p.number == n then [p] else [] }

  function Part(c: Cmd, n: nat, max: nat): seq<Packet>
    requires Configured(max)
  {
    if c.number == n then Split(c, max) else []
  }

  // What is still to come of command n.
  function RestOf(commands: seq<Cmd>, n: nat, max: nat): seq<Packet>
    requires Configured(max)
  {
    if commands == [] then [] else Part(commands[0], n, max) + RestOf(commands[1..], n, max)
  }

  predicate CommandsPart(commands: seq<Cmd>, accepted: seq<Cmd>, max: nat) {
    && |commands| <= NUM_PARALLEL_CMD
    && (forall i :: 0 <= i < |commands| ==> Acceptable(commands[i], max) && commands[i].number < |accepted|)
    && (forall i, j :: 0 <= i < j < |commands| ==> commands[i].number != commands[j].number)
    && (forall n :: 0 <= n < |accepted| ==> accepted[n].number == n && Acceptable(accepted[n], max))
  }

  predicate SplitPart(commands: seq<Cmd>, accepted: seq<Cmd>, generated: seq<Packet>, max: nat)
    requires Configured(max)
  {
    && (forall i :: 0 <= i < |generated| ==> generated[i].number < |accepted|)
    && (forall n :: 0 <= n < |accepted| ==> Of(generated, n) + RestOf(commands, n, max) == Split(accepted[n], max))
  }

  // The packets as generated, before any of their bytes arrived.
  function Erase(ps: seq<Packet>): seq<Packet> {
    seq(|ps|, i requires 0 <= i < |ps| => ps[i].(data := []))
  }

  predicate Whole(ps: seq<Packet>) { forall i :: 0 <= i < |ps| ==> |ps[i].data| == ps[i].payload }

  predicate FlowPart(generated: seq<Packet>, sent: seq<Packet>, network: seq<Packet>, dma: seq<Packet>,
                     responses: seq<nat>) {
    && generated == Erase(sent + network + dma)
    && Whole(sent + network)
    && responses == LastIds(sent)
  }

  // A read in flight: where from, how much, and how much of it has been consumed.
  datatype Read = Read(src: nat, payload: nat, got: nat)

  function Reads(dma: seq<Packet>): (rs: seq<Read>)
    ensures |rs| == |dma|
  {
    seq(|dma|, i requires 0 <= i < |dma| => Read(dma[i].src, dma[i].payload, |dma[i].data|))
  }

  // The slots still to be consumed complete the reads in flight one by one.
  predicate Feeds(stream: seq<Slot>, rs: seq<Read>)
    decreases |stream|
  {
    if stream == [] then rs == [] else
      && rs != [] && Placed(stream[0], rs[0].src, rs[0].payload, rs[0].got)
      && var got := rs[0].got + stream[0].dataLength;
      if stream[0].isLast then got == rs[0].payload && Feeds(stream[1..], rs[1..])
      else Feeds(stream[1..], rs[0 := rs[0].(got := got)])
  }

  predicate ReadPart(readQueue: seq<ReadEntry>, due: seq<Due>, arrived: seq<Slot>, rs: seq<Read>) {
    Balanced(readQueue, due) && Feeds(arrived + Decode(readQueue, due), rs)
  }

  // The bytes buffered and the bytes in the packets are those of the memory, where the
  // lanes have them.
  ghost predicate BufferedPart(rQueue: seq<RBuffered>, arrived: seq<Slot>, m: Memory) {
    |arrived| == |rQueue| && forall i :: 0 <= i < |rQueue| ==> Filled(rQueue[i], arrived[i], m)
  }

  ghost predicate BytesPart(ps: seq<Packet>, m: Memory) {
    forall i :: 0 <= i < |ps| ==> RightBytes(ps[i].src, ps[i].payload, ps[i].data, m)
  }

  // Command c at position p of the queue: fewer than 16 packets since its last one, and
  // the ones ahead of it are counted in.
  predicate RecentEnough(generated: seq<Packet>, number: nat, p: nat) {
    || (forall i :: 0 <= i < |generated| ==> generated[i].number != number)
    || exists i :: 0 <= i < |generated| && generated[i].number == number && |generated| - 1 - i + p < NUM_PARALLEL_CMD
  }

  // Packet j is the first of its command, or follows another of it by at most 16.
  predicate FollowsSoon(generated: seq<Packet>, j: nat)
    requires j < |generated|
  {
    || (forall i :: 0 <= i < j ==> generated[i].number != generated[j].number)
    || exists i :: j - NUM_PARALLEL_CMD <= i < j && 0 <= i && generated[i].number == generated[j].number
  }

  predicate FairPart(commands: seq<Cmd>, generated: seq<Packet>) {
    && (forall p :: 0 <= p < |commands| ==> RecentEnough(generated, commands[p].number, p))
    && (forall j :: 0 <= j < |generated| ==> FollowsSoon(generated, j))
  }

  // Every accepted command is still queued or has had its last packet generated.
  predicate AnswersPart(commands: seq<Cmd>, accepted: seq<Cmd>, generated: seq<Packet>) {
    |LastIds(generated)| + |commands| == |accepted|
  }

  ghost predicate Inv(s: Sys, c: Cfg) {
    && Configured(c.max)
    && CommandsPart(s.nic.commands, s.accepted, c.max)
    && SplitPart(s.nic.commands, s.accepted, s.generated, c.max)
    && FairPart(s.nic.commands, s.generated)
    && AnswersPart(s.nic.commands, s.accepted, s.generated)
    && FlowPart(s.generated, s.sent, s.nic.network, s.nic.dma, s.responses)
    && ReadPart(s.nic.readQueue, s.due + Dues(s.nic.ar), s.arrived, Reads(s.nic.dma))
    && BufferedPart(s.nic.rQueue, s.arrived, c.mem)
    && BytesPart(s.sent + s.nic.network + s.nic.dma, c.mem)
    && |s.nic.network| + |s.nic.dma| <= c.buffer
  }
}
