/** The NIC outbound engine (hw/verilator_model/src/NICOutbound.hpp) as steps on its
    fields, and the class whose methods perform them.  The time a packet occupies the
    network is a parameter; printing and statistics are left out. */
module NicOutbound {
  import opened AxiBurst
  import opened AxiWrite
  import opened AxiMaster
  import opened Packetizer

  datatype Nic = Nic(
    commands: seq<Cmd>,
    dma: seq<Packet>,        // waiting for their data (dma_pkt_in_flight)
    network: seq<Packet>,    // complete, waiting for the network (network_queue)
    wait: nat,
    ar: seq<AxBeat>,         // address beats issued and not yet taken
    readQueue: seq<ReadEntry>,
    rQueue: seq<RBuffered>)

  const INIT := Nic([], [], [], 0, [], [], [])

  // handle_cmd_posedge on a valid command: the new state, and whether it was taken.
  function Command(n: Nic, cmd: Cmd): (Nic, bool) {
    if |n.commands| < NUM_PARALLEL_CMD then (n.(commands := n.commands + [cmd]), true) else (n, false)
  }

  predicate CanPacketize(n: Nic, buffer: nat) { n.commands != [] && |n.network| + |n.dma| < buffer }

  // progress_packets
  function Packetize(n: Nic, max: nat, buffer: nat): Nic
    requires Configured(max)
  {
    if !CanPacketize(n, buffer) then n else
      var pkt := Head(n.commands[0], max);
      n.(commands := Turn(n.commands, max),
         dma := n.dma + [pkt],
         ar := n.ar + AxBeats(Bursts(pkt.src, pkt.payload)),
         readQueue := n.readQueue + [ReadEntry(pkt.payload, Pages(pkt.src, pkt.payload))])
  }

  // An accepted R beat (r_posedge).
  function AcceptR(n: Nic, beat: RBeat): Nic
    requires n.readQueue != []
  {
    var (q, b) := TakeR(n.readQueue, beat);
    n.(readQueue := q, rQueue := n.rQueue + [b])
  }

  // The packet after a buffered beat was copied to its end.
  function Took(p: Packet, b: RBuffered): Packet { p.(data := p.data + b.data[..Min(BUS_BYTES, |b.data|)]) }

  // progress_axi_read_responses; the preconditions are its assertions.
  function Receive(n: Nic): Nic
    requires n.rQueue != [] ==> n.dma != []
    requires n.rQueue != [] && n.rQueue[0].isLast ==> |Took(n.dma[0], n.rQueue[0]).data| == n.dma[0].payload
  {
    if n.rQueue == [] then n else
      var pkt := Took(n.dma[0], n.rQueue[0]);
      if n.rQueue[0].isLast
      then n.(rQueue := n.rQueue[1..], network := n.network + [pkt], dma := n.dma[1..])
      else n.(rQueue := n.rQueue[1..], dma := n.dma[0 := pkt])
  }

  // The wait cycle of progress_netqueue: the packet in progress holds the network.
  predicate Busy(n: Nic) { n.wait > 1 }

  // progress_netqueue: the packet sent, if any; `cycles` is the time it will take.
  function Transmit(n: Nic, cycles: nat): (Nic, seq<Packet>) {
    if Busy(n) then (n.(wait := n.wait - 1), [])
    else if n.network == [] then (n.(wait := 0), [])
    else (n.(wait := cycles, network := n.network[1..]), [n.network[0]])
  }

  class Engine {
    const axi: Master
    const packetizer: Packets
    const networkBufferSize: nat
    var network: seq<Packet>
    var dma: seq<Packet>
    var waitCycles: nat
    var respValid: bool
    var respId: nat

    ghost function View(): Nic
      reads this, axi, packetizer
    {
      Nic(packetizer.commands, dma, network, waitCycles, axi.arPending, axi.readQueue, axi.rQueue)
    }

    constructor (max: nat, buffer: nat)
      ensures View() == INIT && fresh(axi) && fresh(packetizer)
      ensures axi.rBufferSize == 0 && packetizer.maxPacketLen == max && networkBufferSize == buffer
      ensures !respValid
    {
      axi := new Master();
      packetizer := new Packets(max);
      networkBufferSize := buffer;
      network, dma, waitCycles, respValid, respId := [], [], 0, false, 0;
    }

    // The precondition is the assertion of the source, met when a slot is free.
    method HandleCmd(valid: bool, cmd: Cmd) returns (ready: bool)
      requires valid && |packetizer.commands| < NUM_PARALLEL_CMD ==>
        cmd.fid > 0 || cmd.length <= packetizer.maxPacketLen
      modifies packetizer`commands
      ensures ready == (valid && Command(old(View()), cmd).1)
      ensures View() == if valid then Command(old(View()), cmd).0 else old(View())
    {
      ready := false;
      var canAcceptCmd := packetizer.HasFreeCmdSlot();
      if valid && canAcceptCmd {
        packetizer.NewCmd(cmd);
        ready := true;
      }
    }

    method ProgressPackets()
      requires Configured(packetizer.maxPacketLen)
      requires packetizer.commands != [] && packetizer.commands[0].fid == 0 ==>
        packetizer.commands[0].length <= packetizer.maxPacketLen
      modifies packetizer`commands, axi, this`dma
      ensures View() == Packetize(old(View()), packetizer.maxPacketLen, networkBufferSize)
      ensures axi.rBufferSize == old(axi.rBufferSize)
    {
      var canSendPkt := |network| + |dma| < networkBufferSize;
      if packetizer.commands != [] && canSendPkt {
        var pkt := packetizer.GetNextPacket();
        axi.Read(pkt.src, pkt.payload);
        dma := dma + [pkt];
      }
    }

    method AxiPosedge(rValid: bool, beat: RBeat) returns (taken: bool)
      requires axi.rBufferSize == 0 && (rValid ==> axi.readQueue != [])
      modifies axi`readQueue, axi`rQueue, axi`rReady
      ensures taken == rValid && axi.rReady == (old(axi.rReady) || rValid)
      ensures View() == if rValid then AcceptR(old(View()), beat) else old(View())
    {
      taken := axi.RPosedge(rValid, beat);
    }

    method ProgressReadResponses()
      requires axi.rQueue != [] ==> dma != []
      requires axi.rQueue != [] && axi.rQueue[0].isLast ==> |Took(dma[0], axi.rQueue[0]).data| == dma[0].payload
      modifies axi`rQueue, this`dma, this`network
      ensures View() == Receive(old(View()))
    {
      if axi.rQueue != [] {
        var bytes, readComplete := axi.ConsumeR(BUS_BYTES);
        dma := dma[0 := dma[0].(data := dma[0].data + bytes)];
        if readComplete {
          assert |dma[0].data| == dma[0].payload;
          network := network + [dma[0]];
          dma := dma[1..];
        }
      }
    }

    // The response is on the port for the one cycle in which the last packet leaves.
    method ProgressNetqueue(cycles: nat)
      modifies this`waitCycles, this`network, this`respValid, this`respId
      ensures View() == Transmit(old(View()), cycles).0
      ensures var sent := Transmit(old(View()), cycles).1;
        && respValid == (sent != [] && sent[0].isLast)
        && (respValid ==> respId == sent[0].id)
    {
      respValid := false;
      if waitCycles > 0 {
        waitCycles := waitCycles - 1;
        if waitCycles > 0 {
          return;
        }
      }
      if network != [] {
        var pkt := network[0];
        waitCycles := cycles;
        if pkt.isLast {
          respValid := true;
          respId := pkt.id;
        }
        network := network[1..];
      }
    }
  }
}
